/** The receiving end of a lane. */
module InboundLanes {
  import opened Wrappers
  import opened LaneTypes
  import opened LaneStorage
  import opened DeliveryRecord

  datatype Rejection = InvalidNonce | TooManyUnrewardedRelayers | TooManyUnconfirmedMessages

  datatype ReceptionResult = Dispatched(unspentWeight: Weight) | Rejected(reason: Rejection)

  // ---- What the operations compute -----------------------------------------------------------

  predicate StateUpdateApplies(d: InboundLaneData, received: nat) {
    d.lastConfirmedNonce < received <= d.LastDeliveredNonce()
  }

  function StateUpdated(d: InboundLaneData, received: nat): InboundLaneData {
    if StateUpdateApplies(d, received) then
      d.(lastConfirmedNonce := received, relayers := Pruned(d.relayers, received))
    else d
  }

  /** Why the lane refuses a message, if it does. */
  function Refusal(d: InboundLaneData, limits: Limits, nonce: nat): Option<Rejection> {
    if Some(nonce) != CheckedAdd(d.LastDeliveredNonce(), 1) then Some(InvalidNonce)
    else if |d.relayers| >= limits.maxUnrewardedRelayers then Some(TooManyUnrewardedRelayers)
    else if SaturatingSub(nonce, d.lastConfirmedNonce) > limits.maxUnconfirmedMessages
      then Some(TooManyUnconfirmedMessages)
    else None
  }

  function Received(d: InboundLaneData, limits: Limits, relayer: Relayer, nonce: nat): InboundLaneData {
    if Refusal(d, limits, nonce).None? then d.(relayers := Pushed(d.relayers, relayer, nonce)) else d
  }

  // ---- The lane object -----------------------------------------------------------------------

  /** A lane opened over its cached runtime storage: lane id, cached copy, and the storage map behind it. */
  class InboundLane {
    const storage: PalletStorage
    const laneId: LaneId
    const limits: Limits
    var cachedData: InboundLaneData

    /** The cached copy is what the storage map holds. */
    ghost predicate InSync()
      reads this, storage
    {
      laneId in storage.inboundLanes && storage.inboundLanes[laneId] == cachedData
    }

    constructor (storage: PalletStorage, laneId: LaneId, limits: Limits, data: InboundLaneData)
      ensures this.storage == storage && this.laneId == laneId && this.limits == limits && cachedData == data
    {
      this.storage, this.laneId, this.limits, cachedData := storage, laneId, limits, data;
    }

    method SetData(data: InboundLaneData)
      modifies this`cachedData, storage`inboundLanes
      ensures InSync() && cachedData == data
      ensures storage.inboundLanes == old(storage.inboundLanes)[laneId := data]
    {
      cachedData := data;
      storage.inboundLanes := storage.inboundLanes[laneId := data];
    }

    /** Take over the confirmations recorded by the sending end. */
    method ReceiveStateUpdate(outbound: OutboundLaneData) returns (updated: Option<nat>)
      modifies this`cachedData, storage`inboundLanes
      ensures cachedData == StateUpdated(old(cachedData), outbound.latestReceivedNonce)
      ensures updated == if StateUpdateApplies(old(cachedData), outbound.latestReceivedNonce)
                         then Some(outbound.latestReceivedNonce) else None
      ensures storage.inboundLanes == if updated.Some? then old(storage.inboundLanes)[laneId := cachedData]
                                      else old(storage.inboundLanes)
      ensures old(InSync()) ==> InSync()
    {
      var data := cachedData;
      if outbound.latestReceivedNonce > data.LastDeliveredNonce() { return None; }
      if outbound.latestReceivedNonce <= data.lastConfirmedNonce { return None; }

      var confirmed := outbound.latestReceivedNonce;
      var relayers := data.relayers;
      while relayers != [] && relayers[0].messages.end <= confirmed
        invariant DropConfirmed(relayers, confirmed) == DropConfirmed(data.relayers, confirmed)
        decreases |relayers|
      {
        relayers := relayers[1..];
      }
      if relayers != [] && relayers[0].messages.begin <= confirmed {
        relayers := relayers[0 := relayers[0].(messages := relayers[0].messages.(begin := confirmed + 1))];
      }
      SetData(data.(lastConfirmedNonce := confirmed, relayers := relayers));
      updated := Some(confirmed);
    }

    /** Accept and dispatch the next message, or say why it is refused. */
    method ReceiveMessage(relayer: Relayer, nonce: nat, payload: Payload, unspentWeight: Weight)
      returns (result: ReceptionResult)
      modifies this`cachedData, storage`inboundLanes, storage`dispatched
      ensures cachedData == Received(old(cachedData), limits, relayer, nonce)
      ensures result == match Refusal(old(cachedData), limits, nonce)
                        case Some(why) => Rejected(why)
                        case None => Dispatched(unspentWeight)
      ensures storage.dispatched == if result.Dispatched?
                                    then old(storage.dispatched) + [DispatchMessage(MessageKey(laneId, nonce), payload)]
                                    else old(storage.dispatched)
      ensures storage.inboundLanes == if result.Dispatched? then old(storage.inboundLanes)[laneId := cachedData]
                                      else old(storage.inboundLanes)
      ensures old(InSync()) ==> InSync()
    {
      var data := cachedData;
      if Some(nonce) != CheckedAdd(data.LastDeliveredNonce(), 1) { return Rejected(InvalidNonce); }
      if |data.relayers| >= limits.maxUnrewardedRelayers { return Rejected(TooManyUnrewardedRelayers); }
      var unconfirmed := SaturatingSub(nonce, data.lastConfirmedNonce);
      if unconfirmed > limits.maxUnconfirmedMessages { return Rejected(TooManyUnconfirmedMessages); }

      storage.dispatched := storage.dispatched + [DispatchMessage(MessageKey(laneId, nonce), payload)];

      var relayers := data.relayers;
      var last := |relayers| - 1;
      if relayers != [] && relayers[last].relayer == relayer {
        var run := relayers[last].messages;
        relayers := relayers[last := UnrewardedRelayer(relayer, run.(end := run.end + 1))];
      } else {
        relayers := relayers + [UnrewardedRelayer(relayer, DeliveredMessages(nonce, nonce))];
      }
      SetData(data.(relayers := relayers));
      result := Dispatched(unspentWeight);
    }
  }

  /** Open an existing lane; `dispatcherActive` is the dispatcher's own answer for this lane. */
  method OpenInboundLane(storage: PalletStorage, laneId: LaneId, limits: Limits, checkActive: bool,
                         dispatcherActive: bool)
    returns (r: Result<InboundLane, LanesManagerError>)
    ensures laneId !in storage.inboundLanes ==> r == Err(UnknownInboundLane)
    ensures laneId in storage.inboundLanes && checkActive ==>
              var state := storage.inboundLanes[laneId].state;
              && (state == Closed ==> r == Err(ClosedInboundLane))
              && (state == Opened && !dispatcherActive ==> r == Err(LaneDispatcherInactive))
    ensures r.Ok? <==> laneId in storage.inboundLanes
                       && (checkActive ==> storage.inboundLanes[laneId].state == Opened && dispatcherActive)
    ensures r.Ok? ==> fresh(r.value) && r.value.storage == storage && r.value.laneId == laneId
    ensures r.Ok? ==> r.value.limits == limits && r.value.InSync()
  {
    if laneId !in storage.inboundLanes { return Err(UnknownInboundLane); }
    var data := storage.inboundLanes[laneId];
    if checkActive {
      if data.state != Opened { return Err(ClosedInboundLane); }
      if !dispatcherActive { return Err(LaneDispatcherInactive); }
    }
    var lane := new InboundLane(storage, laneId, limits, data);
    r := Ok(lane);
  }

  // ---- What the lane promises ----------------------------------------------------------------

  /** The queue is the run-length encoding of who delivered the unconfirmed nonces, within both limits. */
  ghost predicate Represents(d: InboundLaneData, log: seq<Relayer>, limits: Limits) {
    && d.lastConfirmedNonce <= |log|
    && d.relayers == Encode(log, d.lastConfirmedNonce, |log|)
    && |d.relayers| <= limits.maxUnrewardedRelayers
    && |log| - d.lastConfirmedNonce <= limits.maxUnconfirmedMessages
  }

  lemma RepresentsLastDelivered(d: InboundLaneData, log: seq<Relayer>, limits: Limits)
    requires Represents(d, log, limits)
    ensures d.LastDeliveredNonce() == |log|
  {
    EncodeIsCanonical(log, d.lastConfirmedNonce, |log|);
  }

  /** Accepting a message appends its relayer to the record; refusing one changes nothing. */
  lemma ReceivedRepresents(d: InboundLaneData, log: seq<Relayer>, limits: Limits, relayer: Relayer, nonce: nat)
    requires Represents(d, log, limits)
    ensures Represents(Received(d, limits, relayer, nonce),
                       if Refusal(d, limits, nonce).None? then log + [relayer] else log, limits)
    ensures Refusal(d, limits, nonce).None? ==> nonce == |log| + 1 <= MAX_NONCE
  {
    RepresentsLastDelivered(d, log, limits);
    if Refusal(d, limits, nonce).None? {
      EncodeExtended(log, [relayer], d.lastConfirmedNonce, |log|);
      assert Encode(log + [relayer], d.lastConfirmedNonce, nonce) == Pushed(d.relayers, relayer, nonce);
    }
  }

  /** A state update forgets a prefix of the record and nothing else: the last delivered nonce stays. */
  lemma StateUpdatedRepresents(d: InboundLaneData, log: seq<Relayer>, limits: Limits, received: nat)
    requires Represents(d, log, limits)
    ensures Represents(StateUpdated(d, received), log, limits)
    ensures StateUpdated(d, received).LastDeliveredNonce() == d.LastDeliveredNonce() == |log|
    ensures StateUpdated(d, received).lastConfirmedNonce ==
            if received <= |log| then Max(d.lastConfirmedNonce, received) else d.lastConfirmedNonce
  {
    RepresentsLastDelivered(d, log, limits);
    if StateUpdateApplies(d, received) {
      PrunedDropsPrefix(log, d.lastConfirmedNonce, received, |log|);
      PrunedShrinks(d.relayers, received);
    }
    RepresentsLastDelivered(StateUpdated(d, received), log, limits);
  }

  // ---- The relayers state a confirmation declares --------------------------------------------

  /** The summary says of the nonces lo + 1 ..= hi: the runs, the length of the oldest run, the total and the last. */
  ghost predicate Summarizes(s: UnrewardedRelayersState, log: seq<Relayer>, lo: nat, hi: nat)
    requires lo <= hi <= |log|
  {
    && s.unrewardedRelayerEntries == CountRuns(log, lo, hi)
    && FirstRun(log, lo, hi, s.messagesInOldestEntry)
    && s.totalMessages == hi - lo
    && s.lastDeliveredNonce == hi
  }

  /** The state computed from a queue is the one and only summary of the record the queue encodes. */
  lemma StateIsSummaryIff(d: InboundLaneData, log: seq<Relayer>, hi: nat, s: UnrewardedRelayersState)
    requires d.lastConfirmedNonce <= hi <= |log| && hi <= MAX_NONCE
    requires d.relayers == Encode(log, d.lastConfirmedNonce, hi)
    ensures s == d.UnrewardedState() <==> Summarizes(s, log, d.lastConfirmedNonce, hi)
  {
    var lo := d.lastConfirmedNonce;
    EncodeIsCanonical(log, lo, hi);
    EncodeLength(log, lo, hi);
    if lo < hi { OldestEntryIsFirstRun(log, lo, hi); }
    assert Summarizes(d.UnrewardedState(), log, lo, hi);
    if Summarizes(s, log, lo, hi) {
      FirstRunIsUnique(log, lo, hi, s.messagesInOldestEntry, d.UnrewardedState().messagesInOldestEntry);
    }
  }
}
