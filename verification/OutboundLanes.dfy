/** The sending end of a lane. */
module OutboundLanes {
  import opened Wrappers
  import opened LaneTypes
  import opened LaneStorage
  import opened DeliveryRecord

  datatype ReceptionConfirmationError =
    | FailedToConfirmFutureMessages
    | EmptyUnrewardedRelayerEntry
    | NonConsecutiveUnrewardedRelayerEntries
    | TryingToConfirmMoreMessagesThanExpected

  // ---- What the operations compute -----------------------------------------------------------

  /** What is wrong with the i-th entry of a relayers queue, if anything. */
  function EntryProblem(q: RelayersQueue, i: nat, latest: nat): Option<ReceptionConfirmationError>
    requires i < |q|
  {
    if q[i].messages.end < q[i].messages.begin then Some(EmptyUnrewardedRelayerEntry)
    else if i > 0 && CheckedAdd(q[i - 1].messages.end, 1) != Some(q[i].messages.begin)
      then Some(NonConsecutiveUnrewardedRelayerEntries)
    else if q[i].messages.end > latest then Some(FailedToConfirmFutureMessages)
    else None
  }

  /** The first problem at or after the i-th entry. */
  function FirstProblem(q: RelayersQueue, i: nat, latest: nat): Option<ReceptionConfirmationError>
    decreases |q| - i
  {
    if i >= |q| then None
    else if EntryProblem(q, i, latest).Some? then EntryProblem(q, i, latest)
    else FirstProblem(q, i + 1, latest)
  }

  /** The outcome of confirming delivery up to `delivered`, as proved by the receiving end's queue. */
  function Confirmation(d: OutboundLaneData, maxAllowed: nat, delivered: nat, q: RelayersQueue)
    : Result<Option<DeliveredMessages>, ReceptionConfirmationError>
  {
    var confirmed := DeliveredMessages(SaturatingAdd(d.latestReceivedNonce, 1), delivered);
    if confirmed.TotalMessages() == 0 then Ok(None)
    else if delivered > d.latestGeneratedNonce then Err(FailedToConfirmFutureMessages)
    else if confirmed.TotalMessages() > maxAllowed then Err(TryingToConfirmMoreMessagesThanExpected)
    else match FirstProblem(q, 0, delivered)
      case Some(e) => Err(e)
      case None => Ok(Some(confirmed))
  }

  function ConfirmedUpTo(d: OutboundLaneData, nonce: nat): OutboundLaneData {
    d.(latestReceivedNonce := nonce, oldestUnprunedNonce := SaturatingAdd(nonce, 1))
  }

  // ---- The lane object -----------------------------------------------------------------------

  /** A lane opened over its cached runtime storage. */
  class OutboundLane {
    const storage: PalletStorage
    const laneId: LaneId
    var cachedData: OutboundLaneData

    ghost predicate InSync()
      reads this, storage
    {
      laneId in storage.outboundLanes && storage.outboundLanes[laneId] == cachedData
    }

    /** The lane as its operations see it: the cached data and the queued payloads of this lane. */
    ghost function Queue(): LaneQueue
      reads this, storage
    {
      LaneQueue(cachedData, LaneMessages(storage.outboundMessages, laneId))
    }

    constructor (storage: PalletStorage, laneId: LaneId, data: OutboundLaneData)
      ensures this.storage == storage && this.laneId == laneId && cachedData == data
    {
      this.storage, this.laneId, cachedData := storage, laneId, data;
    }

    method SetData(data: OutboundLaneData)
      modifies this`cachedData, storage`outboundLanes
      ensures InSync() && cachedData == data
      ensures storage.outboundLanes == old(storage.outboundLanes)[laneId := data]
    {
      cachedData := data;
      storage.outboundLanes := storage.outboundLanes[laneId := data];
    }

    /** Queue a message under the next nonce of the cached lane. Generating nonce 2^64 traps. */
    method SendMessage(payload: Payload) returns (nonce: nat)
      requires cachedData.latestGeneratedNonce < MAX_NONCE
      modifies this`cachedData, storage`outboundLanes, storage`outboundMessages
      ensures nonce == old(cachedData).latestGeneratedNonce + 1
      ensures cachedData == old(cachedData).(latestGeneratedNonce := nonce)
      ensures storage.outboundLanes == old(storage.outboundLanes)[laneId := cachedData]
      ensures storage.outboundMessages == old(storage.outboundMessages)[MessageKey(laneId, nonce) := payload]
      ensures InSync() && Queue() == ApplyStep(old(Queue()), Send(payload))
    {
      SendIsStep(storage.outboundMessages, laneId, cachedData, payload);
      var data := cachedData;
      nonce := data.latestGeneratedNonce + 1;
      data := data.(latestGeneratedNonce := nonce);
      storage.outboundMessages := storage.outboundMessages[MessageKey(laneId, nonce) := payload];
      SetData(data);
    }

    /** Record the deliveries proved by the receiving end and drop the payloads they cover. */
    method ConfirmDelivery(maxAllowed: nat, delivered: nat, relayers: RelayersQueue)
      returns (r: Result<Option<DeliveredMessages>, ReceptionConfirmationError>)
      modifies this`cachedData, storage`outboundLanes, storage`outboundMessages
      ensures r == Confirmation(old(cachedData), maxAllowed, delivered, relayers)
      ensures r.Ok? && r.value.Some? ==>
                && cachedData == ConfirmedUpTo(old(cachedData), delivered)
                && storage.outboundLanes == old(storage.outboundLanes)[laneId := cachedData]
                && storage.outboundMessages ==
                     WithoutRange(old(storage.outboundMessages), laneId, r.value.value.begin, delivered)
                && InSync()
      ensures !(r.Ok? && r.value.Some?) ==>
                && cachedData == old(cachedData)
                && storage.outboundLanes == old(storage.outboundLanes)
                && storage.outboundMessages == old(storage.outboundMessages)
      ensures Queue() == ApplyStep(old(Queue()), Confirm(maxAllowed, delivered, relayers))
    {
      var data := cachedData;
      var confirmed := DeliveredMessages(SaturatingAdd(data.latestReceivedNonce, 1), delivered);
      if confirmed.TotalMessages() == 0 { return Ok(None); }
      if confirmed.end > data.latestGeneratedNonce { return Err(FailedToConfirmFutureMessages); }
      if confirmed.TotalMessages() > maxAllowed { return Err(TryingToConfirmMoreMessagesThanExpected); }

      var check := EnsureUnrewardedRelayersAreCorrect(confirmed.end, relayers);
      if check.Some? { return Err(check.value); }

      ghost var before := storage.outboundMessages;
      var nonce := confirmed.begin;
      assert before == WithoutRange(before, laneId, confirmed.begin, nonce - 1);
      while nonce <= confirmed.end
        invariant confirmed.begin <= nonce <= confirmed.end + 1
        invariant storage.outboundMessages == WithoutRange(before, laneId, confirmed.begin, nonce - 1)
        invariant storage.outboundLanes == old(storage.outboundLanes)
      {
        storage.outboundMessages := storage.outboundMessages - {MessageKey(laneId, nonce)};
        nonce := nonce + 1;
      }

      ConfirmationIsStep(before, laneId, data, maxAllowed, delivered, relayers);
      SetData(data.(latestReceivedNonce := confirmed.end, oldestUnprunedNonce := SaturatingAdd(confirmed.end, 1)));
      r := Ok(Some(confirmed));
    }

    /** Drop the payload of the oldest unpruned nonce, whatever its delivery state. */
    method RemoveOldestUnprunedMessage()
      requires cachedData.oldestUnprunedNonce < MAX_NONCE
      modifies this`cachedData, storage`outboundLanes, storage`outboundMessages
      ensures cachedData == old(cachedData).(oldestUnprunedNonce := old(cachedData).oldestUnprunedNonce + 1)
      ensures storage.outboundLanes == old(storage.outboundLanes)[laneId := cachedData]
      ensures storage.outboundMessages ==
              old(storage.outboundMessages) - {MessageKey(laneId, old(cachedData).oldestUnprunedNonce)}
      ensures InSync() && Queue() == ApplyStep(old(Queue()), RemoveOldest)
    {
      RemovalIsStep(storage.outboundMessages, laneId, cachedData);
      var data := cachedData;
      storage.outboundMessages := storage.outboundMessages - {MessageKey(laneId, data.oldestUnprunedNonce)};
      SetData(data.(oldestUnprunedNonce := data.oldestUnprunedNonce + 1));
    }
  }

  /** Report the first malformed entry of a proved relayers queue. */
  method EnsureUnrewardedRelayersAreCorrect(latest: nat, relayers: RelayersQueue)
    returns (problem: Option<ReceptionConfirmationError>)
    ensures problem == FirstProblem(relayers, 0, latest)
  {
    var expectedBegin := if relayers == [] then None else Some(relayers[0].messages.begin);
    for i := 0 to |relayers|
      invariant FirstProblem(relayers, 0, latest) == FirstProblem(relayers, i, latest)
      invariant i == 0 && i < |relayers| ==> expectedBegin == Some(relayers[i].messages.begin)
      invariant i > 0 ==> expectedBegin == CheckedAdd(relayers[i - 1].messages.end, 1)
    {
      var entry := relayers[i].messages;
      if entry.end < entry.begin { return Some(EmptyUnrewardedRelayerEntry); }
      if expectedBegin != Some(entry.begin) { return Some(NonConsecutiveUnrewardedRelayerEntries); }
      expectedBegin := CheckedAdd(entry.end, 1);
      if entry.end > latest { return Some(FailedToConfirmFutureMessages); }
    }
    problem := None;
  }

  method OpenOutboundLane(storage: PalletStorage, laneId: LaneId, checkActive: bool)
    returns (r: Result<OutboundLane, LanesManagerError>)
    ensures laneId !in storage.outboundLanes ==> r == Err(UnknownOutboundLane)
    ensures laneId in storage.outboundLanes && checkActive && storage.outboundLanes[laneId].state == Closed ==>
              r == Err(ClosedOutboundLane)
    ensures r.Ok? <==>
              laneId in storage.outboundLanes && (checkActive ==> storage.outboundLanes[laneId].state == Opened)
    ensures r.Ok? ==> fresh(r.value) && r.value.storage == storage && r.value.laneId == laneId && r.value.InSync()
  {
    if laneId !in storage.outboundLanes { return Err(UnknownOutboundLane); }
    var data := storage.outboundLanes[laneId];
    if checkActive && data.state != Opened { return Err(ClosedOutboundLane); }
    var lane := new OutboundLane(storage, laneId, data);
    r := Ok(lane);
  }

  // ---- What the lane promises ----------------------------------------------------------------

  /** A queue passes the check exactly when its entries are non-empty, consecutive and end by `latest`. */
  lemma {:induction false} FirstProblemIsSound(q: RelayersQueue, i: nat, latest: nat)
    requires i <= |q|
    ensures FirstProblem(q, i, latest).None? <==> forall j: nat :: i <= j < |q| ==> EntryProblem(q, j, latest).None?
    decreases |q| - i
  {
    if i < |q| { FirstProblemIsSound(q, i + 1, latest); }
  }

  /** Non-empty entries, each beginning right after the one before, none reaching beyond `latest`. */
  ghost predicate WellFormed(q: RelayersQueue, latest: nat) {
    && (forall i :: 0 <= i < |q| ==> q[i].messages.begin <= q[i].messages.end <= latest)
    && (forall i, j :: 0 <= i < j < |q| && j == i + 1 ==> q[j].messages.begin == q[i].messages.end + 1 <= MAX_NONCE)
  }

  /** A relayers queue is accepted if and only if it is well-formed. */
  lemma AcceptedIffWellFormed(q: RelayersQueue, latest: nat)
    ensures FirstProblem(q, 0, latest).None? <==> WellFormed(q, latest)
  {
    FirstProblemIsSound(q, 0, latest);
    if FirstProblem(q, 0, latest).None? {
      assert forall j: nat :: 0 <= j < |q| ==> EntryProblem(q, j, latest).None?;
      forall i, j | 0 <= i < j < |q| && j == i + 1
        ensures q[j].messages.begin == q[i].messages.end + 1 <= MAX_NONCE
      {
        assert EntryProblem(q, j, latest).None?;
      }
      forall i | 0 <= i < |q| ensures q[i].messages.begin <= q[i].messages.end <= latest {
        assert EntryProblem(q, i, latest).None?;
      }
      assert WellFormed(q, latest);
    } else {
      var j := ProblemNamesItsCause(q, 0, latest);
      assert !WellFormed(q, latest);
    }
  }

  /** The error says what is wrong with the first entry that has a problem. */
  lemma {:induction false} ProblemNamesItsCause(q: RelayersQueue, i: nat, latest: nat) returns (j: nat)
    requires i <= |q| && FirstProblem(q, i, latest).Some?
    ensures i <= j < |q| && (forall k: nat :: i <= k < j ==> EntryProblem(q, k, latest).None?)
    ensures match FirstProblem(q, i, latest).value
            case EmptyUnrewardedRelayerEntry => q[j].messages.end < q[j].messages.begin
            case NonConsecutiveUnrewardedRelayerEntries =>
              j > 0 && (q[j - 1].messages.end >= MAX_NONCE || q[j].messages.begin != q[j - 1].messages.end + 1)
            case FailedToConfirmFutureMessages => q[j].messages.end > latest
            case TryingToConfirmMoreMessagesThanExpected => false
    decreases |q| - i
  {
    if EntryProblem(q, i, latest).Some? { j := i; } else { j := ProblemNamesItsCause(q, i + 1, latest); }
  }

  /**
    While nonces last, a confirmation confirms the nonces after the latest received one, up to the delivered
    one, if and only if these were sent, are no more than allowed, and the queue is well-formed.
   */
  lemma ConfirmationIff(d: OutboundLaneData, maxAllowed: nat, delivered: nat, q: RelayersQueue)
    requires d.latestReceivedNonce < MAX_NONCE && delivered <= MAX_NONCE
    ensures var r := Confirmation(d, maxAllowed, delivered, q);
            var confirmed := delivered - d.latestReceivedNonce;
            && (r == Ok(None) <==> delivered <= d.latestReceivedNonce)
            && (r.Ok? && r.value.Some? <==>
                0 < confirmed <= maxAllowed && delivered <= d.latestGeneratedNonce && WellFormed(q, delivered))
            && (r.Ok? && r.value.Some? ==> r.value.value == DeliveredMessages(d.latestReceivedNonce + 1, delivered))
            && (r == Err(TryingToConfirmMoreMessagesThanExpected) <==>
                confirmed > 0 && delivered <= d.latestGeneratedNonce && confirmed > maxAllowed)
            && (0 < confirmed && delivered > d.latestGeneratedNonce ==> r == Err(FailedToConfirmFutureMessages))
  {
    AcceptedIffWellFormed(q, delivered);
    if FirstProblem(q, 0, delivered).Some? { var j := ProblemNamesItsCause(q, 0, delivered); }
  }

  /** An encoded delivery record always passes the check. */
  lemma EncodedQueueIsCorrect(log: seq<Relayer>, lo: nat, hi: nat)
    requires lo <= hi <= |log| && hi <= MAX_NONCE
    ensures FirstProblem(Encode(log, lo, hi), 0, hi).None?
  {
    var q := Encode(log, lo, hi);
    EncodeIsCanonical(log, lo, hi);
    CanonicalQueueIsCorrect(lo + 1, q, hi);
  }

  lemma CanonicalQueueIsCorrect(first: nat, q: RelayersQueue, latest: nat)
    requires Canonical(first, q) && latest <= MAX_NONCE
    requires q != [] ==> q[|q| - 1].messages.end <= latest
    ensures FirstProblem(q, 0, latest).None?
  {
    forall j: nat | j < |q| ensures EntryProblem(q, j, latest).None? {
      EndsIncrease(first, q, j);
    }
    FirstProblemIsSound(q, 0, latest);
  }

  // ---- Pruning over whole runs ---------------------------------------------------------------

  /** The lane and its queued payloads by nonce. */
  datatype LaneQueue = LaneQueue(data: OutboundLaneData, messages: map<nat, Payload>)

  const NEW_QUEUE := LaneQueue(NEW_OUTBOUND_LANE, map[])

  datatype QueueStep =
    | Send(payload: Payload)
    | Confirm(maxAllowed: nat, delivered: nat, relayers: RelayersQueue)
    | RemoveOldest

  /** The step goes through: it writes the lane. A send or a removal that would overflow a nonce traps instead. */
  predicate Performs(s: LaneQueue, step: QueueStep) {
    match step
    case Send(_) => s.data.latestGeneratedNonce < MAX_NONCE
    case Confirm(maxAllowed, delivered, relayers) =>
      var r := Confirmation(s.data, maxAllowed, delivered, relayers);
      r.Ok? && r.value.Some?
    case RemoveOldest => s.data.oldestUnprunedNonce < MAX_NONCE
  }

  /** The lane and its payloads after a step of the lane methods. */
  function ApplyStep(s: LaneQueue, step: QueueStep): LaneQueue {
    if !Performs(s, step) then s
    else
      match step
      case Send(payload) =>
        var nonce: nat := s.data.latestGeneratedNonce + 1;
        LaneQueue(s.data.(latestGeneratedNonce := nonce), s.messages[nonce := payload])
      case Confirm(maxAllowed, delivered, relayers) =>
        var confirmed := Confirmation(s.data, maxAllowed, delivered, relayers).value.value;
        LaneQueue(ConfirmedUpTo(s.data, delivered), WithoutNonces(s.messages, confirmed.begin, delivered))
      case RemoveOldest =>
        LaneQueue(s.data.(oldestUnprunedNonce := s.data.oldestUnprunedNonce + 1),
                  s.messages - {s.data.oldestUnprunedNonce})
  }

  /** What a send does to the messages of all lanes is, seen from its lane, a step. */
  lemma SendIsStep(messages: map<MessageKey, Payload>, laneId: LaneId, data: OutboundLaneData, payload: Payload)
    requires data.latestGeneratedNonce < MAX_NONCE
    ensures var nonce := data.latestGeneratedNonce + 1;
            var after := LaneMessages(messages[MessageKey(laneId, nonce) := payload], laneId);
            ApplyStep(LaneQueue(data, LaneMessages(messages, laneId)), Send(payload)) ==
            LaneQueue(data.(latestGeneratedNonce := nonce), after)
  {
    SavedByLane(messages, MessageKey(laneId, data.latestGeneratedNonce + 1), payload, laneId);
  }

  lemma ConfirmationIsStep(messages: map<MessageKey, Payload>, laneId: LaneId, data: OutboundLaneData,
                           maxAllowed: nat, delivered: nat, relayers: RelayersQueue)
    requires Confirmation(data, maxAllowed, delivered, relayers).Ok?
    requires Confirmation(data, maxAllowed, delivered, relayers).value.Some?
    ensures var begin := Confirmation(data, maxAllowed, delivered, relayers).value.value.begin;
            var after := LaneMessages(WithoutRange(messages, laneId, begin, delivered), laneId);
            ApplyStep(LaneQueue(data, LaneMessages(messages, laneId)), Confirm(maxAllowed, delivered, relayers)) ==
            LaneQueue(ConfirmedUpTo(data, delivered), after)
  {
    var begin := Confirmation(data, maxAllowed, delivered, relayers).value.value.begin;
    WithoutRangeByLane(messages, laneId, begin, delivered, laneId);
  }

  lemma RemovalIsStep(messages: map<MessageKey, Payload>, laneId: LaneId, data: OutboundLaneData)
    requires data.oldestUnprunedNonce < MAX_NONCE
    ensures var oldest := data.oldestUnprunedNonce;
            var after := LaneMessages(messages - {MessageKey(laneId, oldest)}, laneId);
            ApplyStep(LaneQueue(data, LaneMessages(messages, laneId)), RemoveOldest) ==
            LaneQueue(data.(oldestUnprunedNonce := oldest + 1), after)
  {
    RemovedByLane(messages, MessageKey(laneId, data.oldestUnprunedNonce), laneId);
  }

  function ApplySteps(s: LaneQueue, steps: seq<QueueStep>): LaneQueue {
    if steps == [] then s else ApplyStep(ApplySteps(s, steps[..|steps| - 1]), steps[|steps| - 1])
  }

  ghost predicate NothingBelowOldest(s: LaneQueue) {
    forall n :: n in s.messages ==> s.data.oldestUnprunedNonce <= n
  }

  /** The try-state check: a window of 17 nonces ending just below the oldest unpruned one is empty. */
  predicate TryStatePasses(s: LaneQueue) {
    s.data.oldestUnprunedNonce == 0 ||
    var last := s.data.oldestUnprunedNonce - 1;
    forall n :: SaturatingSub(last, 16) <= n <= last ==> n !in s.messages
  }

  /** The check sees a stray payload exactly when it is at most 17 nonces below the oldest unpruned one. */
  lemma TryStateSeesPayload(data: OutboundLaneData, nonce: nat, payload: Payload)
    ensures TryStatePasses(LaneQueue(data, map[nonce := payload])) <==>
            nonce >= data.oldestUnprunedNonce || nonce + 17 < data.oldestUnprunedNonce
  {
    var s := LaneQueue(data, map[nonce := payload]);
    assert nonce in s.messages;
  }

  /** Every removal happened while some nonce was still queued. */
  ghost predicate RemovesOnlyQueued(s: LaneQueue, steps: seq<QueueStep>) {
    forall k :: 0 <= k < |steps| && steps[k].RemoveOldest? ==>
      var before := ApplySteps(s, steps[..k]).data;
      before.oldestUnprunedNonce <= before.latestGeneratedNonce
  }

  ghost predicate QueueInv(s: LaneQueue) {
    && s.data.latestReceivedNonce <= s.data.latestGeneratedNonce <= MAX_NONCE
    && s.data.oldestUnprunedNonce <= s.data.latestGeneratedNonce + 1
    && NothingBelowOldest(s)
    && forall n :: n in s.messages ==> s.data.latestReceivedNonce < n <= s.data.latestGeneratedNonce
  }

  lemma {:induction false} RunKeepsQueueInv(steps: seq<QueueStep>)
    requires RemovesOnlyQueued(NEW_QUEUE, steps)
    ensures QueueInv(ApplySteps(NEW_QUEUE, steps))
  {
    if steps != [] {
      var init := steps[..|steps| - 1];
      forall k | 0 <= k < |init| && init[k].RemoveOldest?
        ensures ApplySteps(NEW_QUEUE, init[..k]).data.oldestUnprunedNonce <=
                  ApplySteps(NEW_QUEUE, init[..k]).data.latestGeneratedNonce
      {
        assert init[..k] == steps[..k] && steps[k].RemoveOldest?;
      }
      RunKeepsQueueInv(init);
    }
  }

  /** No run leaves a payload below the oldest unpruned nonce, so the try-state window check always passes. */
  lemma PruningIsComplete(steps: seq<QueueStep>)
    requires RemovesOnlyQueued(NEW_QUEUE, steps)
    ensures NothingBelowOldest(ApplySteps(NEW_QUEUE, steps))
    ensures TryStatePasses(ApplySteps(NEW_QUEUE, steps))
  {
    RunKeepsQueueInv(steps);
  }

  /** Removing is safe for the next message exactly when some nonce is queued. */
  lemma RemoveOldestSafeIffQueued(s: LaneQueue, payload: Payload)
    requires QueueInv(s) && s.data.latestGeneratedNonce + 1 < MAX_NONCE
    ensures NothingBelowOldest(ApplyStep(ApplyStep(s, RemoveOldest), Send(payload)))
       <==> s.data.oldestUnprunedNonce <= s.data.latestGeneratedNonce
  {
    var sent := ApplyStep(ApplyStep(s, RemoveOldest), Send(payload));
    assert s.data.latestGeneratedNonce + 1 in sent.messages;
  }

  /** On an empty queue the next message ends up below the oldest unpruned nonce, and the try-state check fails. */
  lemma RemoveOldestOnEmptyQueue(payload: Payload)
    ensures var s := ApplySteps(NEW_QUEUE, [RemoveOldest, Send(payload)]);
            s.messages == map[1 := payload] && s.data.oldestUnprunedNonce == 2 && !TryStatePasses(s)
  {
    assert [RemoveOldest, Send(payload)][..1] == [RemoveOldest] && [RemoveOldest][..0] == [];
    assert ApplySteps(NEW_QUEUE, [RemoveOldest]) == ApplyStep(NEW_QUEUE, RemoveOldest);
    var s := ApplySteps(NEW_QUEUE, [RemoveOldest, Send(payload)]);
    assert 1 in s.messages;
  }
}
