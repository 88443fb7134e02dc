/** The two calls relayers make: delivering proved messages, and confirming proved deliveries. */
module MessagesPallet {
  import opened Wrappers
  import opened LaneTypes
  import opened LaneStorage
  import opened DeliveryRecord
  import opened InboundLanes
  import opened OutboundLanes

  type u32 = n: nat | n <= 0xFFFF_FFFF

  // ---- Storage proofs, abstracted to reads of a finalized snapshot of the bridged chain -------

  /**
    A messages proof: the outbound end at some finalized header (None when the header is unknown
    here), the claimed range of nonces, and which storage values the trie nodes of the proof cover.
   */
  datatype MessagesProof = MessagesProof(
    snapshot: Option<LaneQueue>,
    noncesStart: nat,
    noncesEnd: nat,
    coveredMessages: set<nat>,
    coversLaneState: bool,
    hasOtherNodes: bool)

  datatype Message = Message(nonce: nat, payload: Payload)

  datatype ProvedMessages = ProvedMessages(laneState: Option<OutboundLaneData>, messages: seq<Message>)

  datatype StorageProofError = StorageValueUnavailable | EmptyVal

  datatype VerificationError =
    | UnknownHeader
    | MessagesCountMismatch
    | MessageStorage(error: StorageProofError)
    | EmptyMessageProof
    | UnusedKey

  function ReadMessage(p: MessagesProof, nonce: nat): Result<Message, StorageProofError>
    requires p.snapshot.Some?
  {
    if nonce !in p.coveredMessages then Err(StorageValueUnavailable)
    else if nonce !in p.snapshot.value.messages then Err(EmptyVal)
    else Ok(Message(nonce, p.snapshot.value.messages[nonce]))
  }

  /** The first `count` messages of the claimed range, or the first failing read. */
  function ReadMessages(p: MessagesProof, count: nat): Result<seq<Message>, StorageProofError>
    requires p.snapshot.Some?
  {
    if count == 0 then Ok([])
    else match ReadMessages(p, count - 1)
      case Err(e) => Err(e)
      case Ok(read) =>
        match ReadMessage(p, p.noncesStart + count - 1)
        case Err(e) => Err(e)
        case Ok(m) => Ok(read + [m])
  }

  predicate HasUnusedNodes(p: MessagesProof) {
    p.hasOtherNodes || exists n :: n in p.coveredMessages && !(p.noncesStart <= n <= p.noncesEnd)
  }

  function Verification(p: MessagesProof, count: u32): Result<ProvedMessages, VerificationError> {
    if p.snapshot.None? then Err(UnknownHeader)
    else if SaturatingLen(p.noncesStart, p.noncesEnd) != count then Err(MessagesCountMismatch)
    else match ReadMessages(p, count)
      case Err(e) => Err(MessageStorage(e))
      case Ok(messages) =>
        var laneState := if p.coversLaneState then Some(p.snapshot.value.data) else None;
        if laneState.None? && messages == [] then Err(EmptyMessageProof)
        else if HasUnusedNodes(p) then Err(UnusedKey)
        else Ok(ProvedMessages(laneState, messages))
  }

  method VerifyMessagesProof(p: MessagesProof, count: u32) returns (r: Result<ProvedMessages, VerificationError>)
    ensures r == Verification(p, count)
  {
    if p.snapshot.None? { return Err(UnknownHeader); }
    if SaturatingLen(p.noncesStart, p.noncesEnd) != count { return Err(MessagesCountMismatch); }
    var messages := [];
    for i := 0 to count
      invariant ReadMessages(p, i) == Ok(messages)
    {
      var m := ReadMessage(p, p.noncesStart + i);
      if m.Err? {
        ReadMessagesFails(p, i + 1, count);
        return Err(MessageStorage(m.error));
      }
      messages := messages + [m.value];
    }
    var laneState := if p.coversLaneState then Some(p.snapshot.value.data) else None;
    if laneState.None? && messages == [] { return Err(EmptyMessageProof); }
    if HasUnusedNodes(p) { return Err(UnusedKey); }
    r := Ok(ProvedMessages(laneState, messages));
  }

  lemma {:induction false} ReadMessagesFails(p: MessagesProof, i: nat, count: nat)
    requires p.snapshot.Some? && i <= count && ReadMessages(p, i).Err?
    ensures ReadMessages(p, count) == ReadMessages(p, i)
  {
    if i < count { ReadMessagesFails(p, i, count - 1); }
  }

  /** A verified proof yields exactly the claimed nonces with the payloads stored at the snapshot. */
  lemma {:induction false} ReadMessagesYields(p: MessagesProof, count: nat)
    requires p.snapshot.Some? && ReadMessages(p, count).Ok?
    ensures |ReadMessages(p, count).value| == count
    ensures forall n :: p.noncesStart <= n < p.noncesStart + count ==> n in p.snapshot.value.messages
    ensures forall i :: 0 <= i < count ==>
              var m := ReadMessages(p, count).value[i];
              m.nonce == p.noncesStart + i && m.payload == p.snapshot.value.messages[m.nonce]
  {
    if count > 0 { ReadMessagesYields(p, count - 1); }
  }

  /** Conversely, reading succeeds as soon as every claimed nonce is covered and stored. */
  lemma {:induction false} ReadMessagesSucceeds(p: MessagesProof, count: nat)
    requires p.snapshot.Some?
    requires forall n :: p.noncesStart <= n < p.noncesStart + count ==>
               n in p.coveredMessages && n in p.snapshot.value.messages
    ensures ReadMessages(p, count).Ok?
  {
    if count > 0 { ReadMessagesSucceeds(p, count - 1); }
  }

  /** The claimed range has the declared length, all of it is covered and stored, and nothing else is covered. */
  ghost predicate Proves(p: MessagesProof, count: nat) {
    && p.snapshot.Some?
    && count == Max(p.noncesEnd + 1, p.noncesStart) - p.noncesStart
    && (forall n :: p.noncesStart <= n <= p.noncesEnd ==> n in p.coveredMessages && n in p.snapshot.value.messages)
    && (forall n :: n in p.coveredMessages ==> p.noncesStart <= n <= p.noncesEnd)
    && !p.hasOtherNodes
    && (count > 0 || p.coversLaneState)
  }

  /** What a proof claims: the messages of the range as stored at the snapshot, and the lane state if it is covered. */
  ghost function Claimed(p: MessagesProof, count: nat): ProvedMessages
    requires Proves(p, count)
  {
    ProvedMessages(
      if p.coversLaneState then Some(p.snapshot.value.data) else None,
      seq(count, i requires 0 <= i < count => Message(p.noncesStart + i, p.snapshot.value.messages[p.noncesStart + i])))
  }

  /**
    A proof verifies if and only if it proves exactly what it claims; then it yields the claimed messages as
    stored at the snapshot, and the lane state if it is covered. An error names what is wrong.
   */
  lemma VerifiesIffProves(p: MessagesProof, count: u32)
    requires p.noncesStart <= MAX_NONCE && p.noncesEnd <= MAX_NONCE
    ensures Verification(p, count).Ok? <==> Proves(p, count)
    ensures Verification(p, count).Ok? ==> Verification(p, count).value == Claimed(p, count)
    ensures Verification(p, count).Err? ==>
              match Verification(p, count).error
              case UnknownHeader => p.snapshot.None?
              case MessagesCountMismatch => count != Max(p.noncesEnd + 1, p.noncesStart) - p.noncesStart
              case MessageStorage(e) => exists n :: p.noncesStart <= n <= p.noncesEnd && Unreadable(p, n, e)
              case EmptyMessageProof => count == 0 && !p.coversLaneState
              case UnusedKey => HasUnusedNodes(p)
  {
    if p.snapshot.Some? && SaturatingLen(p.noncesStart, p.noncesEnd) == count {
      if ReadMessages(p, count).Ok? {
        ReadMessagesYields(p, count);
        ReadMessagesCovered(p, count);
      } else {
        var n := FirstUnreadable(p, count);
      }
      if forall n :: p.noncesStart <= n <= p.noncesEnd ==> n in p.coveredMessages && n in p.snapshot.value.messages {
        ReadMessagesSucceeds(p, count);
      }
    }
  }

  predicate Unreadable(p: MessagesProof, nonce: int, e: StorageProofError) {
    match e
    case StorageValueUnavailable => nonce !in p.coveredMessages
    case EmptyVal => nonce in p.coveredMessages && p.snapshot.Some? && nonce !in p.snapshot.value.messages
  }

  lemma {:induction false} ReadMessagesCovered(p: MessagesProof, count: nat)
    requires p.snapshot.Some? && ReadMessages(p, count).Ok?
    ensures forall n :: p.noncesStart <= n < p.noncesStart + count ==> n in p.coveredMessages
  {
    if count > 0 { ReadMessagesCovered(p, count - 1); }
  }

  lemma {:induction false} FirstUnreadable(p: MessagesProof, count: nat) returns (n: nat)
    requires p.snapshot.Some? && ReadMessages(p, count).Err?
    ensures p.noncesStart <= n < p.noncesStart + count && Unreadable(p, n, ReadMessages(p, count).error)
  {
    if ReadMessages(p, count - 1).Err? { n := FirstUnreadable(p, count - 1); } else { n := p.noncesStart + count - 1; }
  }

  // ---- Delivery ------------------------------------------------------------------------------

  /** Answers of the message dispatcher during one call. */
  datatype Dispatcher = Dispatcher(active: bool, weight: Payload -> Weight, unspent: (nat, Payload) -> Weight)

  datatype DeliveryCall = DeliveryCall(
    relayer: Relayer, proof: MessagesProof, messagesCount: u32, dispatchWeight: Weight)

  datatype CallError =
    | PalletHalted
    | TooManyMessagesInTheProof
    | InvalidMessagesProof(proofError: VerificationError)
    | LanesManager(laneError: LanesManagerError)
    | InsufficientDispatchWeight
    | InvalidMessagesDeliveryProof
    | InvalidUnrewardedRelayersState
    | ReceptionConfirmation(confirmationError: ReceptionConfirmationError)

  /** What the delivery loop has done so far. */
  datatype BatchState = BatchState(
    data: InboundLaneData,
    dispatched: seq<Message>,
    results: seq<ReceptionResult>,
    weightLeft: Weight,
    weightSpent: Weight)

  function NewBatch(d: InboundLaneData, weight: Weight): BatchState {
    BatchState(d, [], [], weight, ZERO_WEIGHT)
  }

  /** One turn of the delivery loop. */
  function BatchStep(s: BatchState, limits: Limits, relayer: Relayer, m: Message, dispatcher: Dispatcher)
    : Result<BatchState, CallError>
  {
    var weight := dispatcher.weight(m.payload);
    if weight.AnyGt(s.weightLeft) then Err(InsufficientDispatchWeight)
    else
      var refusal := Refusal(s.data, limits, m.nonce);
      var returned := if refusal.None? then dispatcher.unspent(m.nonce, m.payload) else weight;
      var spent := weight.Minus(returned.Meet(weight));
      Ok(BatchState(
        Received(s.data, limits, relayer, m.nonce),
        if refusal.None? then s.dispatched + [m] else s.dispatched,
        s.results + [if refusal.None? then Dispatched(dispatcher.unspent(m.nonce, m.payload))
                     else Rejected(refusal.value)],
        s.weightLeft.Minus(spent),
        s.weightSpent.Plus(spent)))
  }

  function Batch(d: InboundLaneData, limits: Limits, relayer: Relayer, messages: seq<Message>, dispatcher: Dispatcher,
                 weight: Weight)
    : Result<BatchState, CallError>
  {
    if messages == [] then Ok(NewBatch(d, weight))
    else match Batch(d, limits, relayer, messages[..|messages| - 1], dispatcher, weight)
      case Err(e) => Err(e)
      case Ok(s) => BatchStep(s, limits, relayer, messages[|messages| - 1], dispatcher)
  }

  /** The lane after it took over the proved confirmations, if any. */
  function Updated(d: InboundLaneData, proved: ProvedMessages): InboundLaneData {
    match proved.laneState
    case Some(outbound) => StateUpdated(d, outbound.latestReceivedNonce)
    case None => d
  }

  /** The whole delivery call on an existing lane (None when the lane is unknown). */
  function Delivery(mode: OperatingMode, lane: Option<InboundLaneData>, limits: Limits, call: DeliveryCall,
                    dispatcher: Dispatcher)
    : Result<BatchState, CallError>
  {
    if mode == Halted then Err(PalletHalted)
    else if call.messagesCount > limits.maxUnconfirmedMessages then Err(TooManyMessagesInTheProof)
    else match Verification(call.proof, call.messagesCount)
      case Err(e) => Err(InvalidMessagesProof(e))
      case Ok(proved) =>
        if lane.None? then Err(LanesManager(UnknownInboundLane))
        else if lane.value.state == Closed then Err(LanesManager(ClosedInboundLane))
        else if !dispatcher.active then Err(LanesManager(LaneDispatcherInactive))
        else
          Batch(Updated(lane.value, proved), limits, call.relayer, proved.messages, dispatcher, call.dispatchWeight)
  }

  function LaneOf(lanes: map<LaneId, InboundLaneData>, laneId: LaneId): Option<InboundLaneData> {
    if laneId in lanes then Some(lanes[laneId]) else None
  }

  function AsDispatched(laneId: LaneId, messages: seq<Message>): seq<DispatchMessage> {
    seq(|messages|, i requires 0 <= i < |messages| =>
      DispatchMessage(MessageKey(laneId, messages[i].nonce), messages[i].payload))
  }

  /** Deliver proved messages. A failing call leaves the storage as it was, even after some dispatches. */
  method ReceiveMessagesProof(storage: PalletStorage, laneId: LaneId, limits: Limits, call: DeliveryCall,
                              dispatcher: Dispatcher)
    returns (r: Result<BatchState, CallError>)
    modifies storage`inboundLanes, storage`dispatched
    ensures r == Delivery(storage.mode, LaneOf(old(storage.inboundLanes), laneId), limits, call, dispatcher)
    ensures r.Ok? ==>
              && storage.inboundLanes == old(storage.inboundLanes)[laneId := r.value.data]
              && storage.dispatched == old(storage.dispatched) + AsDispatched(laneId, r.value.dispatched)
    ensures r.Err? ==>
              && storage.inboundLanes == old(storage.inboundLanes)
              && storage.dispatched == old(storage.dispatched)
  {
    if storage.mode == Halted { return Err(PalletHalted); }
    if call.messagesCount > limits.maxUnconfirmedMessages { return Err(TooManyMessagesInTheProof); }
    var verified := VerifyMessagesProof(call.proof, call.messagesCount);
    if verified.Err? { return Err(InvalidMessagesProof(verified.error)); }
    var handle := OpenInboundLane(storage, laneId, limits, true, dispatcher.active);
    if handle.Err? { return Err(LanesManager(handle.error)); }
    var lane := handle.value;
    var lanesBefore, dispatchedBefore := storage.inboundLanes, storage.dispatched;
    if verified.value.laneState.Some? {
      var updated := lane.ReceiveStateUpdate(verified.value.laneState.value);
    }
    r := ReceiveBatch(lane, call.relayer, verified.value.messages, dispatcher, call.dispatchWeight);
    if r.Err? {
      // the runtime rolls back every write of a failed call
      storage.inboundLanes, storage.dispatched := lanesBefore, dispatchedBefore;
    }
  }

  /** One turn of the delivery loop, on the lane object. */
  method ReceiveNext(lane: InboundLane, s: BatchState, relayer: Relayer, m: Message, dispatcher: Dispatcher)
    returns (r: Result<BatchState, CallError>)
    requires lane.InSync() && lane.cachedData == s.data
    modifies lane`cachedData, lane.storage`inboundLanes, lane.storage`dispatched
    ensures r == BatchStep(s, lane.limits, relayer, m, dispatcher)
    ensures r.Ok? ==>
              && lane.InSync() && lane.cachedData == r.value.data
              && lane.storage.inboundLanes == old(lane.storage.inboundLanes)[lane.laneId := r.value.data]
              && if Refusal(s.data, lane.limits, m.nonce).Some?
                 then lane.storage.dispatched == old(lane.storage.dispatched)
                 else lane.storage.dispatched ==
                      old(lane.storage.dispatched) + [DispatchMessage(MessageKey(lane.laneId, m.nonce), m.payload)]
  {
    var weight := dispatcher.weight(m.payload);
    if weight.AnyGt(s.weightLeft) { return Err(InsufficientDispatchWeight); }
    var result := lane.ReceiveMessage(relayer, m.nonce, m.payload, dispatcher.unspent(m.nonce, m.payload));
    var returned := if result.Dispatched? then result.unspentWeight else weight;
    var spent := weight.Minus(returned.Meet(weight));
    var dispatched := if result.Dispatched? then s.dispatched + [m] else s.dispatched;
    r := Ok(BatchState(lane.cachedData, dispatched, s.results + [result],
                       s.weightLeft.Minus(spent), s.weightSpent.Plus(spent)));
  }

  /** The delivery loop. */
  method ReceiveBatch(lane: InboundLane, relayer: Relayer, messages: seq<Message>, dispatcher: Dispatcher,
                      dispatchWeight: Weight)
    returns (r: Result<BatchState, CallError>)
    requires lane.InSync()
    modifies lane`cachedData, lane.storage`inboundLanes, lane.storage`dispatched
    ensures r == Batch(old(lane.cachedData), lane.limits, relayer, messages, dispatcher, dispatchWeight)
    ensures r.Ok? ==>
              && lane.storage.inboundLanes == old(lane.storage.inboundLanes)[lane.laneId := r.value.data]
              && lane.storage.dispatched == old(lane.storage.dispatched) + AsDispatched(lane.laneId, r.value.dispatched)
  {
    ghost var start := lane.cachedData;
    var s := NewBatch(lane.cachedData, dispatchWeight);
    assert lane.storage.dispatched == lane.storage.dispatched + AsDispatched(lane.laneId, []);
    for i := 0 to |messages|
      invariant Batch(start, lane.limits, relayer, messages[..i], dispatcher, dispatchWeight) == Ok(s)
      invariant lane.InSync() && lane.cachedData == s.data
      invariant lane.storage.inboundLanes == old(lane.storage.inboundLanes)[lane.laneId := s.data]
      invariant lane.storage.dispatched == old(lane.storage.dispatched) + AsDispatched(lane.laneId, s.dispatched)
    {
      BatchUnrolled(start, lane.limits, relayer, messages, dispatcher, dispatchWeight, i);
      AsDispatchedAppend(lane.laneId, s.dispatched, messages[i]);
      var next := ReceiveNext(lane, s, relayer, messages[i], dispatcher);
      if next.Err? {
        BatchFails(start, lane.limits, relayer, messages, dispatcher, dispatchWeight, i + 1);
        return next;
      }
      s := next.value;
    }
    assert messages[..|messages|] == messages;
    r := Ok(s);
  }

  lemma BatchUnrolled(d: InboundLaneData, limits: Limits, relayer: Relayer, messages: seq<Message>,
                      dispatcher: Dispatcher, weight: Weight, n: nat)
    requires n < |messages|
    ensures Batch(d, limits, relayer, messages[..n + 1], dispatcher, weight) ==
            match Batch(d, limits, relayer, messages[..n], dispatcher, weight)
            case Err(e) => Err(e)
            case Ok(s) => BatchStep(s, limits, relayer, messages[n], dispatcher)
  {
    assert messages[..n + 1][..n] == messages[..n];
  }

  lemma AsDispatchedAppend(laneId: LaneId, messages: seq<Message>, m: Message)
    ensures AsDispatched(laneId, messages + [m])
         == AsDispatched(laneId, messages) + [DispatchMessage(MessageKey(laneId, m.nonce), m.payload)]
  {
  }

  lemma {:induction false} BatchFails(d: InboundLaneData, limits: Limits, relayer: Relayer, messages: seq<Message>,
                                      dispatcher: Dispatcher, weight: Weight, i: nat)
    requires i <= |messages| && Batch(d, limits, relayer, messages[..i], dispatcher, weight).Err?
    ensures Batch(d, limits, relayer, messages, dispatcher, weight)
         == Batch(d, limits, relayer, messages[..i], dispatcher, weight)
  {
    if i == |messages| {
      assert messages[..i] == messages;
    } else {
      assert messages[..|messages| - 1][..i] == messages[..i];
      BatchFails(d, limits, relayer, messages[..|messages| - 1], dispatcher, weight, i);
    }
  }

  // ---- Confirmation --------------------------------------------------------------------------

  /** The confirmation call; the proof is a snapshot of the inbound end (None when it does not verify). */
  function ConfirmationCall(mode: OperatingMode, lane: Option<OutboundLaneData>, proof: Option<InboundLaneData>,
                            declared: UnrewardedRelayersState)
    : Result<Option<DeliveredMessages>, CallError>
  {
    if mode == Halted then Err(PalletHalted)
    else if proof.None? then Err(InvalidMessagesDeliveryProof)
    else if declared != proof.value.UnrewardedState() then Err(InvalidUnrewardedRelayersState)
    else if lane.None? then Err(LanesManager(UnknownOutboundLane))
    else match Confirmation(lane.value, declared.totalMessages, proof.value.LastDeliveredNonce(), proof.value.relayers)
      case Err(e) => Err(ReceptionConfirmation(e))
      case Ok(confirmed) => Ok(confirmed)
  }

  /**
    A confirmation call succeeds if and only if the pallet is not halted, the proof verifies, the declared
    state is that of the proved queue, the lane is known, and the lane accepts; an error names what is wrong.
   */
  lemma ConfirmationCallSucceedsIff(mode: OperatingMode, lane: Option<OutboundLaneData>, proof: Option<InboundLaneData>,
                                    declared: UnrewardedRelayersState)
    ensures var r := ConfirmationCall(mode, lane, proof, declared);
            && (r.Ok? <==>
                && mode != Halted && proof.Some? && declared == proof.value.UnrewardedState() && lane.Some?
                && Confirmation(lane.value, proof.value.TotalUnrewardedMessages(), proof.value.LastDeliveredNonce(),
                                proof.value.relayers).Ok?)
            && (r.Err? ==>
                match r.error
                case PalletHalted => mode == Halted
                case InvalidMessagesDeliveryProof => proof.None?
                case InvalidUnrewardedRelayersState => proof.Some? && declared != proof.value.UnrewardedState()
                case LanesManager(UnknownOutboundLane) => lane.None?
                case ReceptionConfirmation(e) =>
                  && lane.Some? && proof.Some?
                  && Confirmation(lane.value, proof.value.TotalUnrewardedMessages(), proof.value.LastDeliveredNonce(),
                                  proof.value.relayers) == Err(e)
                case _ => false)
  {
  }

  /** The map holds the share of each relayer with a non-zero share in the nonces begin..=end. */
  ghost predicate RewardsAre(rewards: map<Relayer, nat>, relayers: RelayersQueue, begin: nat, end: nat) {
    && (forall x :: x in rewards <==> RewardOf(relayers, begin, end, x) > 0)
    && (forall x :: x in rewards ==> rewards[x] == RewardOf(relayers, begin, end, x))
  }

  /** Number of newly confirmed messages per relayer. */
  method CalcRelayersRewards(relayers: RelayersQueue, begin: nat, end: nat) returns (rewards: map<Relayer, nat>)
    ensures RewardsAre(rewards, relayers, begin, end)
  {
    rewards := map[];
    for i := 0 to |relayers|
      invariant RewardsAre(rewards, relayers[..i], begin, end)
    {
      var entry := relayers[i];
      assert relayers[..i + 1][..i] == relayers[..i];
      var from := Max(entry.messages.begin, begin);
      var to := Min(entry.messages.end, end);
      if to >= from {
        var sofar := if entry.relayer in rewards then rewards[entry.relayer] else 0;
        rewards := rewards[entry.relayer := sofar + (to - from + 1)];
      }
    }
    assert relayers[..|relayers|] == relayers;
  }

  /** Confirm proved deliveries and compute what each relayer is owed for them. */
  method ReceiveMessagesDeliveryProof(storage: PalletStorage, laneId: LaneId, proof: Option<InboundLaneData>,
                                      declared: UnrewardedRelayersState)
    returns (r: Result<Option<DeliveredMessages>, CallError>, rewards: map<Relayer, nat>)
    modifies storage`outboundLanes, storage`outboundMessages
    ensures var lanes := old(storage.outboundLanes);
            r == ConfirmationCall(storage.mode, if laneId in lanes then Some(lanes[laneId]) else None, proof, declared)
    ensures r.Ok? && r.value.Some? ==>
              var lanes, range := old(storage.outboundLanes), r.value.value;
              && storage.outboundLanes == lanes[laneId := ConfirmedUpTo(lanes[laneId], range.end)]
              && storage.outboundMessages == WithoutRange(old(storage.outboundMessages), laneId, range.begin, range.end)
              && RewardsAre(rewards, proof.value.relayers, range.begin, range.end)
    ensures !(r.Ok? && r.value.Some?) ==>
              && storage.outboundLanes == old(storage.outboundLanes)
              && storage.outboundMessages == old(storage.outboundMessages)
              && rewards == map[]
  {
    rewards := map[];
    if storage.mode == Halted { r := Err(PalletHalted); return; }
    if proof.None? { r := Err(InvalidMessagesDeliveryProof); return; }
    var laneData := proof.value;
    if declared != laneData.UnrewardedState() { r := Err(InvalidUnrewardedRelayersState); return; }
    var handle := OpenOutboundLane(storage, laneId, false);
    if handle.Err? { r := Err(LanesManager(handle.error)); return; }
    var lane := handle.value;
    var confirmed := lane.ConfirmDelivery(declared.totalMessages, laneData.LastDeliveredNonce(), laneData.relayers);
    if confirmed.Err? { r := Err(ReceptionConfirmation(confirmed.error)); return; }
    if confirmed.value.Some? {
      rewards := CalcRelayersRewards(laneData.relayers, confirmed.value.value.begin, confirmed.value.value.end);
    }
    r := Ok(confirmed.value);
  }
}
