/**
  Both ends of a lane as one protocol. Relayers are not trusted: they may present any past snapshot
  of either chain, any number of times and in any order, and claim anything about it.
 */
module BridgeProtocol {
  import opened Wrappers
  import opened LaneTypes
  import opened LaneStorage
  import opened DeliveryRecord
  import opened InboundLanes
  import opened OutboundLanes
  import opened MessagesPallet

  datatype World = World(
    source: LaneQueue,                         // outbound end
    target: InboundLaneData,                   // inbound end
    sourceHistory: seq<LaneQueue>,             // finalized snapshots, oldest first; the last is the present
    targetHistory: seq<InboundLaneData>,
    sent: seq<Payload>,                        // sent[i] was accepted under nonce i + 1
    dispatched: seq<Message>,                  // dispatcher calls, oldest first
    deliverers: seq<Relayer>,                  // deliverers[i] brought the i-th dispatched message
    confirmed: seq<DeliveredMessages>,         // ranges returned by confirmations, oldest first
    rewarded: Relayer -> nat)                  // messages rewarded so far

  const GENESIS := World(NEW_QUEUE, NEW_INBOUND_LANE, [NEW_QUEUE], [NEW_INBOUND_LANE], [], [], [], [], _ => 0)

  datatype Step =
    | SendMessage(accepting: bool, payload: Payload)
    | DeliverMessages(
        mode: OperatingMode, relayer: Relayer, header: nat, noncesStart: nat, noncesEnd: nat, count: u32,
        covered: set<nat>, coversLaneState: bool, hasOtherNodes: bool, weight: Weight, dispatcher: Dispatcher)
    | ConfirmMessages(mode: OperatingMode, header: nat, declared: UnrewardedRelayersState)

  function Copies(x: Relayer, n: nat): seq<Relayer> {
    if n == 0 then [] else Copies(x, n - 1) + [x]
  }

  function CallOf(w: World, step: Step): DeliveryCall
    requires step.DeliverMessages?
  {
    var snapshot := if step.header < |w.sourceHistory| then Some(w.sourceHistory[step.header]) else None;
    DeliveryCall(
      step.relayer,
      MessagesProof(snapshot, step.noncesStart, step.noncesEnd, step.covered, step.coversLaneState, step.hasOtherNodes),
      step.count, step.weight)
  }

  function ProofOf(w: World, step: Step): Option<InboundLaneData>
    requires step.ConfirmMessages?
  {
    if step.header < |w.targetHistory| then Some(w.targetHistory[step.header]) else None
  }

  /** One transaction on either chain; a failing one changes nothing. */
  function Apply(limits: Limits, w: World, step: Step): World {
    match step
    case SendMessage(accepting, payload) =>
      if !accepting || w.source.data.latestGeneratedNonce >= MAX_NONCE then w
      else
        var source := ApplyStep(w.source, Send(payload));
        w.(source := source, sourceHistory := w.sourceHistory + [source], sent := w.sent + [payload])
    case DeliverMessages(_, _, _, _, _, _, _, _, _, _, _) =>
      (match Delivery(step.mode, Some(w.target), limits, CallOf(w, step), step.dispatcher)
       case Err(_) => w
       case Ok(s) =>
         w.(target := s.data, targetHistory := w.targetHistory + [s.data],
            dispatched := w.dispatched + s.dispatched,
            deliverers := w.deliverers + Copies(step.relayer, |s.dispatched|)))
    case ConfirmMessages(mode, _, declared) =>
      var proof := ProofOf(w, step);
      var r := ConfirmationCall(mode, Some(w.source.data), proof, declared);
      if r.Ok? && r.value.Some? then
        var range := r.value.value;
        var t := proof.value;
        var source := ApplyStep(w.source, Confirm(declared.totalMessages, t.LastDeliveredNonce(), t.relayers));
        w.(source := source, sourceHistory := w.sourceHistory + [source], confirmed := w.confirmed + [range],
           rewarded := (x: Relayer) => w.rewarded(x) + RewardOf(proof.value.relayers, range.begin, range.end, x))
      else w
  }

  function ApplyAll(limits: Limits, w: World, steps: seq<Step>): World {
    if steps == [] then w else Apply(limits, ApplyAll(limits, w, steps[..|steps| - 1]), steps[|steps| - 1])
  }

  // ---- The invariant -------------------------------------------------------------------------

  /** An outbound end, present or past: exactly the sent and not yet confirmed payloads are queued. */
  ghost predicate SourceView(s: LaneQueue, sent: seq<Payload>) {
    && s.data.latestReceivedNonce <= s.data.latestGeneratedNonce <= |sent| <= MAX_NONCE
    && s.data.oldestUnprunedNonce == SaturatingAdd(s.data.latestReceivedNonce, 1)
    && (forall n :: n in s.messages <==> s.data.latestReceivedNonce < n <= s.data.latestGeneratedNonce)
    && (forall n :: n in s.messages ==> s.messages[n] == sent[n - 1])
  }

  /** An inbound end, present or past: its queue encodes a stretch of the present delivery record. */
  ghost predicate TargetView(t: InboundLaneData, log: seq<Relayer>) {
    && t.lastConfirmedNonce <= t.LastDeliveredNonce() <= |log|
    && t.relayers == Encode(log, t.lastConfirmedNonce, t.LastDeliveredNonce())
  }

  /** Every dispatched message is the message sent under that nonce, in order, once. */
  ghost predicate DispatchedInOrder(dispatched: seq<Message>, sent: seq<Payload>) {
    && |dispatched| <= |sent|
    && forall i :: 0 <= i < |dispatched| ==> dispatched[i] == Message(i + 1, sent[i])
  }

  ghost predicate SourcesDominated(w: World) {
    && |w.sourceHistory| > 0 && w.sourceHistory[|w.sourceHistory| - 1] == w.source
    && forall i :: 0 <= i < |w.sourceHistory| ==>
         && SourceView(w.sourceHistory[i], w.sent)
         && w.sourceHistory[i].data.latestReceivedNonce <= w.source.data.latestReceivedNonce
  }

  ghost predicate TargetsDominated(w: World) {
    && |w.targetHistory| > 0 && w.targetHistory[|w.targetHistory| - 1] == w.target
    && forall i :: 0 <= i < |w.targetHistory| ==>
         && TargetView(w.targetHistory[i], w.deliverers)
         && w.targetHistory[i].lastConfirmedNonce <= w.target.lastConfirmedNonce
  }

  /** Consecutive non-empty ranges from 1 up to `last`. */
  ghost predicate Tiles(ranges: seq<DeliveredMessages>, last: nat) {
    if ranges == [] then last == 0
    else
      var r := ranges[|ranges| - 1];
      r.begin >= 1 && r.begin <= r.end == last && Tiles(ranges[..|ranges| - 1], r.begin - 1)
  }

  ghost predicate RewardsExact(w: World) {
    && w.source.data.latestReceivedNonce <= |w.deliverers|
    && Tiles(w.confirmed, w.source.data.latestReceivedNonce)
    && forall x :: w.rewarded(x) == Delivered(w.deliverers, 0, w.source.data.latestReceivedNonce, x)
  }

  ghost predicate Inv(limits: Limits, w: World) {
    && w.source.data.latestGeneratedNonce == |w.sent|
    && w.target.state == Opened
    && Represents(w.target, w.deliverers, limits)
    && DispatchedInOrder(w.dispatched, w.sent)
    && |w.dispatched| == |w.deliverers|
    && w.target.lastConfirmedNonce <= w.source.data.latestReceivedNonce <= |w.deliverers|
    && SourcesDominated(w)
    && TargetsDominated(w)
    && (w.source.data.latestReceivedNonce < MAX_NONCE ==> RewardsExact(w))
  }

  // ---- Views survive growth ------------------------------------------------------------------

  lemma TargetViewExtended(t: InboundLaneData, log: seq<Relayer>, more: seq<Relayer>)
    requires TargetView(t, log)
    ensures TargetView(t, log + more)
  {
    EncodeExtended(log, more, t.lastConfirmedNonce, t.LastDeliveredNonce());
  }

  lemma RepresentsIsView(d: InboundLaneData, log: seq<Relayer>, limits: Limits)
    requires Represents(d, log, limits)
    ensures TargetView(d, log) && d.LastDeliveredNonce() == |log|
  {
    RepresentsLastDelivered(d, log, limits);
  }

  /**
    The delivery loop appends its relayer once per dispatched message, and dispatches consecutive nonces of the batch.
   */
  lemma {:induction false} BatchRepresents(d: InboundLaneData, log: seq<Relayer>, limits: Limits, relayer: Relayer,
                                           messages: seq<Message>, dispatcher: Dispatcher, weight: Weight)
    requires Represents(d, log, limits)
    requires Batch(d, limits, relayer, messages, dispatcher, weight).Ok?
    ensures var s := Batch(d, limits, relayer, messages, dispatcher, weight).value;
            && Represents(s.data, log + Copies(relayer, |s.dispatched|), limits)
            && s.data.lastConfirmedNonce == d.lastConfirmedNonce && s.data.state == d.state
            && |Copies(relayer, |s.dispatched|)| == |s.dispatched|
            && forall j :: 0 <= j < |s.dispatched| ==>
                 s.dispatched[j] in messages && s.dispatched[j].nonce == |log| + 1 + j
  {
    if messages == [] {
      assert log + Copies(relayer, 0) == log;
    } else {
      var init, m := messages[..|messages| - 1], messages[|messages| - 1];
      BatchRepresents(d, log, limits, relayer, init, dispatcher, weight);
      var s := Batch(d, limits, relayer, init, dispatcher, weight).value;
      var soFar := log + Copies(relayer, |s.dispatched|);
      ReceivedRepresents(s.data, soFar, limits, relayer, m.nonce);
      assert soFar + [relayer] == log + Copies(relayer, |s.dispatched| + 1);
      assert forall x :: x in init ==> x in messages;
    }
  }

  // ---- Each step keeps the invariant ---------------------------------------------------------

  lemma SourceViewExtended(s: LaneQueue, sent: seq<Payload>, payload: Payload)
    requires SourceView(s, sent) && |sent| < MAX_NONCE
    ensures SourceView(s, sent + [payload])
  {
  }

  lemma SendKeepsView(s: LaneQueue, sent: seq<Payload>, payload: Payload)
    requires SourceView(s, sent) && s.data.latestGeneratedNonce == |sent| < MAX_NONCE
    ensures SourceView(ApplyStep(s, Send(payload)), sent + [payload])
  {
  }

  lemma SendKeepsSources(w: World, v: World, payload: Payload)
    requires SourcesDominated(w) && w.source.data.latestGeneratedNonce == |w.sent| < MAX_NONCE
    requires v.source == ApplyStep(w.source, Send(payload)) && v.sourceHistory == w.sourceHistory + [v.source]
    requires v.sent == w.sent + [payload]
    ensures SourcesDominated(v)
  {
    SendKeepsView(w.source, w.sent, payload);
    forall i | 0 <= i < |w.sourceHistory| ensures SourceView(w.sourceHistory[i], v.sent) {
      SourceViewExtended(w.sourceHistory[i], w.sent, payload);
    }
  }

  lemma SendKeepsInv(limits: Limits, w: World, step: Step)
    requires Inv(limits, w) && step.SendMessage?
    ensures Inv(limits, Apply(limits, w, step))
  {
    var v := Apply(limits, w, step);
    if v != w {
      SendKeepsSources(w, v, step.payload);
      assert DispatchedInOrder(w.dispatched, v.sent);
      assert TargetsDominated(v);
      assert RewardsExact(w) ==> RewardsExact(v);
    }
  }

  ghost predicate WereSent(messages: seq<Message>, sent: seq<Payload>) {
    forall m :: m in messages ==> 1 <= m.nonce <= |sent| && m.payload == sent[m.nonce - 1]
  }

  /** Everything a verified messages proof carries agrees with the send log. */
  lemma ProvedMessagesWereSent(limits: Limits, w: World, step: Step)
    requires Inv(limits, w) && step.DeliverMessages?
    requires Verification(CallOf(w, step).proof, step.count).Ok?
    ensures var proved := Verification(CallOf(w, step).proof, step.count).value;
            && WereSent(proved.messages, w.sent)
            && (proved.laneState.Some? ==>
                  proved.laneState.value.latestReceivedNonce <= w.source.data.latestReceivedNonce)
  {
    var p := CallOf(w, step).proof;
    var proved := Verification(p, step.count).value;
    ReadMessagesYields(p, step.count);
    assert SourceView(p.snapshot.value, w.sent);
    forall m | m in proved.messages ensures 1 <= m.nonce <= |w.sent| && m.payload == w.sent[m.nonce - 1] {
      var i :| 0 <= i < |proved.messages| && proved.messages[i] == m;
      assert m.nonce in p.snapshot.value.messages;
    }
  }

  /** A state update and then the delivery loop: the record grows by the relayer, once per dispatched message. */
  lemma UpdateAndBatchRepresent(d: InboundLaneData, log: seq<Relayer>, limits: Limits, relayer: Relayer,
                                proved: ProvedMessages,
                                dispatcher: Dispatcher, weight: Weight, received: nat)
    requires Represents(d, log, limits) && d.lastConfirmedNonce <= received
    requires proved.laneState.Some? ==> proved.laneState.value.latestReceivedNonce <= received
    requires Batch(Updated(d, proved), limits, relayer, proved.messages, dispatcher, weight).Ok?
    ensures var s := Batch(Updated(d, proved), limits, relayer, proved.messages, dispatcher, weight).value;
            && Represents(s.data, log + Copies(relayer, |s.dispatched|), limits) && s.data.state == d.state
            && d.lastConfirmedNonce <= s.data.lastConfirmedNonce <= received
            && |Copies(relayer, |s.dispatched|)| == |s.dispatched|
            && forall j :: 0 <= j < |s.dispatched| ==>
                 s.dispatched[j] in proved.messages && s.dispatched[j].nonce == |log| + 1 + j
  {
    if proved.laneState.Some? {
      StateUpdatedRepresents(d, log, limits, proved.laneState.value.latestReceivedNonce);
    }
    BatchRepresents(Updated(d, proved), log, limits, relayer, proved.messages, dispatcher, weight);
  }

  /** The dispatched messages continue the delivered ones, and were sent. */
  ghost predicate Continues(dispatched: seq<Message>, delivered: nat, sent: seq<Payload>) {
    forall j :: 0 <= j < |dispatched| ==>
      var m := dispatched[j];
      m.nonce == delivered + 1 + j <= |sent| && m.payload == sent[m.nonce - 1]
  }

  lemma DeliveryGrowsRecord(d: InboundLaneData, log: seq<Relayer>, sent: seq<Payload>, limits: Limits,
                            mode: OperatingMode, call: DeliveryCall, dispatcher: Dispatcher, received: nat)
    requires Represents(d, log, limits) && d.lastConfirmedNonce <= received
    requires Delivery(mode, Some(d), limits, call, dispatcher).Ok?
    requires var proved := Verification(call.proof, call.messagesCount).value;
             && WereSent(proved.messages, sent)
             && (proved.laneState.Some? ==> proved.laneState.value.latestReceivedNonce <= received)
    ensures var s := Delivery(mode, Some(d), limits, call, dispatcher).value;
            && Represents(s.data, log + Copies(call.relayer, |s.dispatched|), limits) && s.data.state == d.state
            && d.lastConfirmedNonce <= s.data.lastConfirmedNonce <= received
            && |Copies(call.relayer, |s.dispatched|)| == |s.dispatched|
            && Continues(s.dispatched, |log|, sent)
  {
    var proved := Verification(call.proof, call.messagesCount).value;
    var s := Delivery(mode, Some(d), limits, call, dispatcher).value;
    UpdateAndBatchRepresent(d, log, limits, call.relayer, proved, dispatcher, call.dispatchWeight, received);
    SentInOrder(proved.messages, s.dispatched, |log|, sent);
  }

  lemma SentInOrder(messages: seq<Message>, dispatched: seq<Message>, delivered: nat, sent: seq<Payload>)
    requires WereSent(messages, sent)
    requires forall j :: 0 <= j < |dispatched| ==>
               dispatched[j] in messages && dispatched[j].nonce == delivered + 1 + j
    ensures Continues(dispatched, delivered, sent)
  {
    forall j | 0 <= j < |dispatched|
      ensures var m := dispatched[j];
              m.nonce == delivered + 1 + j <= |sent| && m.payload == sent[m.nonce - 1]
    {
      assert dispatched[j] in messages;
    }
  }

  lemma DispatchedExtended(dispatched: seq<Message>, more: seq<Message>, sent: seq<Payload>)
    requires DispatchedInOrder(dispatched, sent) && Continues(more, |dispatched|, sent)
    ensures DispatchedInOrder(dispatched + more, sent)
  {
    if more != [] { assert more[|more| - 1].nonce <= |sent|; }
  }

  lemma RewardsExtended(w: World, v: World, more: seq<Relayer>)
    requires RewardsExact(w) && v.deliverers == w.deliverers + more
    requires v.source == w.source && v.confirmed == w.confirmed && v.rewarded == w.rewarded
    ensures RewardsExact(v)
  {
    var received := w.source.data.latestReceivedNonce;
    forall x ensures Delivered(v.deliverers, 0, received, x) == Delivered(w.deliverers, 0, received, x) {
      DeliveredExtended(w.deliverers, more, 0, received, x);
    }
  }

  lemma TargetsExtended(w: World, v: World, t: InboundLaneData, more: seq<Relayer>)
    requires TargetsDominated(w) && v.deliverers == w.deliverers + more
    requires v.target == t && v.targetHistory == w.targetHistory + [t]
    requires TargetView(t, v.deliverers) && w.target.lastConfirmedNonce <= t.lastConfirmedNonce
    ensures TargetsDominated(v)
  {
    forall i | 0 <= i < |w.targetHistory| ensures TargetView(w.targetHistory[i], v.deliverers) {
      TargetViewExtended(w.targetHistory[i], w.deliverers, more);
    }
  }

  lemma DeliverKeepsInv(limits: Limits, w: World, step: Step)
    requires Inv(limits, w) && step.DeliverMessages?
    ensures Inv(limits, Apply(limits, w, step))
  {
    var call := CallOf(w, step);
    var outcome := Delivery(step.mode, Some(w.target), limits, call, step.dispatcher);
    if outcome.Ok? {
      ProvedMessagesWereSent(limits, w, step);
      DeliveryGrowsRecord(w.target, w.deliverers, w.sent, limits, step.mode, call, step.dispatcher,
                          w.source.data.latestReceivedNonce);
      DeliveredKeepsInv(limits, w, Apply(limits, w, step), outcome.value, step.relayer);
    }
  }

  lemma DeliveredKeepsInv(limits: Limits, w: World, v: World, s: BatchState, relayer: Relayer)
    requires Inv(limits, w)
    requires v == w.(target := s.data, targetHistory := w.targetHistory + [s.data],
                     dispatched := w.dispatched + s.dispatched,
                     deliverers := w.deliverers + Copies(relayer, |s.dispatched|))
    requires Represents(s.data, v.deliverers, limits) && s.data.state == Opened
    requires |Copies(relayer, |s.dispatched|)| == |s.dispatched|
    requires w.target.lastConfirmedNonce <= s.data.lastConfirmedNonce <= w.source.data.latestReceivedNonce
    requires Continues(s.dispatched, |w.deliverers|, w.sent)
    ensures Inv(limits, v)
  {
    var more := Copies(relayer, |s.dispatched|);
    RepresentsIsView(s.data, v.deliverers, limits);
    TargetsExtended(w, v, s.data, more);
    DispatchedExtended(w.dispatched, s.dispatched, w.sent);
    if w.source.data.latestReceivedNonce < MAX_NONCE { RewardsExtended(w, v, more); }
  }

  /** The outcome of confirming a proved snapshot, in terms of nonces alone. */
  function ExpectedConfirmation(received: nat, t: InboundLaneData)
    : Result<Option<DeliveredMessages>, ReceptionConfirmationError>
  {
    if received < MAX_NONCE then
      if received >= t.LastDeliveredNonce() then Ok(None)
      else Ok(Some(DeliveredMessages(received + 1, t.LastDeliveredNonce())))
    else if t.LastDeliveredNonce() < MAX_NONCE then Ok(None)
    else if t.relayers == [] then Err(TryingToConfirmMoreMessagesThanExpected)
    else Ok(Some(DeliveredMessages(MAX_NONCE, MAX_NONCE)))
  }

  lemma ConfirmationOfSnapshot(limits: Limits, w: World, t: InboundLaneData)
    requires Inv(limits, w) && t in w.targetHistory
    ensures t.LastDeliveredNonce() <= |w.deliverers| <= |w.sent| <= MAX_NONCE
    ensures Confirmation(w.source.data, t.UnrewardedState().totalMessages, t.LastDeliveredNonce(), t.relayers)
         == ExpectedConfirmation(w.source.data.latestReceivedNonce, t)
  {
    EncodeIsCanonical(w.deliverers, t.lastConfirmedNonce, t.LastDeliveredNonce());
    EncodedQueueIsCorrect(w.deliverers, t.lastConfirmedNonce, t.LastDeliveredNonce());
  }

  lemma ConfirmKeepsInv(limits: Limits, w: World, step: Step)
    requires Inv(limits, w) && step.ConfirmMessages?
    ensures Inv(limits, Apply(limits, w, step))
  {
    var proof := ProofOf(w, step);
    var r := ConfirmationCall(step.mode, Some(w.source.data), proof, step.declared);
    if r.Ok? && r.value.Some? {
      var t, v := proof.value, Apply(limits, w, step);
      ConfirmationOfSnapshot(limits, w, t);
      ConfirmKeepsSources(w, v, r.value.value);
      if w.source.data.latestReceivedNonce < MAX_NONCE {
        RewardsStayExact(limits, w, t, v);
      }
    }
  }

  lemma ConfirmKeepsSources(w: World, v: World, range: DeliveredMessages)
    requires SourcesDominated(w) && v.sent == w.sent && range.end <= w.source.data.latestGeneratedNonce
    requires range.begin == SaturatingAdd(w.source.data.latestReceivedNonce, 1) <= range.end
    requires v.source == LaneQueue(ConfirmedUpTo(w.source.data, range.end),
                                   WithoutNonces(w.source.messages, range.begin, range.end))
    requires v.sourceHistory == w.sourceHistory + [v.source]
    ensures SourcesDominated(v)
  {
    ConfirmedViewKept(w.source, w.sent, range);
  }

  lemma ConfirmedViewKept(s: LaneQueue, sent: seq<Payload>, range: DeliveredMessages)
    requires SourceView(s, sent) && range.end <= s.data.latestGeneratedNonce
    requires range.begin == SaturatingAdd(s.data.latestReceivedNonce, 1) <= range.end
    ensures var left := WithoutNonces(s.messages, range.begin, range.end);
            SourceView(LaneQueue(ConfirmedUpTo(s.data, range.end), left), sent)
  {
  }

  lemma RewardsStayExact(limits: Limits, w: World, t: InboundLaneData, v: World)
    requires Inv(limits, w) && t in w.targetHistory
    requires w.source.data.latestReceivedNonce < t.LastDeliveredNonce()
    requires v.source.data.latestReceivedNonce == t.LastDeliveredNonce() && v.deliverers == w.deliverers
    requires v.confirmed ==
             w.confirmed + [DeliveredMessages(w.source.data.latestReceivedNonce + 1, t.LastDeliveredNonce())]
    requires w.source.data.latestReceivedNonce < MAX_NONCE
    requires forall x :: v.rewarded(x) ==
               w.rewarded(x) + RewardOf(t.relayers, w.source.data.latestReceivedNonce + 1, t.LastDeliveredNonce(), x)
    ensures RewardsExact(v)
  {
    var from, to := w.source.data.latestReceivedNonce, t.LastDeliveredNonce();
    assert TargetView(t, w.deliverers) && t.lastConfirmedNonce <= w.target.lastConfirmedNonce;
    forall x ensures v.rewarded(x) == Delivered(v.deliverers, 0, to, x) {
      RewardAdded(w.deliverers, t, from, x);
    }
    assert v.confirmed[..|v.confirmed| - 1] == w.confirmed;
  }

  /** What a relayer gets for the nonces from + 1 up to the last delivered one completes its share. */
  lemma RewardAdded(log: seq<Relayer>, t: InboundLaneData, from: nat, x: Relayer)
    requires TargetView(t, log) && t.lastConfirmedNonce <= from < t.LastDeliveredNonce()
    ensures Delivered(log, 0, from, x) + RewardOf(t.relayers, from + 1, t.LastDeliveredNonce(), x)
         == Delivered(log, 0, t.LastDeliveredNonce(), x)
  {
    var to := t.LastDeliveredNonce();
    RewardsCountDeliveries(log, t.lastConfirmedNonce, to, from + 1, to, x);
    DeliveredSplit(log, 0, from, to, x);
  }

  lemma StepKeepsInv(limits: Limits, w: World, step: Step)
    requires Inv(limits, w)
    ensures Inv(limits, Apply(limits, w, step))
  {
    match step
    case SendMessage(_, _) => SendKeepsInv(limits, w, step);
    case DeliverMessages(_, _, _, _, _, _, _, _, _, _, _) => DeliverKeepsInv(limits, w, step);
    case ConfirmMessages(_, _, _) => ConfirmKeepsInv(limits, w, step);
  }

  /** Every reachable state satisfies the invariant, whatever the relayers do. */
  lemma {:induction false} ReachableInv(limits: Limits, steps: seq<Step>)
    ensures Inv(limits, ApplyAll(limits, GENESIS, steps))
  {
    if steps != [] {
      ReachableInv(limits, steps[..|steps| - 1]);
      StepKeepsInv(limits, ApplyAll(limits, GENESIS, steps[..|steps| - 1]), steps[|steps| - 1]);
    }
  }

  // ---- Safety of every run -------------------------------------------------------------------

  /** Messages are dispatched in order, each once, with the payload sent under their nonce. */
  lemma {:induction false} DispatchLogIsPrefixOfSendLog(limits: Limits, steps: seq<Step>)
    ensures var w := ApplyAll(limits, GENESIS, steps);
            && |w.dispatched| <= |w.sent|
            && forall i :: 0 <= i < |w.dispatched| ==> w.dispatched[i] == Message(i + 1, w.sent[i])
  {
    ReachableInv(limits, steps);
  }

  /**
    The nonces of the two ends are ordered, and every past snapshot is behind the present: no source
    snapshot reports more received messages than the target has delivered.
   */
  lemma {:induction false} NoncesStayOrdered(limits: Limits, steps: seq<Step>)
    ensures var w := ApplyAll(limits, GENESIS, steps);
            && w.target.lastConfirmedNonce <= w.source.data.latestReceivedNonce
            && w.source.data.latestReceivedNonce <= w.target.LastDeliveredNonce()
            && w.target.LastDeliveredNonce() <= w.source.data.latestGeneratedNonce
            && w.target.LastDeliveredNonce() == |w.dispatched| && w.source.data.latestGeneratedNonce == |w.sent|
            && (forall i :: 0 <= i < |w.sourceHistory| ==>
                  && w.sourceHistory[i].data.latestReceivedNonce <= w.source.data.latestReceivedNonce
                  && w.sourceHistory[i].data.latestGeneratedNonce <= w.source.data.latestGeneratedNonce)
            && (forall i :: 0 <= i < |w.targetHistory| ==>
                  && w.targetHistory[i].lastConfirmedNonce <= w.target.lastConfirmedNonce
                  && w.targetHistory[i].LastDeliveredNonce() <= w.target.LastDeliveredNonce())
  {
    ReachableInv(limits, steps);
    var w := ApplyAll(limits, GENESIS, steps);
    RepresentsLastDelivered(w.target, w.deliverers, limits);
    forall i | 0 <= i < |w.sourceHistory|
      ensures w.sourceHistory[i].data.latestGeneratedNonce <= w.source.data.latestGeneratedNonce
    {
      assert SourceView(w.sourceHistory[i], w.sent);
    }
    forall i | 0 <= i < |w.targetHistory|
      ensures w.targetHistory[i].LastDeliveredNonce() <= w.target.LastDeliveredNonce()
    {
      assert TargetView(w.targetHistory[i], w.deliverers);
    }
  }

  /**
    Confirming any snapshot of the inbound end, stale or not, never fails while nonces last; it fails
    exactly when nonce 2^64 - 1 is already confirmed here and the snapshot says so too.
   */
  lemma {:induction false} ConfirmationFailsIffNoncesExhausted(limits: Limits, steps: seq<Step>, header: nat)
    requires header < |ApplyAll(limits, GENESIS, steps).targetHistory|
    ensures var w := ApplyAll(limits, GENESIS, steps);
            var t := w.targetHistory[header];
            ConfirmationCall(Normal, Some(w.source.data), Some(t), t.UnrewardedState()).Err? <==>
              w.source.data.latestReceivedNonce == MAX_NONCE && t.relayers == [] && t.lastConfirmedNonce == MAX_NONCE
  {
    ReachableInv(limits, steps);
    var w := ApplyAll(limits, GENESIS, steps);
    ConfirmationOfSnapshot(limits, w, w.targetHistory[header]);
  }

  /**
    While nonces last, confirmed ranges tile 1..=latest received, and each relayer is rewarded once per confirmed
    nonce it delivered.
   */
  lemma {:induction false} RewardsAreExact(limits: Limits, steps: seq<Step>)
    requires ApplyAll(limits, GENESIS, steps).source.data.latestReceivedNonce < MAX_NONCE
    ensures var w := ApplyAll(limits, GENESIS, steps);
            && w.source.data.latestReceivedNonce <= |w.deliverers| == |w.dispatched|
            && Tiles(w.confirmed, w.source.data.latestReceivedNonce)
            && forall x :: w.rewarded(x) == Delivered(w.deliverers, 0, w.source.data.latestReceivedNonce, x)
  {
    ReachableInv(limits, steps);
  }

  /**
    Whatever snapshot of the inbound end is proved, each of its unconfirmed nonces lies in exactly one entry
    of the queue, and that entry names the relayer who delivered the nonce.
   */
  lemma EachNonceHasItsRelayer(limits: Limits, steps: seq<Step>, header: nat, nonce: nat) returns (i: nat)
    requires header < |ApplyAll(limits, GENESIS, steps).targetHistory|
    requires var t := ApplyAll(limits, GENESIS, steps).targetHistory[header];
             t.lastConfirmedNonce < nonce <= t.LastDeliveredNonce()
    ensures var w := ApplyAll(limits, GENESIS, steps);
            var q := w.targetHistory[header].relayers;
            && i < |q| && q[i].messages.Contains(nonce)
            && nonce <= |w.deliverers| && q[i].relayer == w.deliverers[nonce - 1]
            && forall j: nat :: j < |q| && q[j].messages.Contains(nonce) ==> j == i
  {
    ReachableInv(limits, steps);
    var w := ApplyAll(limits, GENESIS, steps);
    assert TargetView(w.targetHistory[header], w.deliverers);
    i := EntryOf(w.targetHistory[header], w.deliverers, nonce);
  }

  lemma EntryOf(t: InboundLaneData, log: seq<Relayer>, nonce: nat) returns (i: nat)
    requires TargetView(t, log) && t.lastConfirmedNonce < nonce <= t.LastDeliveredNonce()
    ensures i < |t.relayers| && t.relayers[i].messages.Contains(nonce)
    ensures nonce <= |log| && t.relayers[i].relayer == log[nonce - 1]
    ensures forall j: nat :: j < |t.relayers| && t.relayers[j].messages.Contains(nonce) ==> j == i
  {
    EncodeIsCanonical(log, t.lastConfirmedNonce, t.LastDeliveredNonce());
    EncodeIsTruthful(log, t.lastConfirmedNonce, t.LastDeliveredNonce());
    i := CoveredOnce(t.lastConfirmedNonce + 1, t.relayers, nonce);
  }

  /**
    Whatever snapshot of the inbound end is proved, the declared relayers state is accepted if and only if it
    summarizes who delivered the unconfirmed nonces of that snapshot.
   */
  lemma DeclarationAcceptedIff(limits: Limits, steps: seq<Step>, header: nat, declared: UnrewardedRelayersState)
    requires header < |ApplyAll(limits, GENESIS, steps).targetHistory|
    ensures var w := ApplyAll(limits, GENESIS, steps);
            var t := w.targetHistory[header];
            var r := ConfirmationCall(Normal, Some(w.source.data), Some(t), declared);
            && t.lastConfirmedNonce <= t.LastDeliveredNonce() <= |w.deliverers|
            && (r != Err(InvalidUnrewardedRelayersState) <==>
                Summarizes(declared, w.deliverers, t.lastConfirmedNonce, t.LastDeliveredNonce()))
  {
    ReachableInv(limits, steps);
    var w := ApplyAll(limits, GENESIS, steps);
    var t := w.targetHistory[header];
    assert TargetView(t, w.deliverers) && SourceView(w.source, w.sent);
    StateIsSummaryIff(t, w.deliverers, t.LastDeliveredNonce(), declared);
  }

  /** Every nonce that a confirmation newly confirms is an unconfirmed nonce of the proved snapshot. */
  lemma ConfirmedRangeIsInSnapshot(limits: Limits, steps: seq<Step>, header: nat)
    requires header < |ApplyAll(limits, GENESIS, steps).targetHistory|
    ensures var w := ApplyAll(limits, GENESIS, steps);
            var t := w.targetHistory[header];
            var r := ConfirmationCall(Normal, Some(w.source.data), Some(t), t.UnrewardedState());
            r.Ok? && r.value.Some? ==>
              t.lastConfirmedNonce < r.value.value.begin <= r.value.value.end == t.LastDeliveredNonce()
  {
    ReachableInv(limits, steps);
    var w := ApplyAll(limits, GENESIS, steps);
    var t := w.targetHistory[header];
    ConfirmationOfSnapshot(limits, w, t);
    assert TargetView(t, w.deliverers) && t.lastConfirmedNonce <= w.target.lastConfirmedNonce;
    EncodeIsCanonical(w.deliverers, t.lastConfirmedNonce, t.LastDeliveredNonce());
  }

  /** Confirming the same snapshot again confirms nothing new, exactly while nonces last. */
  lemma SecondConfirmationIsEmptyIffNoncesLast(d: OutboundLaneData, maxAllowed: nat, delivered: nat, q: RelayersQueue)
    requires delivered <= MAX_NONCE
    requires Confirmation(d, maxAllowed, delivered, q).Ok? && Confirmation(d, maxAllowed, delivered, q).value.Some?
    ensures Confirmation(ConfirmedUpTo(d, delivered), maxAllowed, delivered, q) == Ok(None) <==> delivered < MAX_NONCE
  {
  }

  /** Exactly the undelivered-or-unconfirmed messages are queued, with the payloads that were sent. */
  lemma {:induction false} PruningLosesNothing(limits: Limits, steps: seq<Step>)
    ensures var w := ApplyAll(limits, GENESIS, steps);
            && (forall n :: n in w.source.messages <==> w.source.data.latestReceivedNonce < n <= |w.sent|)
            && (forall n :: n in w.source.messages ==> w.source.messages[n] == w.sent[n - 1])
            && (forall n :: |w.dispatched| < n <= |w.sent| ==> n in w.source.messages)
  {
    ReachableInv(limits, steps);
    var w := ApplyAll(limits, GENESIS, steps);
    assert SourceView(w.source, w.sent);
  }

  /** The relayers queue is always the run-length encoding of the unconfirmed deliveries, within both limits. */
  lemma {:induction false} QueueEncodesDeliveries(limits: Limits, steps: seq<Step>)
    ensures var w := ApplyAll(limits, GENESIS, steps);
            && Canonical(w.target.lastConfirmedNonce + 1, w.target.relayers)
            && Truthful(w.target.relayers, w.deliverers)
            && Next(w.target.lastConfirmedNonce + 1, w.target.relayers) == |w.dispatched| + 1
            && |w.target.relayers| <= limits.maxUnrewardedRelayers
            && |w.dispatched| - w.target.lastConfirmedNonce <= limits.maxUnconfirmedMessages
  {
    ReachableInv(limits, steps);
    var w := ApplyAll(limits, GENESIS, steps);
    RepresentingQueue(w.target, w.deliverers, limits);
  }

  lemma RepresentingQueue(d: InboundLaneData, log: seq<Relayer>, limits: Limits)
    requires Represents(d, log, limits)
    ensures Canonical(d.lastConfirmedNonce + 1, d.relayers) && Truthful(d.relayers, log)
    ensures Next(d.lastConfirmedNonce + 1, d.relayers) == |log| + 1
  {
    EncodeIsCanonical(log, d.lastConfirmedNonce, |log|);
    EncodeIsTruthful(log, d.lastConfirmedNonce, |log|);
  }

  // ---- Progress ------------------------------------------------------------------------------

  function ConfirmCurrent(w: World): Step {
    ConfirmMessages(Normal, SaturatingSub(|w.targetHistory|, 1), w.target.UnrewardedState())
  }

  function DeliverStateOnly(w: World, relayer: Relayer, dispatcher: Dispatcher): Step {
    DeliverMessages(Normal, relayer, SaturatingSub(|w.sourceHistory|, 1), 1, 0, 0, {}, true, false,
                    ZERO_WEIGHT, dispatcher)
  }

  function DeliverNext(w: World, relayer: Relayer, dispatcher: Dispatcher): Step
    requires |w.dispatched| < |w.sent|
  {
    var nonce := |w.dispatched| + 1;
    DeliverMessages(Normal, relayer, SaturatingSub(|w.sourceHistory|, 1), nonce, nonce, 1, {nonce}, false, false,
                    dispatcher.weight(w.sent[nonce - 1]), dispatcher)
  }

  /** Confirming the present inbound end brings the source up to date. */
  lemma HonestConfirmation(limits: Limits, w: World)
    requires Inv(limits, w)
    ensures var v := Apply(limits, w, ConfirmCurrent(w));
            && v.source.data.latestReceivedNonce == |w.dispatched|
            && v.target == w.target && v.dispatched == w.dispatched && v.sent == w.sent
  {
    RepresentsLastDelivered(w.target, w.deliverers, limits);
    ConfirmationOfSnapshot(limits, w, w.target);
  }

  /** Two honest steps, a confirmation and then a proof of the outbound state, empty the relayers queue. */
  lemma TwoHonestStepsEmptyTheQueue(limits: Limits, w: World, relayer: Relayer, dispatcher: Dispatcher)
    requires Inv(limits, w) && dispatcher.active
    ensures var v := Apply(limits, w, ConfirmCurrent(w));
            var u := Apply(limits, v, DeliverStateOnly(v, relayer, dispatcher));
            && u.target.relayers == [] && u.target.lastConfirmedNonce == |w.dispatched|
            && u.dispatched == w.dispatched && u.sent == w.sent
  {
    var v := Apply(limits, w, ConfirmCurrent(w));
    HonestConfirmation(limits, w);
    StepKeepsInv(limits, w, ConfirmCurrent(w));
    var step := DeliverStateOnly(v, relayer, dispatcher);
    var d, all := w.target, |w.deliverers|;
    RepresentsLastDelivered(d, w.deliverers, limits);
    assert Delivery(Normal, Some(v.target), limits, CallOf(v, step), dispatcher) ==
      Ok(NewBatch(StateUpdated(d, all), ZERO_WEIGHT));
    PrunedDropsPrefix(w.deliverers, d.lastConfirmedNonce, all, all);
    assert Encode(w.deliverers, all, all) == [];
  }

  /** A proof of one queued message at the present header verifies. */
  lemma SingleMessageProof(p: MessagesProof, nonce: nat, payload: Payload)
    requires p.snapshot.Some? && p.noncesStart == p.noncesEnd == nonce && p.coveredMessages == {nonce}
    requires !p.coversLaneState && !p.hasOtherNodes
    requires nonce in p.snapshot.value.messages && p.snapshot.value.messages[nonce] == payload
    ensures Verification(p, 1) == Ok(ProvedMessages(None, [Message(nonce, payload)]))
  {
    assert ReadMessages(p, 0) == Ok([]) && ReadMessage(p, nonce + 1 - 1) == Ok(Message(nonce, payload));
    assert [] + [Message(nonce, payload)] == [Message(nonce, payload)];
    assert ReadMessages(p, 1) == Ok([Message(nonce, payload)]);
    assert !HasUnusedNodes(p);
  }

  lemma SingleMessageBatch(d: InboundLaneData, limits: Limits, relayer: Relayer, m: Message, dispatcher: Dispatcher)
    requires d.relayers == [] && m.nonce == d.lastConfirmedNonce + 1 <= MAX_NONCE
    requires limits.maxUnrewardedRelayers >= 1 && limits.maxUnconfirmedMessages >= 1
    ensures var r := Batch(d, limits, relayer, [m], dispatcher, dispatcher.weight(m.payload));
            r.Ok? && r.value.dispatched == [m]
  {
    var weight := dispatcher.weight(m.payload);
    assert [m][..0] == [];
    assert Batch(d, limits, relayer, [], dispatcher, weight) == Ok(NewBatch(d, weight));
    assert Refusal(d, limits, m.nonce).None?;
  }

  /** With an empty queue and non-zero limits, the next message gets through. */
  lemma HonestDelivery(limits: Limits, w: World, relayer: Relayer, dispatcher: Dispatcher)
    requires Inv(limits, w) && dispatcher.active && |w.dispatched| < |w.sent|
    requires w.target.relayers == [] && w.target.lastConfirmedNonce == |w.dispatched|
    requires limits.maxUnrewardedRelayers >= 1 && limits.maxUnconfirmedMessages >= 1
    ensures var v := Apply(limits, w, DeliverNext(w, relayer, dispatcher));
            v.sent == w.sent && |v.dispatched| == |w.dispatched| + 1
  {
    var step := DeliverNext(w, relayer, dispatcher);
    var m := Message(|w.dispatched| + 1, w.sent[|w.dispatched|]);
    assert SourceView(w.source, w.sent);
    SingleMessageProof(CallOf(w, step).proof, m.nonce, m.payload);
    SingleMessageBatch(w.target, limits, relayer, m, dispatcher);
  }

  /** No deadlock: from every reachable state, honest rounds deliver every message that was sent. */
  lemma {:induction false} EverythingGetsDelivered(limits: Limits, w: World, relayer: Relayer, dispatcher: Dispatcher)
    returns (steps: seq<Step>)
    requires Inv(limits, w) && dispatcher.active
    requires limits.maxUnrewardedRelayers >= 1 && limits.maxUnconfirmedMessages >= 1
    ensures ApplyAll(limits, w, steps).sent == w.sent
    ensures |ApplyAll(limits, w, steps).dispatched| == |w.sent|
    decreases |w.sent| - |w.dispatched|
  {
    if |w.dispatched| == |w.sent| {
      steps := [];
    } else {
      var a := ConfirmCurrent(w);
      var v := Apply(limits, w, a);
      var b := DeliverStateOnly(v, relayer, dispatcher);
      var u := Apply(limits, v, b);
      TwoHonestStepsEmptyTheQueue(limits, w, relayer, dispatcher);
      StepKeepsInv(limits, w, a);
      StepKeepsInv(limits, v, b);
      var c := DeliverNext(u, relayer, dispatcher);
      HonestDelivery(limits, u, relayer, dispatcher);
      StepKeepsInv(limits, u, c);
      var rest := EverythingGetsDelivered(limits, Apply(limits, u, c), relayer, dispatcher);
      ApplyAllPrepend(limits, u, c, rest);
      ApplyAllPrepend(limits, v, b, [c] + rest);
      ApplyAllPrepend(limits, w, a, [b] + ([c] + rest));
      steps := [a] + ([b] + ([c] + rest));
    }
  }

  lemma {:induction false} ApplyAllPrepend(limits: Limits, w: World, step: Step, rest: seq<Step>)
    ensures ApplyAll(limits, w, [step] + rest) == ApplyAll(limits, Apply(limits, w, step), rest)
  {
    if rest == [] {
      assert ([step] + rest)[..0] == [];
    } else {
      var init := rest[..|rest| - 1];
      ApplyAllPrepend(limits, w, step, init);
      assert ([step] + rest)[..|rest|] == [step] + init;
    }
  }

  /** From every reachable state, two honest steps empty the relayers queue and lose nothing. */
  lemma QueueCanAlwaysBeEmptied(limits: Limits, steps: seq<Step>, relayer: Relayer, dispatcher: Dispatcher)
    returns (more: seq<Step>)
    requires dispatcher.active
    ensures |more| == 2
    ensures var w := ApplyAll(limits, GENESIS, steps);
            var u := ApplyAll(limits, w, more);
            u.target.relayers == [] && u.dispatched == w.dispatched && u.sent == w.sent
  {
    var w := ApplyAll(limits, GENESIS, steps);
    ReachableInv(limits, steps);
    var a := ConfirmCurrent(w);
    var v := Apply(limits, w, a);
    var b := DeliverStateOnly(v, relayer, dispatcher);
    TwoHonestStepsEmptyTheQueue(limits, w, relayer, dispatcher);
    more := [a] + [b];
    ApplyAllPrepend(limits, w, a, [b]);
    assert [b][..0] == [];
    assert ApplyAll(limits, v, []) == v;
    assert ApplyAll(limits, v, [b]) == Apply(limits, v, b);
  }

  /** With a zero limit, nothing is ever delivered. */
  lemma {:induction false} ZeroLimitDeliversNothing(limits: Limits, w: World, steps: seq<Step>)
    requires Inv(limits, w) && w.dispatched == []
    requires limits.maxUnrewardedRelayers == 0 || limits.maxUnconfirmedMessages == 0
    ensures Inv(limits, ApplyAll(limits, w, steps)) && ApplyAll(limits, w, steps).dispatched == []
  {
    if steps != [] {
      var u := ApplyAll(limits, w, steps[..|steps| - 1]);
      ZeroLimitDeliversNothing(limits, w, steps[..|steps| - 1]);
      StepKeepsInv(limits, u, steps[|steps| - 1]);
      var v := Apply(limits, u, steps[|steps| - 1]);
      RepresentsLastDelivered(v.target, v.deliverers, limits);
      assert steps[|steps| - 1].DeliverMessages? ==> v.source == u.source;
    }
  }

  predicate DeliversAll(limits: Limits, w: World, more: seq<Step>) {
    var u := ApplyAll(limits, w, more);
    u.sent == w.sent && |u.dispatched| == |w.sent|
  }

  /** Some continuation delivers every message sent so far. */
  ghost predicate CanDeliverAll(limits: Limits, w: World) {
    exists more: seq<Step> :: DeliversAll(limits, w, more)
  }

  /** No reachable state is stuck with undelivered messages, exactly when both limits allow an entry. */
  lemma NoDeadlockIffLimitsAllow(limits: Limits, steps: seq<Step>, relayer: Relayer, dispatcher: Dispatcher)
    requires dispatcher.active
    ensures var w := ApplyAll(limits, GENESIS, steps);
            CanDeliverAll(limits, w) <==>
              w.sent == [] || (limits.maxUnrewardedRelayers >= 1 && limits.maxUnconfirmedMessages >= 1)
  {
    var w := ApplyAll(limits, GENESIS, steps);
    ReachableInv(limits, steps);
    if limits.maxUnrewardedRelayers >= 1 && limits.maxUnconfirmedMessages >= 1 {
      var more := EverythingGetsDelivered(limits, w, relayer, dispatcher);
      assert DeliversAll(limits, w, more);
    } else {
      ZeroLimitDeliversNothing(limits, GENESIS, steps);
      if w.sent == [] {
        assert DeliversAll(limits, w, []);
      } else if more: seq<Step> :| DeliversAll(limits, w, more) {
        ZeroLimitDeliversNothing(limits, w, more);
      }
    }
  }

  // ---- At the last nonce ---------------------------------------------------------------------

  /**
    Once nonce 2^64 - 1 is confirmed, confirming it again pays its relayer again, or fails when the queue was pruned.
   */
  lemma LastNonceIsConfirmedAgain(x: Relayer)
    ensures var d := OutboundLaneData(MAX_NONCE, MAX_NONCE, MAX_NONCE, Opened);
            var q := [UnrewardedRelayer(x, DeliveredMessages(MAX_NONCE, MAX_NONCE))];
            && Confirmation(d, 1, MAX_NONCE, q) == Ok(Some(DeliveredMessages(MAX_NONCE, MAX_NONCE)))
            && RewardOf(q, MAX_NONCE, MAX_NONCE, x) == 1
            && Confirmation(d, 0, MAX_NONCE, []) == Err(TryingToConfirmMoreMessagesThanExpected)
  {
    var q := [UnrewardedRelayer(x, DeliveredMessages(MAX_NONCE, MAX_NONCE))];
    assert FirstProblem(q, 1, MAX_NONCE).None?;
    assert FirstProblem(q, 0, MAX_NONCE).None?;
    assert q[..0] == [];
  }
}
