/** The delivery loop in closed form: how many messages of a batch get through, which, and at what weight. */
module BatchDelivery {
  import opened Wrappers
  import opened LaneTypes
  import opened LaneStorage
  import opened DeliveryRecord
  import opened InboundLanes
  import opened MessagesPallet

  ghost predicate Consecutive(messages: seq<Message>, first: nat) {
    forall i :: 0 <= i < |messages| ==> messages[i].nonce == first + i <= MAX_NONCE
  }

  /** How many nonces first, first + 1, ... of a batch continue the delivered ones. */
  function NewInBatch(d: InboundLaneData, first: nat, count: nat): nat {
    if first <= d.LastDeliveredNonce() + 1 then SaturatingSub(first + count, d.LastDeliveredNonce() + 1) else 0
  }

  predicate ContinuesLastEntry(d: InboundLaneData, relayer: Relayer) {
    d.relayers != [] && d.relayers[|d.relayers| - 1].relayer == relayer
  }

  /** How many of `wanted` messages the relayer slots let through: taking the last slot lets one message through. */
  function SlotsAllow(d: InboundLaneData, limits: Limits, relayer: Relayer, wanted: nat): nat {
    if |d.relayers| >= limits.maxUnrewardedRelayers then 0
    else if !ContinuesLastEntry(d, relayer) && |d.relayers| + 1 >= limits.maxUnrewardedRelayers then Min(1, wanted)
    else wanted
  }

  function Headroom(d: InboundLaneData, limits: Limits): nat {
    SaturatingSub(limits.maxUnconfirmedMessages, SaturatingSub(d.LastDeliveredNonce(), d.lastConfirmedNonce))
  }

  /** The number of messages of the batch that are dispatched. */
  function Accepted(d: InboundLaneData, limits: Limits, relayer: Relayer, first: nat, count: nat): nat {
    SlotsAllow(d, limits, relayer, Min(NewInBatch(d, first, count), Headroom(d, limits)))
  }

  /** What the lane looks like after k messages of the batch were accepted. */
  ghost predicate LaneAfter(d: InboundLaneData, relayer: Relayer, k: nat, after: InboundLaneData) {
    && after.LastDeliveredNonce() == d.LastDeliveredNonce() + k
    && after.lastConfirmedNonce == d.lastConfirmedNonce
    && (k == 0 ==> after == d)
    && (k > 0 ==>
          && ContinuesLastEntry(after, relayer)
          && |after.relayers| == |d.relayers| + if ContinuesLastEntry(d, relayer) then 0 else 1)
  }

  /** Why the message with this nonce was refused by a loop that accepted k messages. */
  function RefusalReason(d: InboundLaneData, limits: Limits, after: InboundLaneData, k: nat, nonce: nat): Rejection {
    if nonce != d.LastDeliveredNonce() + k + 1 then InvalidNonce
    else if |after.relayers| >= limits.maxUnrewardedRelayers then TooManyUnrewardedRelayers
    else TooManyUnconfirmedMessages
  }

  ghost predicate ResultsAre(d: InboundLaneData, limits: Limits, first: nat, k: nat, s: BatchState) {
    forall i :: 0 <= i < |s.results| ==>
      if d.LastDeliveredNonce() < first + i <= d.LastDeliveredNonce() + k then s.results[i].Dispatched?
      else s.results[i] == Rejected(RefusalReason(d, limits, s.data, k, first + i))
  }

  /** The dispatched messages are the k messages right after the last delivered nonce. */
  ghost predicate DispatchedAre(d: InboundLaneData, messages: seq<Message>, first: nat, k: nat, s: BatchState) {
    && |s.dispatched| == k
    && (k > 0 ==> first <= d.LastDeliveredNonce() + 1 && d.LastDeliveredNonce() + k < first + |messages|)
    && forall j :: 0 <= j < k ==> s.dispatched[j] == messages[d.LastDeliveredNonce() + 1 - first + j]
  }

  /** The closed form of the delivery loop. */
  lemma {:induction false} BatchClosedForm(
      d: InboundLaneData, limits: Limits, relayer: Relayer, messages: seq<Message>, first: nat,
      dispatcher: Dispatcher, weight: Weight)
    requires Consecutive(messages, first) && d.lastConfirmedNonce <= d.LastDeliveredNonce()
    requires Batch(d, limits, relayer, messages, dispatcher, weight).Ok?
    ensures var s := Batch(d, limits, relayer, messages, dispatcher, weight).value;
            var k := Accepted(d, limits, relayer, first, |messages|);
            && LaneAfter(d, relayer, k, s.data)
            && |s.results| == |messages|
            && ResultsAre(d, limits, first, k, s)
            && DispatchedAre(d, messages, first, k, s)
  {
    if messages == [] {
    } else {
      var init := messages[..|messages| - 1];
      assert Consecutive(init, first);
      BatchClosedForm(d, limits, relayer, init, first, dispatcher, weight);
      ClosedFormStep(d, limits, relayer, messages, first, dispatcher,
                     Batch(d, limits, relayer, init, dispatcher, weight).value,
                     Batch(d, limits, relayer, messages, dispatcher, weight).value);
    }
  }

  lemma ClosedFormStep(d: InboundLaneData, limits: Limits, relayer: Relayer, messages: seq<Message>, first: nat,
                       dispatcher: Dispatcher, s: BatchState, t: BatchState)
    requires messages != [] && Consecutive(messages, first) && d.lastConfirmedNonce <= d.LastDeliveredNonce()
    requires |s.results| == |messages| - 1
    requires LaneAfter(d, relayer, Accepted(d, limits, relayer, first, |messages| - 1), s.data)
    requires ResultsAre(d, limits, first, Accepted(d, limits, relayer, first, |messages| - 1), s)
    requires DispatchedAre(d, messages[..|messages| - 1], first, Accepted(d, limits, relayer, first, |messages| - 1), s)
    requires BatchStep(s, limits, relayer, messages[|messages| - 1], dispatcher) == Ok(t)
    ensures LaneAfter(d, relayer, Accepted(d, limits, relayer, first, |messages|), t.data)
    ensures |t.results| == |messages|
    ensures ResultsAre(d, limits, first, Accepted(d, limits, relayer, first, |messages|), t)
    ensures DispatchedAre(d, messages, first, Accepted(d, limits, relayer, first, |messages|), t)
  {
    var n, m := |messages| - 1, messages[|messages| - 1];
    AcceptedStep(d, limits, relayer, first, n, s.data, m.nonce);
    var k, k' := Accepted(d, limits, relayer, first, n), Accepted(d, limits, relayer, first, n + 1);
    if k == k' {
      assert t.data == s.data && t.dispatched == s.dispatched;
    } else {
      DispatchedStep(d, messages, first, k, s, t);
    }
  }

  lemma DispatchedStep(d: InboundLaneData, messages: seq<Message>, first: nat, k: nat, s: BatchState, t: BatchState)
    requires messages != [] && Consecutive(messages, first)
    requires DispatchedAre(d, messages[..|messages| - 1], first, k, s)
    requires messages[|messages| - 1].nonce == d.LastDeliveredNonce() + k + 1
    requires t.dispatched == s.dispatched + [messages[|messages| - 1]]
    ensures DispatchedAre(d, messages, first, k + 1, t)
  {
  }

  /** The loop accepts one message more exactly when the lane does not refuse the next one. */
  lemma AcceptedStep(d: InboundLaneData, limits: Limits, relayer: Relayer, first: nat, count: nat,
                     after: InboundLaneData, nonce: nat)
    requires d.lastConfirmedNonce <= d.LastDeliveredNonce()
    requires nonce == first + count <= MAX_NONCE
    requires LaneAfter(d, relayer, Accepted(d, limits, relayer, first, count), after)
    ensures Accepted(d, limits, relayer, first, count + 1)
         == Accepted(d, limits, relayer, first, count) + if Refusal(after, limits, nonce).None? then 1 else 0
    ensures LaneAfter(d, relayer, Accepted(d, limits, relayer, first, count + 1),
                      Received(after, limits, relayer, nonce))
  {
  }

  /** Weight is conserved: what is left plus what was spent is what was declared. */
  lemma {:induction false} BatchConservesWeight(
      d: InboundLaneData, limits: Limits, relayer: Relayer, messages: seq<Message>,
      dispatcher: Dispatcher, weight: Weight)
    requires Batch(d, limits, relayer, messages, dispatcher, weight).Ok?
    ensures var s := Batch(d, limits, relayer, messages, dispatcher, weight).value;
            s.weightLeft.Plus(s.weightSpent) == weight
  {
    if messages != [] {
      BatchConservesWeight(d, limits, relayer, messages[..|messages| - 1], dispatcher, weight);
    }
  }

  // ---- Enough weight -------------------------------------------------------------------------

  /** What dispatching a message costs: its weight less what comes back unspent, and never less than nothing. */
  function Spent(m: Message, dispatcher: Dispatcher): Weight {
    var weight, unspent := dispatcher.weight(m.payload), dispatcher.unspent(m.nonce, m.payload);
    Weight(SaturatingSub(weight.refTime, unspent.refTime), SaturatingSub(weight.proofSize, unspent.proofSize))
  }

  /** What dispatching costs, counting only the first n messages and of these only the accepted ones. */
  function SpentBy(d: InboundLaneData, limits: Limits, relayer: Relayer, messages: seq<Message>, first: nat,
                   dispatcher: Dispatcher, n: nat): Weight
    requires n <= |messages|
  {
    if n == 0 then ZERO_WEIGHT
    else
      var before := SpentBy(d, limits, relayer, messages, first, dispatcher, n - 1);
      if Accepted(d, limits, relayer, first, n) > Accepted(d, limits, relayer, first, n - 1)
      then before.Plus(Spent(messages[n - 1], dispatcher)) else before
  }

  /** The i-th message can still be paid for: its own weight, refused or not, fits beside what was spent before it. */
  predicate Affordable(d: InboundLaneData, limits: Limits, relayer: Relayer, messages: seq<Message>, first: nat,
                       dispatcher: Dispatcher, weight: Weight, i: nat)
    requires i < |messages|
  {
    var before := SpentBy(d, limits, relayer, messages, first, dispatcher, i);
    !before.Plus(dispatcher.weight(messages[i].payload)).AnyGt(weight)
  }

  predicate AllAffordable(d: InboundLaneData, limits: Limits, relayer: Relayer, messages: seq<Message>, first: nat,
                          dispatcher: Dispatcher, weight: Weight, n: nat)
    requires n <= |messages|
  {
    forall i: nat :: i < n ==> Affordable(d, limits, relayer, messages, first, dispatcher, weight, i)
  }

  lemma AllAffordableStep(d: InboundLaneData, limits: Limits, relayer: Relayer, messages: seq<Message>, first: nat,
                          dispatcher: Dispatcher, weight: Weight, n: nat)
    requires n < |messages|
    ensures AllAffordable(d, limits, relayer, messages, first, dispatcher, weight, n + 1) <==>
            && AllAffordable(d, limits, relayer, messages, first, dispatcher, weight, n)
            && Affordable(d, limits, relayer, messages, first, dispatcher, weight, n)
  {
  }

  /**
    A batch fails for lack of weight if and only if some message, accepted or not, does not fit beside
    what was spent before it; otherwise the weight spent is that of the accepted messages.
   */
  lemma {:induction false} InsufficientWeightIff(
      d: InboundLaneData, limits: Limits, relayer: Relayer, messages: seq<Message>, first: nat,
      dispatcher: Dispatcher, weight: Weight, n: nat)
    requires Consecutive(messages, first) && d.lastConfirmedNonce <= d.LastDeliveredNonce() && n <= |messages|
    ensures var r := Batch(d, limits, relayer, messages[..n], dispatcher, weight);
            && (r.Ok? <==> AllAffordable(d, limits, relayer, messages, first, dispatcher, weight, n))
            && (r.Err? ==> r.error == InsufficientDispatchWeight)
            && (r.Ok? ==> r.value.weightSpent == SpentBy(d, limits, relayer, messages, first, dispatcher, n))
  {
    if n == 0 {
    } else {
      InsufficientWeightIff(d, limits, relayer, messages, first, dispatcher, weight, n - 1);
      BatchUnrolled(d, limits, relayer, messages, dispatcher, weight, n - 1);
      var r := Batch(d, limits, relayer, messages[..n - 1], dispatcher, weight);
      AllAffordableStep(d, limits, relayer, messages, first, dispatcher, weight, n - 1);
      if r.Ok? {
        LaneAfterPrefix(d, limits, relayer, messages, first, dispatcher, weight, n - 1);
        WeightStep(d, limits, relayer, messages, first, dispatcher, weight, n - 1, r.value);
      }
    }
  }

  lemma LaneAfterPrefix(d: InboundLaneData, limits: Limits, relayer: Relayer, messages: seq<Message>, first: nat,
                        dispatcher: Dispatcher, weight: Weight, n: nat)
    requires Consecutive(messages, first) && d.lastConfirmedNonce <= d.LastDeliveredNonce() && n <= |messages|
    requires Batch(d, limits, relayer, messages[..n], dispatcher, weight).Ok?
    ensures var s := Batch(d, limits, relayer, messages[..n], dispatcher, weight).value;
            && LaneAfter(d, relayer, Accepted(d, limits, relayer, first, n), s.data)
            && s.weightLeft.Plus(s.weightSpent) == weight
  {
    assert Consecutive(messages[..n], first);
    BatchClosedForm(d, limits, relayer, messages[..n], first, dispatcher, weight);
    BatchConservesWeight(d, limits, relayer, messages[..n], dispatcher, weight);
  }

  lemma WeightStep(d: InboundLaneData, limits: Limits, relayer: Relayer, messages: seq<Message>, first: nat,
                   dispatcher: Dispatcher, weight: Weight, n: nat, s: BatchState)
    requires n < |messages| && d.lastConfirmedNonce <= d.LastDeliveredNonce()
    requires messages[n].nonce == first + n <= MAX_NONCE
    requires LaneAfter(d, relayer, Accepted(d, limits, relayer, first, n), s.data)
    requires s.weightLeft.Plus(s.weightSpent) == weight
    requires s.weightSpent == SpentBy(d, limits, relayer, messages, first, dispatcher, n)
    ensures var r := BatchStep(s, limits, relayer, messages[n], dispatcher);
            && (r.Ok? <==> Affordable(d, limits, relayer, messages, first, dispatcher, weight, n))
            && (r.Err? ==> r.error == InsufficientDispatchWeight)
            && (r.Ok? ==> r.value.weightSpent == SpentBy(d, limits, relayer, messages, first, dispatcher, n + 1))
  {
    AcceptedStep(d, limits, relayer, first, n, s.data, messages[n].nonce);
  }

  function TotalWeight(messages: seq<Message>, dispatcher: Dispatcher): Weight {
    if messages == [] then ZERO_WEIGHT
    else TotalWeight(messages[..|messages| - 1], dispatcher).Plus(dispatcher.weight(messages[|messages| - 1].payload))
  }

  /** Declaring the sum of the dispatch weights is always enough. */
  lemma {:induction false} EnoughWeightSuffices(
      d: InboundLaneData, limits: Limits, relayer: Relayer, messages: seq<Message>,
      dispatcher: Dispatcher, weight: Weight)
    requires !TotalWeight(messages, dispatcher).AnyGt(weight)
    ensures Batch(d, limits, relayer, messages, dispatcher, weight).Ok?
    ensures var left := Batch(d, limits, relayer, messages, dispatcher, weight).value.weightLeft;
            !weight.AnyGt(left.Plus(TotalWeight(messages, dispatcher)))
  {
    if messages != [] {
      EnoughWeightSuffices(d, limits, relayer, messages[..|messages| - 1], dispatcher, weight);
    }
  }

  // ---- The whole call ------------------------------------------------------------------------

  /**
    A delivery to a reachable lane succeeds if and only if the pallet is not halted, the proof is not too long and
    proves what it claims, the lane is open with an active dispatcher, and every message can be paid for.
   */
  lemma DeliverySucceedsIff(mode: OperatingMode, d: InboundLaneData, log: seq<Relayer>, limits: Limits,
                            call: DeliveryCall, dispatcher: Dispatcher)
    requires call.proof.noncesStart <= MAX_NONCE && call.proof.noncesEnd <= MAX_NONCE
    requires Represents(d, log, limits)
    ensures Delivery(mode, Some(d), limits, call, dispatcher).Ok? <==>
            && mode != Halted
            && call.messagesCount <= limits.maxUnconfirmedMessages
            && d.state == Opened && dispatcher.active
            && Proves(call.proof, call.messagesCount)
            && var claimed := Claimed(call.proof, call.messagesCount);
            && AllAffordable(Updated(d, claimed), limits, call.relayer, claimed.messages, call.proof.noncesStart,
                             dispatcher, call.dispatchWeight, |claimed.messages|)
  {
    VerifiesIffProves(call.proof, call.messagesCount);
    if Proves(call.proof, call.messagesCount) {
      ClaimedAffordableIff(d, log, limits, call, dispatcher, Claimed(call.proof, call.messagesCount));
    }
  }

  lemma ClaimedAffordableIff(d: InboundLaneData, log: seq<Relayer>, limits: Limits, call: DeliveryCall,
                             dispatcher: Dispatcher, claimed: ProvedMessages)
    requires Represents(d, log, limits) && Consecutive(claimed.messages, call.proof.noncesStart)
    ensures Batch(Updated(d, claimed), limits, call.relayer, claimed.messages, dispatcher, call.dispatchWeight).Ok? <==>
            AllAffordable(Updated(d, claimed), limits, call.relayer, claimed.messages, call.proof.noncesStart,
                          dispatcher, call.dispatchWeight, |claimed.messages|)
  {
    var messages := claimed.messages;
    if claimed.laneState.Some? {
      StateUpdatedRepresents(d, log, limits, claimed.laneState.value.latestReceivedNonce);
    }
    RepresentsLastDelivered(Updated(d, claimed), log, limits);
    assert messages[..|messages|] == messages;
    InsufficientWeightIff(Updated(d, claimed), limits, call.relayer, messages, call.proof.noncesStart,
                          dispatcher, call.dispatchWeight, |messages|);
  }

  /** A failing delivery names something that is really wrong. */
  lemma DeliveryErrorNamesItsCause(mode: OperatingMode, lane: Option<InboundLaneData>, limits: Limits,
                                   call: DeliveryCall, dispatcher: Dispatcher)
    requires Delivery(mode, lane, limits, call, dispatcher).Err?
    ensures match Delivery(mode, lane, limits, call, dispatcher).error
            case PalletHalted => mode == Halted
            case TooManyMessagesInTheProof => call.messagesCount > limits.maxUnconfirmedMessages
            case InvalidMessagesProof(e) => Verification(call.proof, call.messagesCount) == Err(e)
            case LanesManager(UnknownInboundLane) => lane.None?
            case LanesManager(ClosedInboundLane) => lane.Some? && lane.value.state == Closed
            case LanesManager(LaneDispatcherInactive) => !dispatcher.active
            case InsufficientDispatchWeight => Verification(call.proof, call.messagesCount).Ok?
            case _ => false
  {
    if lane.Some? && Verification(call.proof, call.messagesCount).Ok? {
      var proved := Verification(call.proof, call.messagesCount).value;
      OnlyWeightFails(Updated(lane.value, proved), limits, call.relayer, proved.messages,
                      dispatcher, call.dispatchWeight);
    }
  }

  lemma {:induction false} OnlyWeightFails(d: InboundLaneData, limits: Limits, relayer: Relayer, messages: seq<Message>,
                                           dispatcher: Dispatcher, weight: Weight)
    ensures Batch(d, limits, relayer, messages, dispatcher, weight).Err? ==>
            Batch(d, limits, relayer, messages, dispatcher, weight).error == InsufficientDispatchWeight
  {
    if messages != [] { OnlyWeightFails(d, limits, relayer, messages[..|messages| - 1], dispatcher, weight); }
  }
}
