/** What the transaction extension checks before a relayer's call and concludes after it. */
module CallExt {
  import opened Wrappers
  import opened LaneTypes
  import opened LaneStorage
  import opened DeliveryRecord
  import opened InboundLanes
  import opened OutboundLanes
  import opened MessagesPallet
  import opened BatchDelivery

  datatype Occupation = Occupation(freeRelayerSlots: nat, freeMessageSlots: nat)

  function OccupationOf(d: InboundLaneData, limits: Limits): Occupation {
    Occupation(
      SaturatingSub(limits.maxUnrewardedRelayers, |d.relayers|),
      SaturatingSub(limits.maxUnconfirmedMessages, SaturatingSub(d.LastDeliveredNonce(), d.lastConfirmedNonce)))
  }

  datatype ProofInfo = ProofInfo(bundledStart: nat, bundledEnd: nat, bestStoredNonce: nat) {
    predicate IsEmpty() { bundledEnd < bundledStart }

    predicate AppendsToStoredNonce() { Some(bundledStart) == CheckedAdd(bestStoredNonce, 1) }
  }

  datatype DeliveryInfo = DeliveryInfo(base: ProofInfo, occupation: Occupation) {
    predicate IsObsolete(dispatcherActive: bool) {
      if !dispatcherActive then true
      else if base.IsEmpty() then !(occupation.freeRelayerSlots == 0 || occupation.freeMessageSlots == 0)
      else !base.AppendsToStoredNonce()
    }
  }

  function DeliveryInfoOf(d: InboundLaneData, limits: Limits, call: DeliveryCall): DeliveryInfo {
    DeliveryInfo(
      ProofInfo(call.proof.noncesStart, call.proof.noncesEnd, d.LastDeliveredNonce()),
      OccupationOf(d, limits))
  }

  function ConfirmationInfoOf(d: OutboundLaneData, declared: UnrewardedRelayersState): ProofInfo {
    ProofInfo(d.latestReceivedNonce + 1, declared.lastDeliveredNonce, d.latestReceivedNonce)
  }

  datatype Validity = Valid | InvalidCall | Stale

  /** The check before delivery; a call for an unknown lane carries no info and is let through. */
  function CheckDelivery(mode: OperatingMode, lane: Option<InboundLaneData>, limits: Limits, call: DeliveryCall,
                         dispatcherActive: bool)
    : Validity
  {
    if lane.None? then Valid
    else if mode == Halted then InvalidCall
    else if DeliveryInfoOf(lane.value, limits, call).IsObsolete(dispatcherActive) then Stale
    else Valid
  }

  function CheckConfirmation(mode: OperatingMode, lane: Option<OutboundLaneData>, declared: UnrewardedRelayersState)
    : Validity
  {
    if lane.None? then Valid
    else if mode == Halted then InvalidCall
    else
      var info := ConfirmationInfoOf(lane.value, declared);
      if info.IsEmpty() || !info.AppendsToStoredNonce() then Stale else Valid
  }

  predicate WasDeliverySuccessful(lane: Option<InboundLaneData>, limits: Limits, info: DeliveryInfo) {
    if lane.None? then false
    else if info.base.IsEmpty() then
      OccupationOf(lane.value, limits).freeMessageSlots > info.occupation.freeMessageSlots
    else lane.value.LastDeliveredNonce() == info.base.bundledEnd
  }

  predicate WasConfirmationSuccessful(lane: Option<OutboundLaneData>, info: ProofInfo) {
    lane.Some? && lane.value.latestReceivedNonce == info.bundledEnd
  }

  /** The lane that a delivery call leaves behind. */
  function LaneAfterDelivery(d: InboundLaneData, outcome: Result<BatchState, CallError>): InboundLaneData {
    if outcome.Ok? then outcome.value.data else d
  }

  // ---- The conclusions are exact -------------------------------------------------------------

  /** A checked non-empty delivery is reported successful exactly when every bundled message was dispatched. */
  lemma DeliverySuccessIsExact(d: InboundLaneData, log: seq<Relayer>, limits: Limits, mode: OperatingMode,
                               call: DeliveryCall, dispatcher: Dispatcher)
    requires Represents(d, log, limits)
    requires call.proof.noncesStart <= call.proof.noncesEnd <= MAX_NONCE
    requires CheckDelivery(mode, Some(d), limits, call, dispatcher.active) == Valid
    ensures var outcome := Delivery(mode, Some(d), limits, call, dispatcher);
            WasDeliverySuccessful(Some(LaneAfterDelivery(d, outcome)), limits, DeliveryInfoOf(d, limits, call)) <==>
              && outcome.Ok?
              && |outcome.value.results| == call.proof.noncesEnd - call.proof.noncesStart + 1
              && forall i :: 0 <= i < |outcome.value.results| ==> outcome.value.results[i].Dispatched?
  {
    var outcome := Delivery(mode, Some(d), limits, call, dispatcher);
    RepresentsLastDelivered(d, log, limits);
    if outcome.Ok? {
      var proved := Verification(call.proof, call.messagesCount).value;
      ReadMessagesYields(call.proof, call.messagesCount);
      UpdatedIsCompleteIff(d, log, limits, call, proved, dispatcher);
    }
  }

  lemma UpdatedIsCompleteIff(d: InboundLaneData, log: seq<Relayer>, limits: Limits, call: DeliveryCall,
                             proved: ProvedMessages, dispatcher: Dispatcher)
    requires Represents(d, log, limits) && |log| == call.proof.noncesStart - 1
    requires Consecutive(proved.messages, call.proof.noncesStart) && proved.messages != []
    requires Batch(Updated(d, proved), limits, call.relayer, proved.messages, dispatcher, call.dispatchWeight).Ok?
    ensures var r := Batch(Updated(d, proved), limits, call.relayer, proved.messages, dispatcher, call.dispatchWeight);
            var s := r.value;
            && |s.results| == |proved.messages|
            && (s.data.LastDeliveredNonce() == call.proof.noncesStart + |proved.messages| - 1 <==>
                forall i :: 0 <= i < |s.results| ==> s.results[i].Dispatched?)
  {
    if proved.laneState.Some? { StateUpdatedRepresents(d, log, limits, proved.laneState.value.latestReceivedNonce); }
    RepresentsLastDelivered(Updated(d, proved), log, limits);
    BatchIsCompleteIff(Updated(d, proved), limits, call.relayer, proved.messages, call.proof.noncesStart,
                       dispatcher, call.dispatchWeight);
  }

  /** A batch that continues the lane reaches its last nonce exactly when all of it was dispatched. */
  lemma BatchIsCompleteIff(d: InboundLaneData, limits: Limits, relayer: Relayer, messages: seq<Message>, first: nat,
                           dispatcher: Dispatcher, weight: Weight)
    requires Consecutive(messages, first) && messages != []
    requires d.lastConfirmedNonce <= d.LastDeliveredNonce() == first - 1
    requires Batch(d, limits, relayer, messages, dispatcher, weight).Ok?
    ensures var s := Batch(d, limits, relayer, messages, dispatcher, weight).value;
            && |s.results| == |messages|
            && (s.data.LastDeliveredNonce() == first + |messages| - 1 <==>
                forall i :: 0 <= i < |s.results| ==> s.results[i].Dispatched?)
  {
    BatchClosedForm(d, limits, relayer, messages, first, dispatcher, weight);
    var s := Batch(d, limits, relayer, messages, dispatcher, weight).value;
    var k := Accepted(d, limits, relayer, first, |messages|);
    if k < |messages| { assert !s.results[k].Dispatched?; }
  }

  /** A checked empty delivery is reported successful exactly when it brought new confirmations. */
  lemma EmptyDeliverySuccessIsExact(d: InboundLaneData, log: seq<Relayer>, limits: Limits, mode: OperatingMode,
                                    call: DeliveryCall, dispatcher: Dispatcher)
    requires Represents(d, log, limits)
    requires call.proof.noncesEnd < call.proof.noncesStart
    requires CheckDelivery(mode, Some(d), limits, call, dispatcher.active) == Valid
    ensures var outcome := Delivery(mode, Some(d), limits, call, dispatcher);
            WasDeliverySuccessful(Some(LaneAfterDelivery(d, outcome)), limits, DeliveryInfoOf(d, limits, call)) <==>
              outcome.Ok? && StateUpdateApplies(d, call.proof.snapshot.value.data.latestReceivedNonce)
  {
    var outcome := Delivery(mode, Some(d), limits, call, dispatcher);
    RepresentsLastDelivered(d, log, limits);
    if outcome.Ok? {
      StateUpdatedRepresents(d, log, limits, call.proof.snapshot.value.data.latestReceivedNonce);
    }
  }

  /** Whenever a state update frees relayer slots, it frees message slots too. */
  lemma FreedRelayerSlotsFreeMessageSlots(d: InboundLaneData, log: seq<Relayer>, limits: Limits, received: nat)
    requires Represents(d, log, limits)
    requires OccupationOf(StateUpdated(d, received), limits).freeRelayerSlots > OccupationOf(d, limits).freeRelayerSlots
    ensures OccupationOf(StateUpdated(d, received), limits).freeMessageSlots > OccupationOf(d, limits).freeMessageSlots
  {
    RepresentsLastDelivered(d, log, limits);
    StateUpdatedRepresents(d, log, limits, received);
  }

  /** A checked confirmation is reported successful exactly when the call succeeded. */
  lemma ConfirmationSuccessIsExact(d: OutboundLaneData, mode: OperatingMode, proof: Option<InboundLaneData>,
                                   declared: UnrewardedRelayersState)
    requires declared.lastDeliveredNonce <= MAX_NONCE
    requires CheckConfirmation(mode, Some(d), declared) == Valid
    ensures var outcome := ConfirmationCall(mode, Some(d), proof, declared);
            var after := if outcome.Ok? && outcome.value.Some? then ConfirmedUpTo(d, outcome.value.value.end) else d;
            WasConfirmationSuccessful(Some(after), ConfirmationInfoOf(d, declared)) <==> outcome.Ok?
  {
  }

  // ---- Which calls are let through -----------------------------------------------------------

  /**
    A delivery to a reachable lane is let through if and only if the pallet is not halted, the dispatcher is active,
    and it either brings messages right after the last delivered one, or brings none while a limit is reached.
   */
  lemma DeliveryLetThroughIff(d: InboundLaneData, log: seq<Relayer>, limits: Limits, mode: OperatingMode,
                              call: DeliveryCall, dispatcherActive: bool)
    requires Represents(d, log, limits)
    ensures var p := call.proof;
            CheckDelivery(mode, Some(d), limits, call, dispatcherActive) == Valid <==>
              && mode != Halted && dispatcherActive
              && if p.noncesStart <= p.noncesEnd then p.noncesStart == |log| + 1 <= MAX_NONCE
                 else CountRuns(log, d.lastConfirmedNonce, |log|) == limits.maxUnrewardedRelayers
                      || |log| - d.lastConfirmedNonce == limits.maxUnconfirmedMessages
  {
    RepresentsLastDelivered(d, log, limits);
    EncodeLength(log, d.lastConfirmedNonce, |log|);
  }

  /** A confirmation is let through if and only if the pallet is not halted and something new is declared delivered. */
  lemma ConfirmationLetThroughIff(d: OutboundLaneData, mode: OperatingMode, declared: UnrewardedRelayersState)
    requires d.latestReceivedNonce <= MAX_NONCE && declared.lastDeliveredNonce <= MAX_NONCE
    ensures CheckConfirmation(mode, Some(d), declared) == Valid <==>
            mode != Halted && declared.lastDeliveredNonce > d.latestReceivedNonce
  {
  }

  /**
    A refused call is invalid when the pallet is halted, and stale otherwise. A call for an unknown lane is let
    through, and never reported successful.
   */
  lemma RefusalSaysWhy(mode: OperatingMode, inbound: Option<InboundLaneData>, outbound: Option<OutboundLaneData>,
                       limits: Limits, call: DeliveryCall, active: bool, declared: UnrewardedRelayersState)
    ensures CheckDelivery(mode, inbound, limits, call, active) == InvalidCall <==> inbound.Some? && mode == Halted
    ensures CheckConfirmation(mode, outbound, declared) == InvalidCall <==> outbound.Some? && mode == Halted
    ensures inbound.None? ==> CheckDelivery(mode, inbound, limits, call, active) == Valid
    ensures outbound.None? ==> CheckConfirmation(mode, outbound, declared) == Valid
    ensures forall info :: !WasDeliverySuccessful(None, limits, info)
    ensures forall info :: !WasConfirmationSuccessful(None, info)
  {
  }
}
