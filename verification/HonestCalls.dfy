/** The honest relayer's calls pass the transaction extension, in every reachable state. */
module HonestCalls {
  import opened Wrappers
  import opened LaneTypes
  import opened LaneStorage
  import opened DeliveryRecord
  import opened InboundLanes
  import opened OutboundLanes
  import opened MessagesPallet
  import opened BridgeProtocol
  import opened CallExt

  /** Confirming the present inbound end is let through if and only if there is something to confirm. */
  lemma ConfirmationIsLetThroughIff(limits: Limits, steps: seq<Step>)
    ensures var w := ApplyAll(limits, GENESIS, steps);
            CheckConfirmation(Normal, Some(w.source.data), w.target.UnrewardedState()) == Valid <==>
            w.source.data.latestReceivedNonce < |w.dispatched|
  {
    ReachableInv(limits, steps);
    var w := ApplyAll(limits, GENESIS, steps);
    assert SourceView(w.source, w.sent);
    RepresentsLastDelivered(w.target, w.deliverers, limits);
    ConfirmationLetThroughIff(w.source.data, Normal, w.target.UnrewardedState());
  }

  /** Delivering the next message is always let through. */
  lemma NextDeliveryIsLetThrough(limits: Limits, steps: seq<Step>, relayer: Relayer, dispatcher: Dispatcher)
    requires dispatcher.active
    requires |ApplyAll(limits, GENESIS, steps).dispatched| < |ApplyAll(limits, GENESIS, steps).sent|
    ensures var w := ApplyAll(limits, GENESIS, steps);
            CheckDelivery(Normal, Some(w.target), limits, CallOf(w, DeliverNext(w, relayer, dispatcher)), true) == Valid
  {
    ReachableInv(limits, steps);
    var w := ApplyAll(limits, GENESIS, steps);
    assert SourceView(w.source, w.sent);
    var call := CallOf(w, DeliverNext(w, relayer, dispatcher));
    DeliveryLetThroughIff(w.target, w.deliverers, limits, Normal, call, true);
  }

  /** Bringing only confirmations is let through if and only if a limit keeps further messages out. */
  lemma StateOnlyIsLetThroughIff(limits: Limits, steps: seq<Step>, relayer: Relayer, dispatcher: Dispatcher)
    ensures var w := ApplyAll(limits, GENESIS, steps);
            var call := CallOf(w, DeliverStateOnly(w, relayer, dispatcher));
            && w.target.lastConfirmedNonce <= |w.deliverers|
            && (CheckDelivery(Normal, Some(w.target), limits, call, true) == Valid <==>
                || CountRuns(w.deliverers, w.target.lastConfirmedNonce, |w.deliverers|) == limits.maxUnrewardedRelayers
                || |w.deliverers| - w.target.lastConfirmedNonce == limits.maxUnconfirmedMessages)
  {
    ReachableInv(limits, steps);
    var w := ApplyAll(limits, GENESIS, steps);
    var call := CallOf(w, DeliverStateOnly(w, relayer, dispatcher));
    DeliveryLetThroughIff(w.target, w.deliverers, limits, Normal, call, true);
  }
}
