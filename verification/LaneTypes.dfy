/** Data kept by the two ends of a message lane, and the 64-bit nonce arithmetic used on it. */
module LaneTypes {
  import opened Wrappers

  type Relayer(==, !new)
  type Payload(==, !new)
  type LaneId(==, !new)

  // ---- 64-bit nonces -------------------------------------------------------------------------

  const MAX_NONCE: nat := 0xFFFF_FFFF_FFFF_FFFF

  function Min(a: nat, b: nat): nat { if a <= b then a else b }

  function Max(a: nat, b: nat): nat { if a <= b then b else a }

  function SaturatingAdd(a: nat, b: nat): nat { Min(a + b, MAX_NONCE) }

  function SaturatingSub(a: nat, b: nat): nat { if b <= a then a - b else 0 }

  function CheckedAdd(a: nat, b: nat): Option<nat> { if a + b <= MAX_NONCE then Some(a + b) else None }

  /** Length of the inclusive range begin..=end. */
  function SaturatingLen(begin: nat, end: nat): nat {
    if end < begin then 0 else SaturatingAdd(end - begin, 1)
  }

  // ---- Lane data -----------------------------------------------------------------------------

  datatype LaneState = Opened | Closed

  datatype DeliveredMessages = DeliveredMessages(begin: nat, end: nat) {
    function TotalMessages(): nat { SaturatingLen(begin, end) }

    predicate Contains(nonce: nat) { begin <= nonce <= end }
  }

  /** A run of consecutive nonces delivered by one relayer. */
  datatype UnrewardedRelayer = UnrewardedRelayer(relayer: Relayer, messages: DeliveredMessages)

  type RelayersQueue = seq<UnrewardedRelayer>

  datatype UnrewardedRelayersState = UnrewardedRelayersState(
    unrewardedRelayerEntries: nat,
    messagesInOldestEntry: nat,
    totalMessages: nat,
    lastDeliveredNonce: nat)

  datatype InboundLaneData = InboundLaneData(relayers: RelayersQueue, lastConfirmedNonce: nat, state: LaneState) {
    function LastDeliveredNonce(): nat {
      if relayers == [] then lastConfirmedNonce else relayers[|relayers| - 1].messages.end
    }

    function TotalUnrewardedMessages(): nat {
      if relayers == [] then 0
      else SaturatingLen(relayers[0].messages.begin, relayers[|relayers| - 1].messages.end)
    }

    function UnrewardedState(): UnrewardedRelayersState {
      UnrewardedRelayersState(
        |relayers|,
        if relayers == [] then 0 else relayers[0].messages.TotalMessages(),
        TotalUnrewardedMessages(),
        LastDeliveredNonce())
    }
  }

  datatype OutboundLaneData = OutboundLaneData(
    oldestUnprunedNonce: nat,
    latestReceivedNonce: nat,
    latestGeneratedNonce: nat,
    state: LaneState)

  const NEW_INBOUND_LANE := InboundLaneData([], 0, Opened)
  const NEW_OUTBOUND_LANE := OutboundLaneData(1, 0, 0, Opened)

  /** The two capacity constants of the bridged chain. */
  datatype Limits = Limits(maxUnrewardedRelayers: nat, maxUnconfirmedMessages: nat)

  // ---- Two-dimensional weights ---------------------------------------------------------------

  datatype Weight = Weight(refTime: nat, proofSize: nat) {
    predicate AnyGt(other: Weight) { refTime > other.refTime || proofSize > other.proofSize }

    function Meet(other: Weight): Weight { Weight(Min(refTime, other.refTime), Min(proofSize, other.proofSize)) }

    function Plus(other: Weight): Weight { Weight(refTime + other.refTime, proofSize + other.proofSize) }

    /** Componentwise subtraction; the source's operator traps when a component would go negative. */
    function Minus(other: Weight): Weight
      requires !other.AnyGt(this)
    {
      Weight(refTime - other.refTime, proofSize - other.proofSize)
    }
  }

  const ZERO_WEIGHT := Weight(0, 0)
}
