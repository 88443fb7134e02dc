/** Storage items of the messages pallet that hold lanes and queued messages. */
module LaneStorage {
  import opened LaneTypes

  datatype OperatingMode = Normal | RejectingOutboundMessages | Halted

  datatype MessageKey = MessageKey(laneId: LaneId, nonce: nat)

  /** A message handed over to the dispatcher of the target chain. */
  datatype DispatchMessage = DispatchMessage(key: MessageKey, payload: Payload)

  datatype LanesManagerError =
    | InboundLaneAlreadyExists
    | OutboundLaneAlreadyExists
    | UnknownInboundLane
    | UnknownOutboundLane
    | ClosedInboundLane
    | ClosedOutboundLane
    | LaneDispatcherInactive

  class PalletStorage {
    var mode: OperatingMode
    var inboundLanes: map<LaneId, InboundLaneData>
    var outboundLanes: map<LaneId, OutboundLaneData>
    var outboundMessages: map<MessageKey, Payload>
    // every call made so far to the message dispatcher, oldest first
    var dispatched: seq<DispatchMessage>

    constructor ()
      ensures mode == Normal && inboundLanes == map[] && outboundLanes == map[]
      ensures outboundMessages == map[] && dispatched == []
    {
      mode, inboundLanes, outboundLanes, outboundMessages, dispatched := Normal, map[], map[], map[], [];
    }
  }

  /** The queued messages of one lane, by nonce. */
  ghost function LaneMessages(messages: map<MessageKey, Payload>, laneId: LaneId): map<nat, Payload> {
    map k | k in messages && k.laneId == laneId :: k.nonce := messages[k]
  }

  /** The messages left after nonces begin..=end of a lane are removed. */
  function WithoutRange(messages: map<MessageKey, Payload>, laneId: LaneId, begin: nat, end: nat)
    : map<MessageKey, Payload>
  {
    map k | k in messages && !(k.laneId == laneId && begin <= k.nonce <= end) :: messages[k]
  }

  /** The same on the messages of one lane. */
  function WithoutNonces(messages: map<nat, Payload>, begin: nat, end: nat): map<nat, Payload> {
    map n | n in messages && !(begin <= n <= end) :: messages[n]
  }

  /** Removing a range touches exactly that range of that lane. */
  lemma WithoutRangeByLane(messages: map<MessageKey, Payload>, laneId: LaneId, begin: nat, end: nat, other: LaneId)
    ensures LaneMessages(WithoutRange(messages, laneId, begin, end), other)
         == if other == laneId then WithoutNonces(LaneMessages(messages, laneId), begin, end)
            else LaneMessages(messages, other)
  {
    var left := LaneMessages(WithoutRange(messages, laneId, begin, end), other);
    var right := if other == laneId then WithoutNonces(LaneMessages(messages, laneId), begin, end)
                 else LaneMessages(messages, other);
    forall n | n in left ensures n in right { assert MessageKey(other, n) in messages; }
    forall n | n in right ensures n in left && left[n] == right[n] {
      assert MessageKey(other, n) in WithoutRange(messages, laneId, begin, end);
    }
  }

  /** Saving a message changes one nonce of one lane. */
  lemma SavedByLane(messages: map<MessageKey, Payload>, key: MessageKey, payload: Payload, other: LaneId)
    ensures LaneMessages(messages[key := payload], other)
         == if other == key.laneId then LaneMessages(messages, other)[key.nonce := payload]
            else LaneMessages(messages, other)
  {
    var saved := messages[key := payload];
    var left := LaneMessages(saved, other);
    var right := if other == key.laneId then LaneMessages(messages, other)[key.nonce := payload]
                 else LaneMessages(messages, other);
    forall n | n in left ensures n in right { assert MessageKey(other, n) in saved; }
    forall n | n in right ensures n in left && left[n] == right[n] { assert MessageKey(other, n) in saved; }
  }

  /** Removing a message touches one nonce of one lane. */
  lemma RemovedByLane(messages: map<MessageKey, Payload>, key: MessageKey, other: LaneId)
    ensures LaneMessages(messages - {key}, other)
         == if other == key.laneId then LaneMessages(messages, other) - {key.nonce} else LaneMessages(messages, other)
  {
    var left := LaneMessages(messages - {key}, other);
    var right := if other == key.laneId then LaneMessages(messages, other) - {key.nonce}
                 else LaneMessages(messages, other);
    forall n | n in left ensures n in right { assert MessageKey(other, n) in messages - {key}; }
    forall n | n in right ensures n in left && left[n] == right[n] { assert MessageKey(other, n) in messages - {key}; }
  }
}
