# Bridge lanes, light clients and the statement table, in Dafny

A model of four state machines and proofs of what they guarantee over whole runs.

- **Message lanes** (`LaneTypes`, `DeliveryRecord`, `LaneStorage`, `InboundLanes`, `OutboundLanes`, `MessagesPallet`,
  `BatchDelivery`, `CallExt`, `LaneHandles`, `HonestCalls`): the two ends of a bridge lane, the two calls relayers make, and the
  transaction extension around them. `BridgeProtocol` composes both ends into one protocol. In it relayers are not
  trusted: they may present any past snapshot of either chain, any number of times, in any order.
- **GRANDPA light client** (`RingBuffer`, `Grandpa`, `GrandpaRuns`, `GrandpaCalls`): importing finalized headers, handing over authority
  sets, pruning through a ring buffer, and refunding some submissions.
- **BEEFY light client** (`Beefy`, `BeefyRuns`, `BeefyCalls`): quorum check with early exit, quorum intersection, and the same pruning.
- **Statement table** (`StatementTable`, `StatementRuns`, `MisbehaviorDrain`): validity votes on parachain candidates,
  detected misbehavior, attestation, and the draining iterator.

Objects that the source updates in place are classes. Each state-changing method is proved equal to a function on
values, the run models take their steps through those same functions, and the theorems are about all runs. An outbound
lane method is tied to `ApplyStep` through the lane's view of the shared message map. Loops of the source are loops here.

Parameters of the model instead of code: storage-trie proofs (a messages proof is a read of a past snapshot plus the set
of storage values its nodes cover), GRANDPA justification checks, hashing, merkle and MMR roots, signature checks, the
message dispatcher's answers, and `Context` of the statement table. The order in which a hash map is drained is arbitrary.
Where a result needs hashes not to collide, it assumes so only of the headers, validator sets or candidates of that run.

Nonces are naturals with the source's saturating and checked 64-bit operations written out, so the statements at nonce
2^64 - 1 are exact. Some promises fail there, or elsewhere; each such promise comes with the exact condition:

- a confirmation can fail, and a nonce can be rewarded twice, only once nonce 2^64 - 1 is confirmed
  (`ConfirmationFailsIffNoncesExhausted`, `SecondConfirmationIsEmptyIffNoncesLast`, `LastNonceIsConfirmedAgain`);
- removing the oldest message of an empty queue leaves the next message below the oldest unpruned nonce
  (`RemoveOldestSafeIffQueued`, `RemoveOldestOnEmptyQueue`);
- a send through a lane handle reuses a nonce exactly when the handle's cached copy does not know the largest nonce ever
  accepted. A stale handle can be in that position, and so can one opened after a stale handle moved the lane back
  (`SendIsFreshIffUpToDate`, `StaleHandleReusesNonce`, `InSyncHandleReusesNonce`);
- a forced header can be pruned by its own insertion (`BestIsStoredIff`, `ForcedTwiceLosesBest`);
- a free submission is refunded only inside a block, and only if mandatory or under a configured interval (`FreePromiseKeptIff`);
- the documentation of `submit_finality_proof_ex` says a header with a forced authority change is refused. The code looks only at the first
  GRANDPA digest item; the model follows the code (`ForcedChangeRefusedIffFirst`, `ForcedChangeBehindOtherIsAccepted`);
- evidence of the statement table can name a vote that was never cast, when a candidate is seconded under two groups
  (`EvidenceIsGenuineIffNoneMisfiled`, `EvidenceIsGenuineIff`, `MisfiledEvidence`).

## Model

| member | source | states |
|---|---|---|
| BridgeProtocol.ReachableInv | bridges/modules/messages/src/lib.rs:214-446 | every state reachable by sends, deliveries and confirmations with arbitrary stale snapshots satisfies the two-chain invariant |
| BridgeProtocol.StepKeepsInv | bridges/modules/messages/src/lib.rs:214-446 | each single transaction on either chain keeps the two-chain invariant |
| BridgeProtocol.DispatchLogIsPrefixOfSendLog | bridges/modules/messages/src/inbound_lane.rs:186-229 | messages are dispatched once each, in nonce order, with the payload sent under that nonce |
| BridgeProtocol.NoncesStayOrdered | bridges/modules/messages/src/inbound_lane.rs:145-183 | confirmed on target <= received on source <= delivered on target <= generated on source, and every past snapshot is behind the present, so a state update "from the future" never occurs |
| BridgeProtocol.ConfirmationFailsIffNoncesExhausted | bridges/modules/messages/src/outbound_lane.rs:135-179 | confirming any proved snapshot fails if and only if nonce 2^64 - 1 is already confirmed and the snapshot has pruned it |
| BridgeProtocol.ConfirmationOfSnapshot | bridges/modules/messages/src/outbound_lane.rs:135-224 | the outcome of confirming any past snapshot is determined by two nonces: none of the four error branches is reached before nonce 2^64 - 1 |
| BridgeProtocol.RewardsAreExact | bridges/modules/messages/src/lib.rs:387-411 | confirmed ranges tile 1..=latest received, and each relayer is rewarded exactly once for each confirmed nonce it delivered |
| BridgeProtocol.EachNonceHasItsRelayer | bridges/modules/messages/src/inbound_lane.rs:215-226 | in any proved snapshot each unconfirmed nonce lies in exactly one entry of the queue, and that entry names the relayer who delivered it |
| BridgeProtocol.ConfirmedRangeIsInSnapshot | bridges/modules/messages/src/outbound_lane.rs:141-178 | every newly confirmed nonce is an unconfirmed nonce of the proved snapshot, up to its last delivered one |
| BridgeProtocol.DeclarationAcceptedIff | bridges/modules/messages/src/lib.rs:381-386 | the declared relayers state is accepted if and only if it gives the runs, the oldest run, the total and the last nonce of the deliveries the proved snapshot has not confirmed |
| BridgeProtocol.SecondConfirmationIsEmptyIffNoncesLast | bridges/modules/messages/src/outbound_lane.rs:141-146 | confirming the same snapshot twice confirms nothing the second time, exactly while nonces last |
| BridgeProtocol.LastNonceIsConfirmedAgain | bridges/modules/messages/src/outbound_lane.rs:141-158 | the concrete lane at nonce 2^64 - 1 for which confirming again pays again, or fails |
| BridgeProtocol.PruningLosesNothing | bridges/modules/messages/src/outbound_lane.rs:169-179 | the stored payloads are exactly the unconfirmed ones, so no undelivered message is ever removed |
| BridgeProtocol.QueueEncodesDeliveries | bridges/modules/messages/src/inbound_lane.rs:160-229 | in every reachable state the relayers queue is canonical, truthful, reaches the last dispatched nonce, and obeys both limits |
| BridgeProtocol.ProvedMessagesWereSent | bridges/modules/messages/src/proofs.rs:46-102 | whatever a verified proof carries agrees with the send log, and reports no more confirmations than the source has |
| BridgeProtocol.HonestConfirmation | bridges/modules/messages/src/lib.rs:362-446 | confirming the present inbound end brings the source up to date |
| BridgeProtocol.TwoHonestStepsEmptyTheQueue | bridges/modules/messages/src/inbound_lane.rs:160-182 | a confirmation followed by a proof of the outbound state empties the relayers queue |
| BridgeProtocol.QueueCanAlwaysBeEmptied | bridges/modules/messages/src/inbound_lane.rs:160-182 | from every reachable state two steps empty the relayers queue and lose no message |
| BridgeProtocol.HonestDelivery | bridges/modules/messages/src/inbound_lane.rs:186-229 | with an empty queue and non-zero limits the next message gets through |
| BridgeProtocol.EverythingGetsDelivered | bridges/modules/messages/src/inbound_lane.rs:197-206 | honest rounds deliver every sent message; the measure is the number of undelivered messages |
| BridgeProtocol.ZeroLimitDeliversNothing | bridges/modules/messages/src/inbound_lane.rs:197-206 | with a zero limit no continuation delivers anything |
| BridgeProtocol.NoDeadlockIffLimitsAllow | bridges/modules/messages/src/inbound_lane.rs:197-206 | from a reachable state everything sent can still be delivered if and only if nothing was sent or both limits are at least one |
| DeliveryRecord.EncodeIsUnique | bridges/primitives/messages/src/lib.rs:203-235 | a relayers queue is the encoding of the delivery record if and only if it is canonical, truthful and covers the range |
| DeliveryRecord.EncodeIsCanonical | bridges/modules/messages/src/inbound_lane.rs:209-226 | entries of an encoded record are non-empty and consecutive, adjacent relayers differ, and the last nonce is the last delivered one |
| DeliveryRecord.CoveredOnce | bridges/primitives/messages/src/lib.rs:392-420 | every nonce of a canonical queue lies in exactly one entry |
| DeliveryRecord.OldestEntryIsFirstRun | bridges/primitives/messages/src/lib.rs:426-461 | the oldest entry covers exactly the first run of one relayer |
| DeliveryRecord.EncodeLength | bridges/primitives/messages/src/lib.rs:426-461 | the number of entries is the number of runs in the record |
| DeliveryRecord.PrunedDropsPrefix | bridges/modules/messages/src/inbound_lane.rs:160-178 | pruning the queue up to a nonce leaves exactly the encoding of the later nonces |
| DeliveryRecord.PrunedPushed | bridges/modules/messages/src/inbound_lane.rs:160-226 | confirming and delivering commute |
| DeliveryRecord.RewardsCountDeliveries | bridges/primitives/messages/src/lib.rs:508-526 | rewards computed from the encoding count, per relayer, the rewarded nonces it delivered |
| InboundLanes.InboundLane.ReceiveStateUpdate | bridges/modules/messages/src/inbound_lane.rs:145-183 | takes over confirmations by pruning the queue, or changes nothing; storage and cached copy stay equal |
| InboundLanes.InboundLane.ReceiveMessage | bridges/modules/messages/src/inbound_lane.rs:186-229 | dispatches the next message and records its relayer, or says which check refused it and changes nothing |
| InboundLanes.InboundLane.SetData | bridges/modules/messages/src/lanes_manager.rs:219-222 | the cached copy and the stored lane are equal afterwards, other lanes untouched |
| InboundLanes.OpenInboundLane | bridges/modules/messages/src/lanes_manager.rs:146-179 | which lanes open, which error otherwise, and that the handle starts in sync |
| InboundLanes.ReceivedRepresents | bridges/modules/messages/src/inbound_lane.rs:186-229 | accepting a message appends one relayer to the delivery record and keeps both limits |
| InboundLanes.StateUpdatedRepresents | bridges/modules/messages/src/inbound_lane.rs:145-183 | a state update drops a prefix of the record and leaves the last delivered nonce unchanged |
| InboundLanes.StateIsSummaryIff | bridges/primitives/messages/src/lib.rs:441-461 | the relayers state of a queue is the one and only summary of the delivery record: number of runs, length of the oldest run, total, last nonce |
| OutboundLanes.OutboundLane.SendMessage | bridges/modules/messages/src/outbound_lane.rs:123-132 | stores the payload under the next nonce and advances the lane; seen from the lane it is the send step of the run models |
| OutboundLanes.OutboundLane.ConfirmDelivery | bridges/modules/messages/src/outbound_lane.rs:135-179 | the outcome, the advanced lane, and that exactly the confirmed payloads of this lane are removed; an error changes nothing; seen from the lane it is the confirm step of the run models |
| OutboundLanes.OutboundLane.RemoveOldestUnprunedMessage | bridges/modules/messages/src/outbound_lane.rs:182-187 | removes one payload of this lane and advances the oldest unpruned nonce; seen from the lane it is the remove step of the run models |
| OutboundLanes.OutboundLane.SetData | bridges/modules/messages/src/lanes_manager.rs:262-265 | the cached copy and the stored lane are equal afterwards, other lanes untouched |
| OutboundLanes.OpenOutboundLane | bridges/modules/messages/src/lanes_manager.rs:239-247 | which lanes open, which error otherwise, and that the handle starts in sync |
| OutboundLanes.EnsureUnrewardedRelayersAreCorrect | bridges/modules/messages/src/outbound_lane.rs:199-224 | the loop reports the first malformed entry |
| OutboundLanes.FirstProblemIsSound | bridges/modules/messages/src/outbound_lane.rs:199-224 | no problem is reported if and only if every entry is non-empty, consecutive and not in the future |
| OutboundLanes.AcceptedIffWellFormed | bridges/modules/messages/src/outbound_lane.rs:199-224 | a relayers queue passes the check if and only if its entries are non-empty, each begins right after the one before, and none reaches beyond the latest nonce |
| OutboundLanes.ProblemNamesItsCause | bridges/modules/messages/src/outbound_lane.rs:199-224 | the reported error is what is wrong with the first entry that has a problem |
| OutboundLanes.ConfirmationIff | bridges/modules/messages/src/outbound_lane.rs:135-179 | while nonces last, a confirmation succeeds if and only if the nonces were sent, are no more than allowed and the queue is well-formed, and when each error is returned |
| OutboundLanes.EncodedQueueIsCorrect | bridges/modules/messages/src/outbound_lane.rs:199-224 | the queue kept by an inbound lane always passes the check |
| OutboundLanes.PruningIsComplete | bridges/modules/messages/src/lib.rs:623-664 | for any run that removes only queued messages there is no payload below the oldest unpruned nonce, so the try-state window check passes |
| OutboundLanes.TryStateSeesPayload | bridges/modules/messages/src/lib.rs:636-650 | the try-state check sees a stray payload if and only if it is at most 17 nonces below the oldest unpruned one |
| OutboundLanes.RemoveOldestSafeIffQueued | bridges/modules/messages/src/outbound_lane.rs:182-187 | removing is safe for the next message if and only if something is queued |
| OutboundLanes.RemoveOldestOnEmptyQueue | bridges/modules/messages/src/outbound_lane.rs:182-187 | the concrete run that leaves a payload below the oldest unpruned nonce and fails the try-state check |
| LaneStorage.WithoutRangeByLane | bridges/modules/messages/src/lanes_manager.rs:280-282 | removing a range of one lane leaves every other lane alone |
| LaneStorage.SavedByLane | bridges/modules/messages/src/lanes_manager.rs:273-278 | saving a message changes one nonce of one lane |
| LaneStorage.RemovedByLane | bridges/modules/messages/src/lanes_manager.rs:280-282 | removing a message changes one nonce of one lane |
| LaneHandles.CachedIsStored | bridges/modules/messages/src/lanes_manager.rs:237-265 | if every operation through another handle came before a handle was opened, its cached copy is the stored lane before and after each of its operations |
| LaneHandles.NoncesAreNeverReused | bridges/modules/messages/src/lib.rs:685-727 | for such runs, at every point, accepted messages have nonces 1, 2, 3, ... and each stored payload is the one accepted under its nonce |
| LaneHandles.SendIsFreshIffUpToDate | bridges/modules/messages/src/lib.rs:685-727 | after any run, however handles interleave, a send takes a fresh nonce if and only if the cached copy knows the largest nonce ever accepted; then no payload is overwritten |
| LaneHandles.StaleHandleReusesNonce | bridges/modules/messages/src/lib.rs:704-727 | the concrete run in which two handles send under one nonce and a payload is overwritten |
| LaneHandles.InSyncHandleReusesNonce | bridges/modules/messages/src/lib.rs:704-727 | the concrete run in which a handle that is in sync reuses a nonce, after a stale one moved the lane back |
| MessagesPallet.VerifyMessagesProof | bridges/modules/messages/src/proofs.rs:46-102 | the loop reads the claimed range at the snapshot, with the error of the first failing check |
| MessagesPallet.ReadMessagesYields | bridges/modules/messages/src/proofs.rs:66-82 | a proof that reads successfully yields exactly the claimed nonces with their stored payloads |
| MessagesPallet.ReadMessagesSucceeds | bridges/modules/messages/src/proofs.rs:66-82 | reading succeeds when every claimed nonce is covered and stored |
| MessagesPallet.VerifiesIffProves | bridges/modules/messages/src/proofs.rs:46-102 | a messages proof verifies if and only if it covers and stores exactly the claimed range, with nothing else in it and not empty; then it yields exactly that, and otherwise the error names what is wrong |
| MessagesPallet.ReceiveNext | bridges/modules/messages/src/lib.rs:286-332 | one turn of the delivery loop: the weight check, the lane's answer and the weight accounting |
| MessagesPallet.ConfirmationCallSucceedsIff | bridges/modules/messages/src/lib.rs:362-446 | when a confirmation call succeeds, and that each error names what is wrong |
| MessagesPallet.ReceiveMessagesProof | bridges/modules/messages/src/lib.rs:214-354 | the outcome of a delivery call, the new lane and dispatch log; a failing call changes nothing |
| MessagesPallet.ReceiveBatch | bridges/modules/messages/src/lib.rs:286-332 | the delivery loop computes the batch step by step on the lane object |
| MessagesPallet.CalcRelayersRewards | bridges/primitives/messages/src/lib.rs:508-526 | the reward map has exactly the relayers with a non-zero share, with their shares |
| MessagesPallet.ReceiveMessagesDeliveryProof | bridges/modules/messages/src/lib.rs:362-446 | the outcome of a confirmation call, the new lane, the removed payloads and the rewards; a failing call changes nothing |
| BatchDelivery.BatchClosedForm | bridges/modules/messages/src/lib.rs:286-332 | how many messages of a batch are dispatched, which ones, and why each other one is refused, from range overlap, headroom and relayer slots alone |
| BatchDelivery.AcceptedStep | bridges/modules/messages/src/inbound_lane.rs:193-226 | the closed form grows by one exactly when the lane does not refuse the next message |
| BatchDelivery.BatchConservesWeight | bridges/modules/messages/src/lib.rs:286-332 | weight left plus weight spent is the declared weight, with no underflow |
| BatchDelivery.EnoughWeightSuffices | bridges/modules/messages/src/lib.rs:286-300 | declaring the sum of the dispatch weights is always enough (the exact condition is `InsufficientWeightIff`) |
| BatchDelivery.InsufficientWeightIff | bridges/modules/messages/src/lib.rs:286-332 | a batch fails for lack of weight if and only if some message, accepted or refused, does not fit beside what the accepted ones before it cost |
| BatchDelivery.DeliverySucceedsIff | bridges/modules/messages/src/lib.rs:214-354 | a delivery to a reachable lane succeeds if and only if the pallet is not halted, the proof is not too long and proves what it claims, the lane and dispatcher are active, and every message can be paid for |
| BatchDelivery.DeliveryErrorNamesItsCause | bridges/modules/messages/src/lib.rs:214-354 | each error of a delivery call names something that is really wrong |
| CallExt.DeliverySuccessIsExact | bridges/modules/messages/src/call_ext.rs:42-70 | a checked non-empty delivery is reported successful if and only if every bundled message was dispatched |
| CallExt.EmptyDeliverySuccessIsExact | bridges/modules/messages/src/call_ext.rs:42-70 | a checked empty delivery is reported successful if and only if it brought new confirmations |
| CallExt.ConfirmationSuccessIsExact | bridges/modules/messages/src/call_ext.rs:42-70 | a checked confirmation is reported successful if and only if the call succeeded |
| CallExt.FreedRelayerSlotsFreeMessageSlots | bridges/modules/messages/src/call_ext.rs:46-60 | a state update that frees relayer slots frees message slots too |
| CallExt.DeliveryLetThroughIff | bridges/modules/messages/src/call_ext.rs:188-245 | a delivery is let through if and only if the pallet and dispatcher work and it either starts right after the last delivered nonce, or is empty while a limit is reached |
| CallExt.ConfirmationLetThroughIff | bridges/modules/messages/src/call_ext.rs:188-227 | a confirmation is let through if and only if the pallet works and it declares something new delivered |
| CallExt.RefusalSaysWhy | bridges/modules/messages/src/call_ext.rs:188-227 | a refusal is invalid when halted and stale otherwise; calls for unknown lanes pass and are never reported successful |
| HonestCalls.ConfirmationIsLetThroughIff | bridges/modules/messages/src/call_ext.rs:188-227 | in every reachable state, confirming the present inbound end is let through if and only if there is something to confirm |
| HonestCalls.NextDeliveryIsLetThrough | bridges/modules/messages/src/call_ext.rs:188-227 | in every reachable state, delivering the next message is let through |
| HonestCalls.StateOnlyIsLetThroughIff | bridges/modules/messages/src/call_ext.rs:188-245 | in every reachable state, bringing only confirmations is let through if and only if a limit keeps messages out |
| RingBuffer.RingInsert | bridges/modules/grandpa/src/lib.rs:704-720 | the slot about to be overwritten holds exactly the insertion that leaves the window |
| RingBuffer.WindowInsert | bridges/modules/grandpa/src/lib.rs:704-720 | with distinct keys an insertion moves the window by one key |
| Grandpa.GrandpaPallet.SubmitFinalityProofEx | bridges/modules/grandpa/src/lib.rs:284-363 | which error, or the new state and whether the call is refunded; a failing call changes nothing |
| Grandpa.GrandpaPallet.TryEnactAuthorityChange | bridges/modules/grandpa/src/lib.rs:611-642 | succeeds if and only if no forced change comes first and the first scheduled change, if any, has no delay and fits; then that change is installed under the next set id, and without one the set stays |
| Grandpa.FirstChangeIsFound | bridges/primitives/header-chain/src/lib.rs:171-183 | what is found is the first scheduled change of the digest, and nothing if and only if there is none |
| Grandpa.EnactsIffAcceptable | bridges/modules/grandpa/src/lib.rs:611-642 | enacting fails if and only if the digest items are not acceptable, and the error says why |
| Grandpa.GrandpaPallet.SaveAuthoritiesSet | bridges/modules/grandpa/src/lib.rs:645-668 | the set is replaced unless it is too large |
| Grandpa.GrandpaPallet.InsertHeader | bridges/modules/grandpa/src/lib.rs:704-720 | the header becomes the best, takes a ring slot, and the header of that slot is pruned |
| Grandpa.GrandpaPallet.ForceSetPalletState | bridges/modules/grandpa/src/lib.rs:376-399 | authority set and best header are replaced, or nothing changes |
| Grandpa.GrandpaPallet.Initialize | bridges/modules/grandpa/src/lib.rs:724-750 | only an uninitialized pallet takes the initial header and set |
| GrandpaRuns.NoOrphanHeaders | bridges/modules/grandpa/src/lib.rs:704-720 | after any run, forced changes included, every stored header has a ring slot and at most HeadersToKeep are stored |
| GrandpaRuns.RingAndMapAgree | bridges/modules/grandpa/src/lib.rs:704-750 | without forced changes exactly the last HeadersToKeep headers are stored, with their data, the best one among them |
| GrandpaRuns.BestIsStoredIff | bridges/modules/grandpa/src/lib.rs:704-720 | after any run, forced changes included, the best header is stored if and only if its insertion did not prune a header with the same hash |
| GrandpaRuns.ForcedTwiceLosesBest | bridges/modules/grandpa/src/lib.rs:376-399 | forcing one header twice into a one-slot ring leaves the best header unstored |
| GrandpaRuns.ChainOfTrust | bridges/modules/grandpa/src/lib.rs:291-323 | since the latest initialization or forced change: numbers increase, each header was justified by the set in force before it, a header whose digest schedules a change installs the named set under the next id, any other leaves the set, and the id counts the changes |
| GrandpaRuns.FreePromiseKeptIff | bridges/modules/grandpa/src/call_ext.rs:75-126 | a submission let through as free is refunded if and only if it runs in a block and is mandatory or under a configured interval |
| GrandpaRuns.FreeHeadersAreBounded | bridges/modules/grandpa/src/lib.rs:153-160 | the free-headers counter exists exactly between the two block hooks, and there the headers left and those refunded add up to MaxFreeHeadersPerBlock |
| GrandpaRuns.RefundedIff | bridges/modules/grandpa/src/lib.rs:549-602 | over any run a successful submission is refunded if and only if a block is open, a free header is left, it fits the limits, and it is mandatory or far enough ahead |
| GrandpaRuns.SubmissionSuccessIsExact | bridges/modules/grandpa/src/call_ext.rs:180-185 | after a checked submission the best number is the submitted one if and only if the call succeeded |
| GrandpaCalls.SubmitSucceedsIff | bridges/modules/grandpa/src/lib.rs:284-363 | after any run a submission succeeds if and only if the pallet is running, the header is newer than the chain, the set id is the counted one, the set in force justifies it, and its digest is acceptable |
| GrandpaCalls.SubmitErrorNamesItsCause | bridges/modules/grandpa/src/lib.rs:284-363 | each error of a submission names something that is really wrong |
| GrandpaCalls.InitializeSucceedsIff | bridges/modules/grandpa/src/lib.rs:212-229 | an initialization succeeds if and only if nothing was ever stored and its authority set fits |
| GrandpaCalls.ExtensionLetsThroughIff | bridges/modules/grandpa/src/call_ext.rs:135-177 | without a claim to be free, exactly headers newer than the chain under the current set id pass, with their exact improvement |
| GrandpaCalls.ExtensionAgreesWithRefund | bridges/modules/grandpa/src/call_ext.rs:75-126 | inside a block, for a set-changing header or under a configured interval, a submission that would succeed passes as free if and only if the call refunds it |
| GrandpaRuns.ForcedChangeRefusedIffFirst | bridges/primitives/header-chain/src/lib.rs:171-196 | a header with a forced change is refused if and only if that change is its first GRANDPA item or its scheduled change is unacceptable |
| GrandpaRuns.ForcedChangeBehindOtherIsAccepted | bridges/primitives/header-chain/src/lib.rs:187-196 | the concrete digest whose forced change is not refused |
| Beefy.VerifySignatures | bridges/modules/beefy/src/utils.rs:59-94 | the early-exit loop accepts if and only if fewer than a third of the positions lack a correct signature |
| Beefy.ThirdMayBeMissing | bridges/modules/beefy/src/utils.rs:55-94 | a commitment passes the signature check if and only if at most (n - 1) / 3 positions lack a correct signature |
| Beefy.AcceptedIffQuorate | bridges/modules/beefy/src/utils.rs:107-126 | a commitment is accepted if and only if it is for the known set, a quorum of that set signed, and it carries a root; an error names what is wrong |
| Beefy.VerifyCommitment | bridges/modules/beefy/src/utils.rs:107-126 | which check refuses a commitment, and the MMR root otherwise |
| Beefy.QuorumsIntersect | bridges/modules/beefy/src/utils.rs:55-94 | two accepted commitments of one authority set share more than a third of the positions |
| Beefy.OneCommitmentPerBlock | bridges/modules/beefy/src/utils.rs:107-126 | if no signature is forged and at most a third of the positions produce signatures of two commitments for the block, only one commitment for it can be accepted |
| Beefy.BeefyPallet.SubmitCommitment | bridges/modules/beefy/src/lib.rs:202-275 | which error, or the new state: the announced authority set if its id is larger, the stored commitment, the pruned one; a failing call changes nothing |
| Beefy.BeefyPallet.Initialize | bridges/modules/beefy/src/lib.rs:390-405 | only an uninitialized pallet takes a non-empty initial set |
| BeefyRuns.RingAndMapAgree | bridges/modules/beefy/src/lib.rs:217-266 | exactly the last CommitmentsToKeep commitments are stored, with their data, numbers increase, and the best one is stored |
| BeefyRuns.ImportsAreQuorate | bridges/modules/beefy/src/lib.rs:202-275 | each import carries a quorum of the set in force before it, which is the first set announced under the largest id by a leaf proved by an imported root, or the initial set; set ids never go back |
| BeefyRuns.ImportsAreRateLimited | bridges/modules/beefy/src/lib.rs:134-140 | over any stretch of a run the imports are at most MaxRequests less the requests pending at its start, plus one per block begun |
| BeefyRuns.BacklogIsTight | bridges/modules/beefy/src/lib.rs:134-140 | the pending requests are exactly what some stretch ending now imported beyond one per block |
| BeefyRuns.ImportsAreNewer | bridges/modules/beefy/src/lib.rs:390-405 | every import is newer than the initial block, and the best block is the last import or the initial one |
| BeefyCalls.SubmitSucceedsIff | bridges/modules/beefy/src/lib.rs:202-275 | after any run a submission succeeds if and only if the pallet is running, every stretch leaves room, the commitment is newer, and it is trusted by the set in force |
| BeefyCalls.SubmitProblemNamesItsCause | bridges/modules/beefy/src/lib.rs:202-275 | each error of a submission names something that is really wrong |
| BeefyCalls.InitSucceedsIff | bridges/modules/beefy/src/lib.rs:390-405 | an initialization succeeds if and only if none did before and its authority set is not empty |
| StatementTable.Table.ImportStatement | polkadot/statement-table/src/generic.rs:320-343 | the new table and summary; misbehavior is appended to the sender's list |
| StatementTable.Table.ImportCandidate | polkadot/statement-table/src/generic.rs:362-416 | a seconded candidate becomes known and gets the implicit vote, unless the sender is outside the given group |
| StatementTable.Table.CastValidityVote | polkadot/statement-table/src/generic.rs:418-479 | a vote is recorded once; a vote from outside the group or a different second vote is an error and changes nothing |
| StatementTable.Table.DrainMisbehaviors | polkadot/statement-table/src/generic.rs:358-360 | empties the map and lists every entry exactly once |
| StatementRuns.TableKnows | polkadot/statement-table/src/generic.rs:374-413 | after any run the known candidates are exactly those seconded by a member of the given group, under the group and candidate seconded first |
| StatementRuns.ProposedIffSeconded | polkadot/statement-table/src/generic.rs:381-402 | the table notes a proposal if and only if the authority seconded the candidate as a member of the given group |
| StatementRuns.TableHoldsBallot | polkadot/statement-table/src/generic.rs:418-479 | after any run the stored votes are each authority's first statement that counts |
| StatementRuns.VotedIffCounted | polkadot/statement-table/src/generic.rs:418-479 | an authority has a stored vote if and only if some statement of it counts |
| StatementRuns.SummaryIsExact | polkadot/statement-table/src/generic.rs:253-259 | a summary is returned if and only if this is the authority's first statement that counts, with the exact number of votes |
| StatementRuns.AccusedIffMisbehaved | polkadot/statement-table/src/generic.rs:320-343 | an authority was accused if and only if it made an unauthorized statement or two different votes on one known candidate |
| StatementRuns.EvidenceIsGenuineIff | polkadot/statement-table/src/generic.rs:418-479 | all recorded evidence names statements imported from the accused, if and only if no misfiled statement passes for a vote that was not imported |
| StatementRuns.EvidenceIsGenuineIffNoneMisfiled | polkadot/statement-table/src/generic.rs:418-479 | when no signature serves two statements, all recorded evidence is genuine if and only if no authority seconds, under its own group, a candidate that is known under a group it is not in |
| StatementRuns.EvidenceIsGenuine | polkadot/statement-table/src/generic.rs:362-479 | when the group follows from the candidate, all recorded evidence is genuine |
| StatementRuns.MisfiledEvidence | polkadot/statement-table/src/generic.rs:429-443 | a candidate seconded under two groups yields evidence of a vote never cast |
| StatementRuns.AttestedIffBacked | polkadot/statement-table/src/generic.rs:298-311 | a candidate is attested if and only if it is known and its whole group or at least the minimum voted for it, with exactly those voters and the candidate seconded first |
| StatementRuns.AttestationsAreReceived | polkadot/statement-table/src/generic.rs:226-251 | each attestation carries the signature of a statement imported from a member of the candidate's group |
| StatementRuns.TableHoldsPending | polkadot/statement-table/src/generic.rs:334-341 | the table holds, per authority and in order, the misbehavior recorded since the last drain, and no empty list |
| MisbehaviorDrain.DrainMisbehaviors.MaybeItem | polkadot/statement-table/src/generic.rs:500-523 | pops the next misbehavior of the current entry in recording order |
| MisbehaviorDrain.DrainMisbehaviors.Next | polkadot/statement-table/src/generic.rs:525-539 | yields the next item, moving to the next entry when needed; an empty entry ends the iteration early |
| MisbehaviorDrain.Consume | polkadot/statement-table/src/generic.rs:525-539 | iterating to the first None collects everything before the first empty entry |
| MisbehaviorDrain.YieldsEverythingIffNoGap | polkadot/statement-table/src/generic.rs:525-539 | the iteration yields everything drained if and only if no empty list precedes a non-empty one |
| MisbehaviorDrain.DrainsEverythingOnce | polkadot/statement-table/src/generic.rs:482-539 | after any run and for any map order, each authority's recorded misbehavior is yielded once, in recording order |

## Left out

- Storage-trie, justification, MMR and signature verification: parameters of the model.
- Closing, purging, re-creating and migrating lanes, and lane creation: they reset nonces.
- Message size limits, origins, owner checks, fees, events and logging.
- The weight a call returns (`actual_weight`) and its refunds; only the dispatch weight is modelled. The `relayers_state` size checks around it are left out too.
- The amounts paid per message and the payment adapters; rewards are numbers of messages.
- Several lanes in one two-chain run: lanes share no state beyond the maps, and `WithoutRangeByLane` and `SavedByLane` say that operations on one leave the others alone.
- The deprecated `submit_finality_proof` call, which forwards to the modelled one.
- 64-bit overflow of the GRANDPA set id, and 32-bit overflow of ring indices and request counts.
- BatchDelivery.EnoughWeightSuffices: a sufficient condition only; `InsufficientWeightIff` is the exact one.
- OutboundLanes.OutboundLane.SendMessage: generating a nonce beyond 2^64 - 1 overflows in the source, so it is a precondition here; in runs such a send changes nothing.
- OutboundLanes.OutboundLane.RemoveOldestUnprunedMessage: the same at the last nonce.
- Parachains pallet, XCM, erasure coding, command line, RPC and build scripts.
