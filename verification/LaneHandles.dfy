/** Several handles on one outbound lane, each with its own cached copy of the lane data. */
module LaneHandles {
  import opened LaneTypes
  import opened LaneStorage
  import opened OutboundLanes

  datatype Accepted = Accepted(nonce: nat, payload: Payload)

  /** One lane in storage, the cached copies of the handles opened on it, and every accepted message. */
  datatype Shared = Shared(stored: LaneQueue, handles: seq<OutboundLaneData>, accepted: seq<Accepted>)

  const NEW_SHARED := Shared(NEW_QUEUE, [], [])

  /** A handle is opened (the i-th opening opens handle i), or an operation is performed through a handle. */
  datatype HandleStep = Open | Through(handle: nat, step: QueueStep)

  /** An operation reads the cached copy; if it goes through, it writes both the copy and the storage. */
  function ApplyHandleStep(s: Shared, h: HandleStep): Shared {
    match h
    case Open => s.(handles := s.handles + [s.stored.data])
    case Through(i, step) =>
      if i >= |s.handles| || !Performs(LaneQueue(s.handles[i], s.stored.messages), step) then s
      else
        var after := ApplyStep(LaneQueue(s.handles[i], s.stored.messages), step);
        var written := s.(stored := after, handles := s.handles[i := after.data]);
        if step.Send? then
          written.(accepted := s.accepted + [Accepted(after.data.latestGeneratedNonce, step.payload)])
        else written
  }

  /** The lane after the first `k` steps. */
  function After(steps: seq<HandleStep>, k: nat): Shared
    requires k <= |steps|
  {
    if k == 0 then NEW_SHARED else ApplyHandleStep(After(steps, k - 1), steps[k - 1])
  }

  // ---- Any run -------------------------------------------------------------------------------

  /** The largest nonce under which a message was ever accepted. */
  function MaxAccepted(accepted: seq<Accepted>): nat {
    if accepted == [] then 0
    else Max(MaxAccepted(accepted[..|accepted| - 1]), accepted[|accepted| - 1].nonce)
  }

  predicate WasAccepted(accepted: seq<Accepted>, nonce: nat) {
    exists k :: 0 <= k < |accepted| && accepted[k].nonce == nonce
  }

  lemma MaxAppended(accepted: seq<Accepted>, m: Accepted)
    ensures MaxAccepted(accepted + [m]) == Max(MaxAccepted(accepted), m.nonce)
  {
    assert (accepted + [m])[..|accepted|] == accepted;
  }

  lemma AcceptedAppended(accepted: seq<Accepted>, m: Accepted, nonce: nat)
    ensures WasAccepted(accepted + [m], nonce) <==> WasAccepted(accepted, nonce) || m.nonce == nonce
  {
    if WasAccepted(accepted, nonce) {
      var k :| 0 <= k < |accepted| && accepted[k].nonce == nonce;
      assert (accepted + [m])[k].nonce == nonce;
    }
    if m.nonce == nonce { assert (accepted + [m])[|accepted|].nonce == nonce; }
  }

  /** The accepted nonces are 1 up to their maximum, and no copy of the lane is beyond it. */
  ghost predicate Bounded(s: Shared) {
    var max := MaxAccepted(s.accepted);
    && max <= MAX_NONCE
    && (forall n: nat :: WasAccepted(s.accepted, n) <==> 1 <= n <= max)
    && s.stored.data.latestGeneratedNonce <= max
    && (forall n :: n in s.stored.messages ==> n <= max)
    && (forall i :: 0 <= i < |s.handles| ==> s.handles[i].latestGeneratedNonce <= max)
  }

  lemma SendKeepsBounded(s: Shared, i: nat, payload: Payload)
    requires Bounded(s) && i < |s.handles|
    ensures Bounded(ApplyHandleStep(s, Through(i, Send(payload))))
  {
    var m := Accepted(s.handles[i].latestGeneratedNonce + 1, payload);
    MaxAppended(s.accepted, m);
    forall n: nat ensures WasAccepted(s.accepted + [m], n) <==> WasAccepted(s.accepted, n) || m.nonce == n {
      AcceptedAppended(s.accepted, m, n);
    }
  }

  lemma StepKeepsBounded(s: Shared, h: HandleStep)
    requires Bounded(s)
    ensures Bounded(ApplyHandleStep(s, h))
  {
    if h.Through? && h.handle < |s.handles| && h.step.Send? { SendKeepsBounded(s, h.handle, h.step.payload); }
  }

  lemma {:induction false} RunKeepsBounded(steps: seq<HandleStep>, k: nat)
    requires k <= |steps|
    ensures Bounded(After(steps, k))
  {
    if k == 0 {
    } else {
      RunKeepsBounded(steps, k - 1);
      StepKeepsBounded(After(steps, k - 1), steps[k - 1]);
    }
  }

  /**
    After any run, however the handles interleave: a send through a handle takes a fresh nonce if and only
    if the handle's copy knows the largest nonce ever accepted. A fresh send overwrites no payload.
   */
  lemma SendIsFreshIffUpToDate(steps: seq<HandleStep>, i: nat, payload: Payload)
    requires i < |After(steps, |steps|).handles|
    requires After(steps, |steps|).handles[i].latestGeneratedNonce < MAX_NONCE
    ensures var s := After(steps, |steps|);
            var t := ApplyHandleStep(s, Through(i, Send(payload)));
            var nonce := s.handles[i].latestGeneratedNonce + 1;
            && t.accepted == s.accepted + [Accepted(nonce, payload)]
            && (!WasAccepted(s.accepted, nonce) <==>
                s.handles[i].latestGeneratedNonce == MaxAccepted(s.accepted))
            && (!WasAccepted(s.accepted, nonce) ==> forall n :: n in s.stored.messages ==>
                  n in t.stored.messages && t.stored.messages[n] == s.stored.messages[n])
  {
    RunKeepsBounded(steps, |steps|);
  }

  // ---- Runs without interleaving -------------------------------------------------------------

  /** How many of the first `k` steps open a handle. */
  function Opens(steps: seq<HandleStep>, k: nat): nat
    requires k <= |steps|
  {
    if k == 0 then 0 else Opens(steps, k - 1) + if steps[k - 1].Open? then 1 else 0
  }

  /** The k-th step goes through a handle that is open by then. */
  predicate Operates(steps: seq<HandleStep>, k: nat)
    requires k < |steps|
  {
    steps[k].Through? && steps[k].handle < Opens(steps, k)
  }

  /** Whenever a handle operates, every earlier operation through another handle came before it was opened. */
  ghost predicate NotInterleaved(steps: seq<HandleStep>) {
    forall a: nat, k: nat | a < k < |steps| && Operates(steps, a) && Operates(steps, k) ::
      steps[a].handle != steps[k].handle ==> Opens(steps, a) <= steps[k].handle
  }

  /** The handle's cached copy is what is stored. */
  predicate InSync(s: Shared, i: nat) { i < |s.handles| && s.handles[i] == s.stored.data }

  lemma {:induction false} HandlesAreOpens(steps: seq<HandleStep>, k: nat)
    requires k <= |steps|
    ensures |After(steps, k).handles| == Opens(steps, k)
  {
    if k == 0 {
    } else {
      HandlesAreOpens(steps, k - 1);
    }
  }

  /** A handle is in sync as long as no other handle has operated since it was opened. */
  lemma {:induction false} UndisturbedIsInSync(steps: seq<HandleStep>, k: nat, i: nat)
    requires k <= |steps| && i < Opens(steps, k)
    requires forall a: nat :: a < k && Operates(steps, a) && steps[a].handle != i ==> Opens(steps, a) <= i
    ensures InSync(After(steps, k), i)
  {
    HandlesAreOpens(steps, k - 1);
    if i < Opens(steps, k - 1) {
      UndisturbedIsInSync(steps, k - 1, i);
      assert steps[k - 1].Through? && steps[k - 1].handle != i ==> !Operates(steps, k - 1);
    }
  }

  /** Without interleaving, the cached copy is the stored lane before and after every operation. */
  lemma CachedIsStored(steps: seq<HandleStep>, k: nat)
    requires NotInterleaved(steps) && k < |steps| && Operates(steps, k)
    ensures InSync(After(steps, k), steps[k].handle) && InSync(After(steps, k + 1), steps[k].handle)
  {
    UndisturbedIsInSync(steps, k, steps[k].handle);
    UndisturbedIsInSync(steps, k + 1, steps[k].handle);
  }

  /** The accepted messages have nonces 1, 2, 3, ..., and each stored payload is the one accepted under its nonce. */
  ghost predicate Sequential(s: Shared) {
    && s.stored.data.latestGeneratedNonce == |s.accepted|
    && (forall k :: 0 <= k < |s.accepted| ==> s.accepted[k].nonce == k + 1)
    && (forall n :: n in s.stored.messages ==>
          1 <= n <= |s.accepted| && s.stored.messages[n] == s.accepted[n - 1].payload)
  }

  lemma SyncStepKeepsSequential(s: Shared, h: HandleStep)
    requires Sequential(s) && (h.Through? && h.handle < |s.handles| ==> InSync(s, h.handle))
    ensures Sequential(ApplyHandleStep(s, h))
  {
  }

  /** Without interleaving no nonce is used twice and no payload is ever overwritten, at any point of the run. */
  lemma {:induction false} NoncesAreNeverReused(steps: seq<HandleStep>, k: nat)
    requires NotInterleaved(steps) && k <= |steps|
    ensures Sequential(After(steps, k))
  {
    if k == 0 {
    } else {
      NoncesAreNeverReused(steps, k - 1);
      HandlesAreOpens(steps, k - 1);
      if Operates(steps, k - 1) { CachedIsStored(steps, k - 1); }
      SyncStepKeepsSequential(After(steps, k - 1), steps[k - 1]);
    }
  }

  // ---- What interleaving breaks --------------------------------------------------------------

  /** Two handles opened together both send under nonce 1, and the second payload replaces the first. */
  lemma StaleHandleReusesNonce(p: Payload, q: Payload)
    ensures var both := ApplyHandleStep(ApplyHandleStep(NEW_SHARED, Open), Open);
            var s := ApplyHandleStep(ApplyHandleStep(both, Through(0, Send(p))), Through(1, Send(q)));
            s.accepted == [Accepted(1, p), Accepted(1, q)] && s.stored.messages == map[1 := q]
  {
    var both := ApplyHandleStep(ApplyHandleStep(NEW_SHARED, Open), Open);
    var first := ApplyHandleStep(both, Through(0, Send(p)));
    assert first.accepted == [Accepted(1, p)] && first.stored.messages == map[1 := p];
    assert first.handles[1] == NEW_QUEUE.data;
  }

  /** Once a stale handle has moved the stored lane back, even a handle that is in sync reuses a nonce. */
  lemma InSyncHandleReusesNonce(p: Payload, q: Payload, r: Payload, v: Payload)
    ensures var both := ApplyHandleStep(ApplyHandleStep(NEW_SHARED, Open), Open);
            var two := ApplyHandleStep(ApplyHandleStep(both, Through(0, Send(p))), Through(0, Send(q)));
            var reopened := ApplyHandleStep(ApplyHandleStep(two, Through(1, Send(r))), Open);
            && InSync(reopened, 2)
            && ApplyHandleStep(reopened, Through(2, Send(v))).accepted ==
               [Accepted(1, p), Accepted(2, q), Accepted(1, r), Accepted(2, v)]
  {
    var both := ApplyHandleStep(ApplyHandleStep(NEW_SHARED, Open), Open);
    var one := ApplyHandleStep(both, Through(0, Send(p)));
    assert one.accepted == [Accepted(1, p)] && one.handles[1] == NEW_QUEUE.data;
    var two := ApplyHandleStep(one, Through(0, Send(q)));
    assert two.accepted == [Accepted(1, p), Accepted(2, q)] && two.handles[1] == NEW_QUEUE.data;
    var stale := ApplyHandleStep(two, Through(1, Send(r)));
    assert stale.accepted == [Accepted(1, p), Accepted(2, q), Accepted(1, r)];
    assert |stale.handles| == 2 && stale.stored.data.latestGeneratedNonce == 1;
  }
}
