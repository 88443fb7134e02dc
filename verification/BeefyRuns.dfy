/** What the BEEFY light client guarantees over whole runs of calls and blocks. */
module BeefyRuns {
  import opened Wrappers
  import opened RingBuffer
  import opened Beefy

  datatype Step =
    | Init(init: InitData)
    | Submit(signed: SignedCommitment, set_: AuthoritySet, leaf: MmrLeaf, proof: MmrProof)
    | SetHalted(halted: bool)
    | NewBlock

  datatype Import = Import(signed: SignedCommitment, set_: AuthoritySet, leaf: MmrLeaf, proof: MmrProof)

  datatype Trace = Trace(s: State, init: Option<InitData>, imports: seq<Import>, blocks: nat)

  function Apply(c: Config, t: Trace, step: Step): Trace {
    match step
    case Init(init) =>
      if InitProblem(t.s, init).Some? then t else t.(s := Initialized(t.s, init), init := Some(init))
    case Submit(signed, set_, leaf, proof) =>
      if SubmitProblem(c, t.s, signed, set_, leaf, proof).Some? then t
      else t.(s := Submitted(c, t.s, signed, leaf), imports := t.imports + [Import(signed, set_, leaf, proof)])
    case SetHalted(halted) => t.(s := t.s.(halted := halted))
    case NewBlock => t.(s := BlockBegun(t.s), blocks := t.blocks + 1)
  }

  function ApplyAll(c: Config, t: Trace, steps: seq<Step>): Trace {
    if steps == [] then t else Apply(c, ApplyAll(c, t, steps[..|steps| - 1]), steps[|steps| - 1])
  }

  function Start(halted: bool, authoritySet: AuthoritySetInfo): Trace {
    Trace(State(halted, 0, None, map[], map[], authoritySet), None, [], 0)
  }

  function Numbers(imports: seq<Import>): seq<nat> {
    if imports == [] then []
    else Numbers(imports[..|imports| - 1]) + [imports[|imports| - 1].signed.commitment.blockNumber]
  }

  lemma {:induction false} NumbersAt(imports: seq<Import>)
    ensures |Numbers(imports)| == |imports|
    ensures forall i :: 0 <= i < |imports| ==> Numbers(imports)[i] == imports[i].signed.commitment.blockNumber
  {
    if imports != [] { NumbersAt(imports[..|imports| - 1]); }
  }

  ghost predicate Ascending(numbers: seq<nat>) {
    forall i, j :: 0 <= i < j < |numbers| ==> numbers[i] < numbers[j]
  }

  ghost predicate StoredAt(c: Config, s: State, m: Import) {
    var number := m.signed.commitment.blockNumber;
    && number in s.commitments
    && c.mmrRootOf(m.signed.commitment.payload) == Some(s.commitments[number].mmrRoot)
    && s.commitments[number].parent == m.leaf.parent
  }

  /** Exactly the last CommitmentsToKeep commitments are stored, each with its own data. */
  ghost predicate StoredExactly(c: Config, s: State, imports: seq<Import>) {
    && s.commitments.Keys == Window(Numbers(imports), c.commitmentsToKeep)
    && forall i :: Oldest(|imports|, c.commitmentsToKeep) <= i < |imports| ==> StoredAt(c, s, imports[i])
  }

  ghost predicate StorageInv(c: Config, t: Trace) {
    && (t.s.info.None? ==> t.imports == [])
    && RingInv(t.s.blockNumbers, if t.s.info.Some? then t.s.info.value.nextBlockNumberIndex else 0,
               c.commitmentsToKeep, Numbers(t.imports))
    && Ascending(Numbers(t.imports))
    && (t.imports != [] ==> t.s.info.value.bestBlockNumber == t.imports[|t.imports| - 1].signed.commitment.blockNumber)
    && StoredExactly(c, t.s, t.imports)
  }

  lemma NumbersAppend(imports: seq<Import>, m: Import)
    ensures Numbers(imports + [m]) == Numbers(imports) + [m.signed.commitment.blockNumber]
  {
    assert (imports + [m])[..|imports + [m]| - 1] == imports;
  }

  /** A successful submission moves the stored window by one commitment. */
  lemma SubmitKeepsStored(c: Config, t: Trace, m: Import)
    requires t.s.info.Some? && c.mmrRootOf(m.signed.commitment.payload).Some?
    requires RingInv(t.s.blockNumbers, t.s.info.value.nextBlockNumberIndex, c.commitmentsToKeep, Numbers(t.imports))
    requires Ascending(Numbers(t.imports + [m])) && StoredExactly(c, t.s, t.imports)
    ensures var s := Submitted(c, t.s, m.signed, m.leaf);
            && RingInv(s.blockNumbers, s.info.value.nextBlockNumberIndex, c.commitmentsToKeep, Numbers(t.imports + [m]))
            && StoredExactly(c, s, t.imports + [m])
  {
    var log, keep, number := Numbers(t.imports), c.commitmentsToKeep, m.signed.commitment.blockNumber;
    NumbersAppend(t.imports, m);
    RingInsert(t.s.blockNumbers, t.s.info.value.nextBlockNumberIndex, keep, log, number);
    WindowInsert(log, keep, number);
    var s := Submitted(c, t.s, m.signed, m.leaf);
    assert s.commitments.Keys == Window(log + [number], keep);
    forall i | Oldest(|t.imports| + 1, keep) <= i <= |t.imports| ensures StoredAt(c, s, (t.imports + [m])[i]) {
      SubmittedDataAt(c, t, m, i);
    }
  }

  lemma SubmittedDataAt(c: Config, t: Trace, m: Import, i: nat)
    requires t.s.info.Some? && c.mmrRootOf(m.signed.commitment.payload).Some?
    requires Ascending(Numbers(t.imports + [m])) && StoredExactly(c, t.s, t.imports)
    requires Oldest(|t.imports| + 1, c.commitmentsToKeep) <= i <= |t.imports|
    requires Submitted(c, t.s, m.signed, m.leaf).commitments.Keys ==
             Window(Numbers(t.imports + [m]), c.commitmentsToKeep)
    ensures StoredAt(c, Submitted(c, t.s, m.signed, m.leaf), (t.imports + [m])[i])
  {
    var all := t.imports + [m];
    NumbersAt(all);
    assert Numbers(all)[i] in Window(Numbers(all), c.commitmentsToKeep);
    if i < |t.imports| {
      assert Numbers(all)[i] < Numbers(all)[|t.imports|];
      assert StoredAt(c, t.s, t.imports[i]);
    }
  }

  lemma AscendingAppend(imports: seq<Import>, m: Import)
    requires Ascending(Numbers(imports))
    requires imports != [] ==> imports[|imports| - 1].signed.commitment.blockNumber < m.signed.commitment.blockNumber
    ensures Ascending(Numbers(imports + [m]))
  {
    NumbersAppend(imports, m);
    NumbersAt(imports);
  }

  lemma SubmitKeepsStorage(c: Config, t: Trace, m: Import)
    requires StorageInv(c, t)
    requires SubmitProblem(c, t.s, m.signed, m.set_, m.leaf, m.proof).None?
    ensures StorageInv(c, t.(s := Submitted(c, t.s, m.signed, m.leaf), imports := t.imports + [m]))
  {
    AscendingAppend(t.imports, m);
    SubmitKeepsStored(c, t, m);
  }

  lemma StepKeepsStorage(c: Config, t: Trace, step: Step)
    requires StorageInv(c, t)
    ensures StorageInv(c, Apply(c, t, step))
  {
    if step.Submit? {
      if SubmitProblem(c, t.s, step.signed, step.set_, step.leaf, step.proof).None? {
        SubmitKeepsStorage(c, t, Import(step.signed, step.set_, step.leaf, step.proof));
      }
    } else {
      SameStored(c, t.s, Apply(c, t, step).s, t.imports);
    }
  }

  lemma SameStored(c: Config, s: State, s': State, imports: seq<Import>)
    requires StoredExactly(c, s, imports) && s'.commitments == s.commitments
    ensures StoredExactly(c, s', imports)
  {
    forall i | Oldest(|imports|, c.commitmentsToKeep) <= i < |imports| ensures StoredAt(c, s', imports[i]) {
      assert StoredAt(c, s, imports[i]);
    }
  }

  lemma {:induction false} RunKeepsStorage(c: Config, halted: bool, authoritySet: AuthoritySetInfo, steps: seq<Step>)
    ensures StorageInv(c, ApplyAll(c, Start(halted, authoritySet), steps))
  {
    if steps != [] {
      RunKeepsStorage(c, halted, authoritySet, steps[..|steps| - 1]);
      StepKeepsStorage(c, ApplyAll(c, Start(halted, authoritySet), steps[..|steps| - 1]), steps[|steps| - 1]);
    }
  }

  /** The map holds exactly the last CommitmentsToKeep commitments, the best one among them. */
  lemma {:induction false} RingAndMapAgree(c: Config, halted: bool, authoritySet: AuthoritySetInfo, steps: seq<Step>)
    ensures var t := ApplyAll(c, Start(halted, authoritySet), steps);
            && StoredExactly(c, t.s, t.imports)
            && Ascending(Numbers(t.imports))
            && (t.imports != [] ==> t.s.info.Some? && t.s.info.value.bestBlockNumber in t.s.commitments)
  {
    RunKeepsStorage(c, halted, authoritySet, steps);
    var t := ApplyAll(c, Start(halted, authoritySet), steps);
    if t.imports != [] { assert StoredAt(c, t.s, t.imports[|t.imports| - 1]); }
  }

  /** The number a new commitment has to exceed: that of the last import, or the initial one. */
  function LastNumber(init: InitData, imports: seq<Import>): nat {
    if imports == [] then init.bestBlockNumber else imports[|imports| - 1].signed.commitment.blockNumber
  }

  ghost predicate BestInv(t: Trace) {
    && (t.init.Some? <==> t.s.info.Some?)
    && (t.init.None? ==> t.imports == [])
    && (t.init.Some? ==>
          && t.s.info.value.bestBlockNumber == LastNumber(t.init.value, t.imports) >= t.init.value.bestBlockNumber
          && forall i :: 0 <= i < |t.imports| ==>
               t.init.value.bestBlockNumber < t.imports[i].signed.commitment.blockNumber)
  }

  /** Every imported commitment is newer than the initial block, and the best block is the newest of them all. */
  lemma {:induction false} ImportsAreNewer(c: Config, halted: bool, authoritySet: AuthoritySetInfo, steps: seq<Step>)
    ensures BestInv(ApplyAll(c, Start(halted, authoritySet), steps))
  {
    if steps == [] {
    } else {
      ImportsAreNewer(c, halted, authoritySet, steps[..|steps| - 1]);
    }
  }

  // ---- Chain of trust ------------------------------------------------------------------------

  /**
    The authority set in force after the first `n` imports: handed over by their proved leaves, from the initial one.
   */
  function SetAfter(initial: AuthoritySetInfo, imports: seq<Import>, n: nat): AuthoritySetInfo
    requires n <= |imports|
  {
    if n == 0 then initial else HandedOver(SetAfter(initial, imports, n - 1), imports[n - 1].leaf)
  }

  /** The import carries a quorum of the given authority set, and its leaf is proved by the root it signs. */
  ghost predicate TrustedBy(c: Config, m: Import, info: AuthoritySetInfo) {
    && Quorate(c, m.signed, info, m.set_)
    && c.mmrRootOf(m.signed.commitment.payload).Some?
    && c.leafProved(m.leaf, m.proof, c.mmrRootOf(m.signed.commitment.payload).value)
  }

  /** Every import is trusted by the set in force after the imports before it. */
  ghost predicate AllTrusted(c: Config, initial: AuthoritySetInfo, imports: seq<Import>) {
    forall i :: 0 <= i < |imports| ==> TrustedBy(c, imports[i], SetAfter(initial, imports, i))
  }

  ghost predicate TrustInv(c: Config, t: Trace) {
    && (t.init.Some? <==> t.s.info.Some?)
    && (t.init.None? ==> t.imports == [])
    && (t.init.Some? ==>
          && t.init.value.authoritySet.len > 0
          && t.s.authoritySet == SetAfter(t.init.value.authoritySet, t.imports, |t.imports|)
          && AllTrusted(c, t.init.value.authoritySet, t.imports))
  }

  lemma {:induction false} SetAfterExtended(initial: AuthoritySetInfo, imports: seq<Import>, m: Import, n: nat)
    requires n <= |imports|
    ensures SetAfter(initial, imports + [m], n) == SetAfter(initial, imports, n)
  {
    if n > 0 { SetAfterExtended(initial, imports, m, n - 1); }
  }

  lemma AcceptedIsTrusted(c: Config, s: State, m: Import)
    requires SubmitProblem(c, s, m.signed, m.set_, m.leaf, m.proof).None?
    ensures TrustedBy(c, m, s.authoritySet)
  {
    AcceptedIffQuorate(c, m.signed, s.authoritySet, m.set_);
  }

  lemma AllTrustedAppend(c: Config, initial: AuthoritySetInfo, imports: seq<Import>, m: Import)
    requires AllTrusted(c, initial, imports) && TrustedBy(c, m, SetAfter(initial, imports, |imports|))
    ensures AllTrusted(c, initial, imports + [m])
  {
    var all := imports + [m];
    forall i | 0 <= i < |all| ensures TrustedBy(c, all[i], SetAfter(initial, all, i)) {
      SetAfterExtended(initial, imports, m, i);
      assert i < |imports| ==> all[i] == imports[i] && TrustedBy(c, imports[i], SetAfter(initial, imports, i));
    }
  }

  lemma SubmitKeepsTrust(c: Config, t: Trace, step: Step)
    requires TrustInv(c, t) && step.Submit?
    requires SubmitProblem(c, t.s, step.signed, step.set_, step.leaf, step.proof).None?
    ensures TrustInv(c, Apply(c, t, step))
  {
    var initial := t.init.value.authoritySet;
    var m := Import(step.signed, step.set_, step.leaf, step.proof);
    AcceptedIsTrusted(c, t.s, m);
    AllTrustedAppend(c, initial, t.imports, m);
    SetAfterExtended(initial, t.imports, m, |t.imports|);
  }

  lemma {:induction false} RunKeepsTrust(c: Config, halted: bool, authoritySet: AuthoritySetInfo, steps: seq<Step>)
    ensures TrustInv(c, ApplyAll(c, Start(halted, authoritySet), steps))
  {
    if steps == [] {
    } else {
      var t, step := ApplyAll(c, Start(halted, authoritySet), steps[..|steps| - 1]), steps[|steps| - 1];
      RunKeepsTrust(c, halted, authoritySet, steps[..|steps| - 1]);
      if step.Submit? && SubmitProblem(c, t.s, step.signed, step.set_, step.leaf, step.proof).None? {
        SubmitKeepsTrust(c, t, step);
      }
    }
  }

  lemma {:induction false} SetIdsGrow(initial: AuthoritySetInfo, imports: seq<Import>, m: nat, n: nat)
    requires m <= n <= |imports|
    ensures SetAfter(initial, imports, m).id <= SetAfter(initial, imports, n).id
    decreases n
  {
    if m < n { SetIdsGrow(initial, imports, m, n - 1); }
  }

  /** The i-th import announced a newer set than the initial one and any other import announced before it. */
  ghost predicate AnnouncedAt(initial: AuthoritySetInfo, imports: seq<Import>, i: nat)
    requires i < |imports|
  {
    var id := imports[i].leaf.nextAuthoritySet.id;
    id > initial.id && forall j :: 0 <= j < i ==> imports[j].leaf.nextAuthoritySet.id < id
  }

  /** The set is the first one announced under the largest id, or the initial one if no larger id was announced. */
  ghost predicate InForce(initial: AuthoritySetInfo, imports: seq<Import>, n: nat, set_: AuthoritySetInfo)
    requires n <= |imports|
  {
    && initial.id <= set_.id
    && (forall j :: 0 <= j < n ==> imports[j].leaf.nextAuthoritySet.id <= set_.id)
    && (set_ == initial ||
        exists i: nat :: i < n && AnnouncedAt(initial, imports, i) && set_ == imports[i].leaf.nextAuthoritySet)
    && (set_.id == initial.id ==> set_ == initial)
  }

  lemma {:induction false} SetAfterIsInForce(initial: AuthoritySetInfo, imports: seq<Import>, n: nat)
    requires n <= |imports|
    ensures InForce(initial, imports, n, SetAfter(initial, imports, n))
  {
    if n == 0 {
    } else {
      SetAfterIsInForce(initial, imports, n - 1);
      var before, next := SetAfter(initial, imports, n - 1), imports[n - 1].leaf.nextAuthoritySet;
      if next.id > before.id {
        assert AnnouncedAt(initial, imports, n - 1);
      }
    }
  }

  /**
    Trust is handed over from commitment to commitment: each import carries a quorum of the set in force
    after the imports before it, and each later set was announced by a leaf proved by such an import.
   */
  lemma ImportsAreQuorate(c: Config, halted: bool, authoritySet: AuthoritySetInfo, steps: seq<Step>)
    requires ApplyAll(c, Start(halted, authoritySet), steps).imports != []
    ensures var t := ApplyAll(c, Start(halted, authoritySet), steps);
            && t.init.Some?
            && t.s.authoritySet == SetAfter(t.init.value.authoritySet, t.imports, |t.imports|)
            && AllTrusted(c, t.init.value.authoritySet, t.imports)
            && (forall n: nat :: n <= |t.imports| ==>
                  InForce(t.init.value.authoritySet, t.imports, n, SetAfter(t.init.value.authoritySet, t.imports, n)))
            && (forall i, j :: 0 <= i < j < |t.imports| ==>
                  t.imports[i].signed.commitment.validatorSetId <= t.imports[j].signed.commitment.validatorSetId)
  {
    RunKeepsTrust(c, halted, authoritySet, steps);
    var t := ApplyAll(c, Start(halted, authoritySet), steps);
    var initial := t.init.value.authoritySet;
    forall n: nat | n <= |t.imports| ensures InForce(initial, t.imports, n, SetAfter(initial, t.imports, n)) {
      SetAfterIsInForce(initial, t.imports, n);
    }
    forall i, j | 0 <= i < j < |t.imports|
      ensures t.imports[i].signed.commitment.validatorSetId <= t.imports[j].signed.commitment.validatorSetId
    {
      assert TrustedBy(c, t.imports[i], SetAfter(initial, t.imports, i));
      assert TrustedBy(c, t.imports[j], SetAfter(initial, t.imports, j));
      SetIdsGrow(initial, t.imports, i, j);
    }
  }

  // ---- Rate limit ----------------------------------------------------------------------------

  /**
    Over any stretch of a run: the imports of the stretch are at most MaxRequests, less the requests
    pending when it began, plus one per block begun in it.
   */
  lemma {:induction false} ImportsAreRateLimited(c: Config, halted: bool, authoritySet: AuthoritySetInfo,
                                                 steps: seq<Step>, k: nat)
    requires k <= |steps|
    ensures var t := ApplyAll(c, Start(halted, authoritySet), steps);
            var u := ApplyAll(c, Start(halted, authoritySet), steps[..k]);
            && |u.imports| <= |t.imports| && u.blocks <= t.blocks
            && t.s.requestCount <= c.maxRequests
            && |t.imports| - |u.imports| + u.s.requestCount <= t.s.requestCount + (t.blocks - u.blocks)
  {
    if k == |steps| {
      assert steps[..k] == steps;
      if k > 0 { ImportsAreRateLimited(c, halted, authoritySet, steps[..k - 1], k - 1); }
    } else {
      assert steps[..|steps| - 1][..k] == steps[..k];
      ImportsAreRateLimited(c, halted, authoritySet, steps[..|steps| - 1], k);
    }
  }

  /** The pending requests are what some stretch that ends here imported beyond one per block: the bound is tight. */
  lemma {:induction false} BacklogIsTight(c: Config, halted: bool, authoritySet: AuthoritySetInfo, steps: seq<Step>)
    returns (k: nat)
    ensures k <= |steps|
    ensures var t := ApplyAll(c, Start(halted, authoritySet), steps);
            var u := ApplyAll(c, Start(halted, authoritySet), steps[..k]);
            t.s.requestCount == |t.imports| - |u.imports| - (t.blocks - u.blocks)
  {
    var t := ApplyAll(c, Start(halted, authoritySet), steps);
    if t.s.requestCount == 0 {
      k := |steps|;
      assert steps[..k] == steps;
    } else {
      var init := steps[..|steps| - 1];
      k := BacklogIsTight(c, halted, authoritySet, init);
      assert init[..k] == steps[..k];
    }
  }
}
