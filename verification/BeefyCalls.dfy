/** When the calls of the BEEFY light client succeed, said of the run that led to them. */
module BeefyCalls {
  import opened Wrappers
  import opened Beefy
  import opened BeefyRuns

  /** Whether the pallet is halted: as set last, by governance or by the initialization. */
  predicate HaltedAfter(c: Config, halted: bool, authoritySet: AuthoritySetInfo, steps: seq<Step>) {
    if steps == [] then halted
    else
      var before := steps[..|steps| - 1];
      match steps[|steps| - 1]
      case SetHalted(now) => now
      case Init(init) =>
        if ApplyAll(c, Start(halted, authoritySet), before).init.None? && init.authoritySet.len > 0 then init.halted
        else HaltedAfter(c, halted, authoritySet, before)
      case _ => HaltedAfter(c, halted, authoritySet, before)
  }

  /** An initialization succeeds if and only if none did before and its authority set is not empty. */
  lemma InitSucceedsIff(c: Config, halted: bool, authoritySet: AuthoritySetInfo, steps: seq<Step>, init: InitData)
    ensures var t := ApplyAll(c, Start(halted, authoritySet), steps);
            var r := InitProblem(t.s, init);
            && (r.None? <==> t.init.None? && init.authoritySet.len > 0)
            && (r == Some(AlreadyInitialized) <==> t.init.Some?)
  {
    ImportsAreNewer(c, halted, authoritySet, steps);
  }

  lemma {:induction false} HaltedIsTracked(c: Config, halted: bool, authoritySet: AuthoritySetInfo, steps: seq<Step>)
    ensures ApplyAll(c, Start(halted, authoritySet), steps).s.halted == HaltedAfter(c, halted, authoritySet, steps)
  {
    if steps == [] {
    } else {
      var before := steps[..|steps| - 1];
      HaltedIsTracked(c, halted, authoritySet, before);
      if steps[|steps| - 1].Init? { InitSucceedsIff(c, halted, authoritySet, before, steps[|steps| - 1].init); }
    }
  }

  /** The stretch of the run after its first k steps imported less than MaxRequests beyond one per block. */
  predicate RoomSince(c: Config, halted: bool, authoritySet: AuthoritySetInfo, steps: seq<Step>, k: nat)
    requires k <= |steps|
  {
    var t := ApplyAll(c, Start(halted, authoritySet), steps);
    var u := ApplyAll(c, Start(halted, authoritySet), steps[..k]);
    |t.imports| - |u.imports| - (t.blocks - u.blocks) < c.maxRequests
  }

  /** There is room for a request if and only if there is in every stretch that ends here. */
  lemma RoomIff(c: Config, halted: bool, authoritySet: AuthoritySetInfo, steps: seq<Step>)
    ensures ApplyAll(c, Start(halted, authoritySet), steps).s.requestCount < c.maxRequests <==>
            forall k: nat :: k <= |steps| ==> RoomSince(c, halted, authoritySet, steps, k)
  {
    var k := BacklogIsTight(c, halted, authoritySet, steps);
    var t := ApplyAll(c, Start(halted, authoritySet), steps);
    if t.s.requestCount < c.maxRequests {
      forall k: nat | k <= |steps| ensures RoomSince(c, halted, authoritySet, steps, k) {
        ImportsAreRateLimited(c, halted, authoritySet, steps, k);
      }
    } else {
      assert !RoomSince(c, halted, authoritySet, steps, k);
    }
  }

  /** Everything a commitment needs, said of the run: room, the set in force, how far the imports are. */
  ghost predicate MayImport(c: Config, halted: bool, authoritySet: AuthoritySetInfo, steps: seq<Step>, m: Import) {
    var t := ApplyAll(c, Start(halted, authoritySet), steps);
    && !HaltedAfter(c, halted, authoritySet, steps)
    && (forall k: nat :: k <= |steps| ==> RoomSince(c, halted, authoritySet, steps, k))
    && t.init.Some?
    && m.signed.commitment.blockNumber > LastNumber(t.init.value, t.imports)
    && TrustedBy(c, m, SetAfter(t.init.value.authoritySet, t.imports, |t.imports|))
  }

  /** After any run, a submission succeeds if and only if it brings everything it needs. */
  lemma SubmitSucceedsIff(c: Config, halted: bool, authoritySet: AuthoritySetInfo, steps: seq<Step>, m: Import)
    ensures SubmitProblem(c, ApplyAll(c, Start(halted, authoritySet), steps).s, m.signed, m.set_, m.leaf, m.proof).None?
            <==> MayImport(c, halted, authoritySet, steps, m)
  {
    var t := ApplyAll(c, Start(halted, authoritySet), steps);
    HaltedIsTracked(c, halted, authoritySet, steps);
    RoomIff(c, halted, authoritySet, steps);
    ImportsAreNewer(c, halted, authoritySet, steps);
    RunKeepsTrust(c, halted, authoritySet, steps);
    AcceptedIffQuorate(c, m.signed, t.s.authoritySet, m.set_);
  }

  /** A submission refused by the pallet itself names something that is really wrong. */
  lemma SubmitProblemNamesItsCause(c: Config, halted: bool, authoritySet: AuthoritySetInfo, steps: seq<Step>, m: Import)
    requires var t := ApplyAll(c, Start(halted, authoritySet), steps);
             SubmitProblem(c, t.s, m.signed, m.set_, m.leaf, m.proof).Some?
    ensures var t := ApplyAll(c, Start(halted, authoritySet), steps);
            var problem := SubmitProblem(c, t.s, m.signed, m.set_, m.leaf, m.proof);
            match problem.value
            case Halted => HaltedAfter(c, halted, authoritySet, steps)
            case TooManyRequests => exists k: nat :: k <= |steps| && !RoomSince(c, halted, authoritySet, steps, k)
            case NotInitialized => t.init.None?
            case OldCommitment =>
              t.init.Some? && m.signed.commitment.blockNumber <= LastNumber(t.init.value, t.imports)
            case MmrProofVerificationFailed =>
              var root := c.mmrRootOf(m.signed.commitment.payload);
              root.Some? && !c.leafProved(m.leaf, m.proof, root.value)
            case _ => problem == CommitmentProblem(c, m.signed, t.s.authoritySet, m.set_)
  {
    HaltedIsTracked(c, halted, authoritySet, steps);
    RoomIff(c, halted, authoritySet, steps);
    ImportsAreNewer(c, halted, authoritySet, steps);
    var t := ApplyAll(c, Start(halted, authoritySet), steps);
    AcceptedIffQuorate(c, m.signed, t.s.authoritySet, m.set_);
  }
}
