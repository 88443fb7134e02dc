/** When the calls of the GRANDPA light client succeed, said of the run that led to them. */
module GrandpaCalls {
  import opened Wrappers
  import opened Grandpa
  import opened GrandpaRuns

  /** Whether the pallet is halted: as set last, by governance or by the initialization. */
  predicate HaltedAfter(c: Config, halted: bool, steps: seq<Step>) {
    if steps == [] then halted
    else
      var before := steps[..|steps| - 1];
      match steps[|steps| - 1]
      case SetHalted(now) => now
      case Initialize(init) =>
        if ApplyAll(c, Start(halted), before).inserted == [] && |init.authorities| <= c.maxAuthorities then init.halted
        else HaltedAfter(c, halted, before)
      case _ => HaltedAfter(c, halted, before)
  }

  /** An initialization succeeds if and only if nothing was ever stored and its authority set fits. */
  lemma InitializeSucceedsIff(c: Config, halted: bool, steps: seq<Step>, init: InitData)
    ensures var t := ApplyAll(c, Start(halted), steps);
            var r := InitError(c, t.s, init);
            && (r.None? <==> t.inserted == [] && |init.authorities| <= c.maxAuthorities)
            && (r == Some(AlreadyInitialized) <==> t.inserted != [])
  {
    RunKeepsRing(c, halted, steps);
  }

  lemma {:induction false} HaltedIsTracked(c: Config, halted: bool, steps: seq<Step>)
    ensures ApplyAll(c, Start(halted), steps).s.halted == HaltedAfter(c, halted, steps)
  {
    if steps == [] {
    } else {
      var before := steps[..|steps| - 1];
      HaltedIsTracked(c, halted, before);
      if steps[|steps| - 1].Initialize? { InitializeSucceedsIff(c, halted, before, steps[|steps| - 1].init); }
    }
  }

  /** Everything a finality proof needs, said of the run: who is in force, how far the chain is, and the digest. */
  ghost predicate MayImport(c: Config, halted: bool, steps: seq<Step>, header: Header, justification: Justification,
                            setId: nat)
  {
    var t := ApplyAll(c, Start(halted), steps);
    && !HaltedAfter(c, halted, steps)
    && t.base.Some? && t.chain != []
    && header.number > t.chain[|t.chain| - 1].number
    && setId == t.base.value.setId + CountSetChanges(t.imports, |t.imports|)
    && var set_ := SetAfter(t.base.value, t.imports, |t.imports|);
    && c.votersOf(set_)
    && c.justifies(justification, HeaderId(header.number, c.hash(header)), set_)
    && LogsAcceptable(c, header.logs)
  }

  /** After any run, a submission succeeds if and only if it brings everything it needs. */
  lemma SubmitSucceedsIff(c: Config, halted: bool, steps: seq<Step>, header: Header, justification: Justification,
                          setId: nat)
    ensures SubmitError(c, ApplyAll(c, Start(halted), steps).s, header, justification, setId).None? <==>
            MayImport(c, halted, steps, header, justification, setId)
  {
    var t := ApplyAll(c, Start(halted), steps);
    RunKeepsChain(c, halted, steps);
    HaltedIsTracked(c, halted, steps);
    SubmitErrorIff(c, t.s, header, justification, setId);
    if t.base.Some? { SetIdCounts(t.base.value, t.imports, |t.imports|); }
  }

  lemma SubmitErrorIff(c: Config, s: State, header: Header, justification: Justification, setId: nat)
    ensures SubmitError(c, s, header, justification, setId).None? <==>
            && !s.halted && s.bestFinalized.Some? && header.number > s.bestFinalized.value.number
            && setId == s.authoritySet.setId && c.votersOf(s.authoritySet)
            && c.justifies(justification, HeaderId(header.number, c.hash(header)), s.authoritySet)
            && LogsAcceptable(c, header.logs)
  {
    EnactsIffAcceptable(c, header);
  }

  /** A failing submission names something that is really wrong. */
  lemma SubmitErrorNamesItsCause(c: Config, halted: bool, steps: seq<Step>, header: Header,
                                 justification: Justification, setId: nat)
    requires SubmitError(c, ApplyAll(c, Start(halted), steps).s, header, justification, setId).Some?
    ensures var t := ApplyAll(c, Start(halted), steps);
            match SubmitError(c, t.s, header, justification, setId).value
            case Halted => HaltedAfter(c, halted, steps)
            case NotInitialized => t.inserted == []
            case OldHeader => t.chain != [] && header.number <= t.chain[|t.chain| - 1].number
            case InvalidAuthoritySetId => setId != t.s.authoritySet.setId
            case InvalidAuthoritySet => !c.votersOf(t.s.authoritySet)
            case InvalidJustification =>
              !c.justifies(justification, HeaderId(header.number, c.hash(header)), t.s.authoritySet)
            case UnsupportedScheduledChange =>
              || (header.logs != [] && header.logs[0].ForcedChange?)
              || (exists i :: FirstChangeAt(header.logs, i) && header.logs[i].delay != 0)
            case TooManyAuthoritiesInSet =>
              exists i :: FirstChangeAt(header.logs, i) && |header.logs[i].nextAuthorities| > c.maxAuthorities
            case _ => false
  {
    RunKeepsChain(c, halted, steps);
    HaltedIsTracked(c, halted, steps);
    EnactsIffAcceptable(c, header);
  }

  /** Without a claim to be free, the extension lets through exactly newer headers under the current set id. */
  lemma ExtensionLetsThroughIff(c: Config, halted: bool, steps: seq<Step>, header: Header,
                                justification: Justification, setId: Option<nat>)
    ensures var t := ApplyAll(c, Start(halted), steps);
            var r := CheckFromExtension(c, t.s, header, justification, setId, false);
            && (r.Ok? <==>
                && t.chain != [] && header.number > t.chain[|t.chain| - 1].number
                && (setId.Some? ==> setId.value == t.s.authoritySet.setId))
            && (r.Ok? ==> r.value == header.number - t.chain[|t.chain| - 1].number)
  {
    var t := ApplyAll(c, Start(halted), steps);
    RunKeepsChain(c, halted, steps);
    BestIsLast(c, t);
    NewerIff(c, t.s, header, justification, setId);
  }

  lemma NewerIff(c: Config, s: State, header: Header, justification: Justification, setId: Option<nat>)
    ensures var r := CheckFromExtension(c, s, header, justification, setId, false);
            && (r.Ok? <==>
                && s.bestFinalized.Some? && header.number > s.bestFinalized.value.number
                && (setId.Some? ==> setId.value == s.authoritySet.setId))
            && (r.Ok? ==> r.value == header.number - s.bestFinalized.value.number)
  {
  }

  lemma BestIsLast(c: Config, t: Trace)
    requires ChainInv(c, t)
    ensures t.s.bestFinalized.Some? <==> t.chain != []
    ensures t.chain != [] ==> t.s.bestFinalized.value.number == t.chain[|t.chain| - 1].number
  {
  }

  /**
    Inside a block, for a header that changes the set or under a configured interval, the extension lets a
    submission that would succeed through as free if and only if the call then refunds it.
   */
  lemma ExtensionAgreesWithRefund(c: Config, halted: bool, steps: seq<Step>, header: Header,
                                  justification: Justification, setId: nat)
    requires InBlock(steps) && (ChangesSet(header.logs) || c.freeHeadersInterval.Some?)
    requires MayImport(c, halted, steps, header, justification, setId)
    ensures var s := ApplyAll(c, Start(halted), steps).s;
            SubmitError(c, s, header, justification, setId).None? &&
            (CheckFromExtension(c, s, header, justification, Some(setId), true).Ok? <==>
             Submitted(c, s, header, justification).1 == No)
  {
    SubmitSucceedsIff(c, halted, steps, header, justification, setId);
    FreeHeadersAreBounded(c, halted, steps);
    FirstChangeIsFound(header.logs);
  }
}
