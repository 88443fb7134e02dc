/** What the GRANDPA light client guarantees over whole runs of calls and block hooks. */
module GrandpaRuns {
  import opened Wrappers
  import opened RingBuffer
  import opened Grandpa

  datatype Step =
    | Initialize(init: InitData)
    | Submit(header: Header, justification: Justification, setId: nat)
    | ForceSet(newSetId: nat, newAuthorities: seq<Authority>, newBest: Header)
    | SetHalted(halted: bool)
    | OnInitialize
    | OnFinalize

  /** A header accepted with a finality proof, and the authority set the proof was checked against. */
  datatype Import = Import(header: Header, justification: Justification, signedBy: AuthoritySet)

  datatype Trace = Trace(
    s: State,
    inserted: seq<Header>,           // every header stored, oldest first
    base: Option<AuthoritySet>,      // the set installed by the latest initialization or forced change
    chain: seq<Header>,              // the header installed with it, and every header accepted since
    imports: seq<Import>,            // the latter, with what they were accepted on
    freeInBlock: nat)                // calls refunded since the block began

  function Start(halted: bool): Trace { Trace(NewState(halted), [], None, [], [], 0) }

  function Apply(c: Config, t: Trace, step: Step): Trace {
    match step
    case Initialize(init) =>
      if InitError(c, t.s, init).Some? then t
      else
        t.(s := Initialized(c, t.s, init), inserted := t.inserted + [init.header],
           base := Some(AuthoritySet(init.authorities, init.setId)), chain := [init.header], imports := [])
    case Submit(header, justification, setId) =>
      if SubmitError(c, t.s, header, justification, setId).Some? then t
      else
        var (s, pays) := Submitted(c, t.s, header, justification);
        t.(s := s, inserted := t.inserted + [header], chain := t.chain + [header],
           imports := t.imports + [Import(header, justification, t.s.authoritySet)],
           freeInBlock := if pays == No then t.freeInBlock + 1 else t.freeInBlock)
    case ForceSet(newSetId, newAuthorities, newBest) =>
      if |newAuthorities| > c.maxAuthorities then t
      else
        t.(s := Grandpa.ForceSet(c, t.s, newSetId, newAuthorities, newBest), inserted := t.inserted + [newBest],
           base := Some(AuthoritySet(newAuthorities, newSetId)), chain := [newBest], imports := [])
    case SetHalted(halted) => t.(s := t.s.(halted := halted))
    case OnInitialize => t.(s := BlockBegun(c, t.s), freeInBlock := 0)
    case OnFinalize => t.(s := BlockEnded(t.s))
  }

  function ApplyAll(c: Config, t: Trace, steps: seq<Step>): Trace {
    if steps == [] then t else Apply(c, ApplyAll(c, t, steps[..|steps| - 1]), steps[|steps| - 1])
  }

  ghost predicate NoForce(steps: seq<Step>) { forall i :: 0 <= i < |steps| ==> !steps[i].ForceSet? }

  /** No two of the headers have the same hash unless they are the same header. */
  ghost predicate CollisionFree(c: Config, headers: seq<Header>) {
    forall i, j :: 0 <= i < |headers| && 0 <= j < |headers| && c.hash(headers[i]) == c.hash(headers[j]) ==>
      headers[i] == headers[j]
  }

  function Hashes(c: Config, headers: seq<Header>): seq<Hash> {
    if headers == [] then [] else Hashes(c, headers[..|headers| - 1]) + [c.hash(headers[|headers| - 1])]
  }

  lemma {:induction false} HashesAt(c: Config, headers: seq<Header>)
    ensures |Hashes(c, headers)| == |headers|
    ensures forall i :: 0 <= i < |headers| ==> Hashes(c, headers)[i] == c.hash(headers[i])
  {
    if headers != [] { HashesAt(c, headers[..|headers| - 1]); }
  }

  lemma HashesAppend(c: Config, headers: seq<Header>, h: Header)
    ensures Hashes(c, headers + [h]) == Hashes(c, headers) + [c.hash(h)]
  {
    assert (headers + [h])[..|headers + [h]| - 1] == headers;
  }

  // ---- Storage never leaks -------------------------------------------------------------------

  /** The ring remembers the insertions, and only headers of the window are stored. */
  ghost predicate RingKept(c: Config, s: State, inserted: seq<Header>) {
    && RingInv(s.importedHashes, s.nextIndex, c.headersToKeep, Hashes(c, inserted))
    && s.importedHeaders.Keys <= Window(Hashes(c, inserted), c.headersToKeep)
  }

  lemma InsertKeepsRing(c: Config, s: State, inserted: seq<Header>, h: Header)
    requires RingKept(c, s, inserted)
    ensures RingKept(c, Inserted(c, s, h), inserted + [h])
  {
    var log, keep, hash := Hashes(c, inserted), c.headersToKeep, c.hash(h);
    HashesAppend(c, inserted, h);
    RingInsert(s.importedHashes, s.nextIndex, keep, log, hash);
    forall k | k in Inserted(c, s, h).importedHeaders ensures k in Window(log + [hash], keep) {
      if k == hash {
        assert (log + [hash])[|log|] == hash;
      } else {
        WindowInsertAny(log, keep, hash, k);
      }
    }
  }

  ghost predicate RingTraceInv(c: Config, t: Trace) {
    && RingKept(c, t.s, t.inserted)
    && (t.s.bestFinalized.None? <==> t.inserted == [])
    && (t.inserted == [] ==> t.s.nextIndex == 0)
  }

  lemma {:induction false} RunKeepsRing(c: Config, halted: bool, steps: seq<Step>)
    ensures RingTraceInv(c, ApplyAll(c, Start(halted), steps))
  {
    if steps != [] {
      var t, step := ApplyAll(c, Start(halted), steps[..|steps| - 1]), steps[|steps| - 1];
      RunKeepsRing(c, halted, steps[..|steps| - 1]);
      RingStep(c, t, step);
    }
  }

  lemma RingStep(c: Config, t: Trace, step: Step)
    requires RingTraceInv(c, t)
    ensures RingTraceInv(c, Apply(c, t, step))
  {
    match step
    case Initialize(init) =>
      var set_ := AuthoritySet(init.authorities, init.setId);
      InsertKeepsRing(c, t.s.(authoritySet := set_, halted := init.halted), t.inserted, init.header);
    case Submit(header, justification, setId) =>
      if SubmitError(c, t.s, header, justification, setId).None? {
        InsertKeepsRing(c, BeforeInsert(c, t.s, header, justification), t.inserted, header);
      }
    case ForceSet(newSetId, newAuthorities, newBest) =>
      InsertKeepsRing(c, t.s.(authoritySet := AuthoritySet(newAuthorities, newSetId)), t.inserted, newBest);
    case _ =>
  }

  /**
    Whatever calls are made, forced ones included: every stored header has a ring slot, and at most HeadersToKeep are
    stored.
   */
  lemma {:induction false} NoOrphanHeaders(c: Config, halted: bool, steps: seq<Step>)
    ensures var s := ApplyAll(c, Start(halted), steps).s;
            && (forall k :: k in s.importedHeaders ==> exists p :: p in s.importedHashes && s.importedHashes[p] == k)
            && |s.importedHeaders.Keys| <= c.headersToKeep
  {
    RunKeepsRing(c, halted, steps);
    var t := ApplyAll(c, Start(halted), steps);
    var s, log, keep := t.s, Hashes(c, t.inserted), c.headersToKeep;
    forall k | k in s.importedHeaders ensures exists p :: p in s.importedHashes && s.importedHashes[p] == k {
      var i :| Oldest(|log|, keep) <= i < |log| && log[i] == k;
      assert s.importedHashes[Slot(i, keep)] == k;
    }
    WindowSize(log, keep);
    SubsetSize(s.importedHeaders.Keys, Window(log, keep));
  }

  lemma {:induction false} SubsetSize<K>(a: set<K>, b: set<K>)
    requires a <= b
    ensures |a| <= |b|
  {
    assert b == a + (b - a);
  }

  /** The last of the inserted headers took the slot of a header with the same hash. */
  predicate PrunesItself(c: Config, inserted: seq<Header>) {
    var n, keep := |inserted|, c.headersToKeep;
    n > keep && c.hash(inserted[n - 1 - keep]) == c.hash(inserted[n - 1])
  }

  ghost predicate BestInv(c: Config, t: Trace) {
    if t.inserted == [] then t.s.bestFinalized.None?
    else
      var best := c.hash(t.inserted[|t.inserted| - 1]);
      && t.s.bestFinalized.Some? && t.s.bestFinalized.value.hash == best
      && (best in t.s.importedHeaders <==> !PrunesItself(c, t.inserted))
  }

  lemma InsertKeepsBest(c: Config, s: State, inserted: seq<Header>, h: Header)
    requires RingKept(c, s, inserted)
    ensures c.hash(h) in Inserted(c, s, h).importedHeaders <==> !PrunesItself(c, inserted + [h])
  {
    HashesAt(c, inserted);
    RingInsert(s.importedHashes, s.nextIndex, c.headersToKeep, Hashes(c, inserted), c.hash(h));
    if |inserted| >= c.headersToKeep {
      assert (inserted + [h])[|inserted| - c.headersToKeep] == inserted[|inserted| - c.headersToKeep];
    }
  }

  lemma BestStep(c: Config, t: Trace, step: Step)
    requires RingTraceInv(c, t) && BestInv(c, t)
    ensures BestInv(c, Apply(c, t, step))
  {
    match step
    case Initialize(init) =>
      if InitError(c, t.s, init).None? {
        var set_ := AuthoritySet(init.authorities, init.setId);
        InsertKeepsBest(c, t.s.(nextIndex := 0, authoritySet := set_, halted := init.halted), t.inserted, init.header);
      }
    case Submit(header, justification, setId) =>
      if SubmitError(c, t.s, header, justification, setId).None? {
        InsertKeepsBest(c, BeforeInsert(c, t.s, header, justification), t.inserted, header);
      }
    case ForceSet(newSetId, newAuthorities, newBest) =>
      InsertKeepsBest(c, t.s.(authoritySet := AuthoritySet(newAuthorities, newSetId)), t.inserted, newBest);
    case _ =>
  }

  lemma {:induction false} RunKeepsBest(c: Config, halted: bool, steps: seq<Step>)
    ensures BestInv(c, ApplyAll(c, Start(halted), steps))
  {
    if steps == [] {
    } else {
      RunKeepsRing(c, halted, steps[..|steps| - 1]);
      RunKeepsBest(c, halted, steps[..|steps| - 1]);
      BestStep(c, ApplyAll(c, Start(halted), steps[..|steps| - 1]), steps[|steps| - 1]);
    }
  }

  /**
    After any run, forced changes included, the best header is stored if and only if its insertion did
    not prune a header with the same hash.
   */
  lemma BestIsStoredIff(c: Config, halted: bool, steps: seq<Step>)
    requires ApplyAll(c, Start(halted), steps).s.bestFinalized.Some?
    ensures var t := ApplyAll(c, Start(halted), steps);
            t.s.bestFinalized.value.hash in t.s.importedHeaders <==> !PrunesItself(c, t.inserted)
  {
    RunKeepsBest(c, halted, steps);
  }

  /** Forcing the same header twice into a ring of one slot leaves the best header unstored. */
  lemma ForcedTwiceLosesBest(c: Config, halted: bool, setId: nat, authorities: seq<Authority>, header: Header)
    requires c.headersToKeep == 1 && |authorities| <= c.maxAuthorities
    ensures var force := ForceSet(setId, authorities, header);
            var s := ApplyAll(c, Start(halted), [force, force]).s;
            s.bestFinalized == Some(HeaderId(header.number, c.hash(header))) && s.importedHeaders == map[]
  {
    var force := ForceSet(setId, authorities, header);
    assert [force, force][..1] == [force] && [force][..0] == [];
    assert ApplyAll(c, Start(halted), [force]) == Apply(c, Start(halted), force);
  }

  // ---- Chain of trust ------------------------------------------------------------------------

  /** The authority set after the first `n` imports. */
  function SetAfter(base: AuthoritySet, imports: seq<Import>, n: nat): AuthoritySet
    requires n <= |imports|
  {
    if n == 0 then base else Enacted(SetAfter(base, imports, n - 1), imports[n - 1].header)
  }

  /** How many of the first `n` imported headers carry a scheduled change among their GRANDPA items. */
  ghost function CountSetChanges(imports: seq<Import>, n: nat): nat
    requires n <= |imports|
  {
    if n == 0 then 0 else CountSetChanges(imports, n - 1) + if ChangesSet(imports[n - 1].header.logs) then 1 else 0
  }

  ghost predicate Increasing(headers: seq<Header>) {
    forall i, j :: 0 <= i < j < |headers| ==> headers[i].number < headers[j].number
  }

  predicate Justified(c: Config, m: Import) {
    c.justifies(m.justification, HeaderId(m.header.number, c.hash(m.header)), m.signedBy)
  }

  predicate TrustedBy(c: Config, m: Import, set_: AuthoritySet) { m.signedBy == set_ && Justified(c, m) }

  /** Each import was justified by the authority set in force after the imports before it. */
  ghost predicate Trusted(c: Config, base: AuthoritySet, imports: seq<Import>) {
    forall i :: 0 <= i < |imports| ==> TrustedBy(c, imports[i], SetAfter(base, imports, i))
  }

  /** The set is handed over from import to import as their GRANDPA items say. */
  ghost predicate HandsOver(base: AuthoritySet, imports: seq<Import>) {
    && SetAfter(base, imports, 0) == base
    && forall n :: 0 <= n < |imports| ==>
         Announces(imports[n].header.logs, SetAfter(base, imports, n), SetAfter(base, imports, n + 1))
  }

  ghost predicate HeadersAre(chain: seq<Header>, imports: seq<Import>) {
    && |chain| == |imports| + 1
    && forall i :: 0 <= i < |imports| ==> chain[i + 1] == imports[i].header
  }

  ghost predicate ChainInv(c: Config, t: Trace) {
    if t.base.None? then t.s.bestFinalized.None? && t.inserted == [] && t.chain == [] && t.imports == []
    else
      && t.inserted != []
      && HeadersAre(t.chain, t.imports)
      && Increasing(t.chain)
      && t.s.bestFinalized == Some(HeaderId(t.chain[|t.imports|].number, c.hash(t.chain[|t.imports|])))
      && t.s.authoritySet == SetAfter(t.base.value, t.imports, |t.imports|)
      && Trusted(c, t.base.value, t.imports)
  }

  lemma {:induction false} SetAfterExtended(base: AuthoritySet, imports: seq<Import>, m: Import, n: nat)
    requires n <= |imports|
    ensures SetAfter(base, imports + [m], n) == SetAfter(base, imports, n)
  {
    if n > 0 { SetAfterExtended(base, imports, m, n - 1); }
  }

  lemma TrustedAppend(c: Config, base: AuthoritySet, imports: seq<Import>, m: Import)
    requires Trusted(c, base, imports) && TrustedBy(c, m, SetAfter(base, imports, |imports|))
    ensures Trusted(c, base, imports + [m])
  {
    var all := imports + [m];
    forall i | 0 <= i < |all| ensures TrustedBy(c, all[i], SetAfter(base, all, i)) {
      SetAfterExtended(base, imports, m, i);
      assert i < |imports| ==> all[i] == imports[i] && TrustedBy(c, imports[i], SetAfter(base, imports, i));
    }
  }

  lemma SetAfterAppend(base: AuthoritySet, imports: seq<Import>, m: Import)
    ensures SetAfter(base, imports + [m], |imports| + 1) == Enacted(SetAfter(base, imports, |imports|), m.header)
  {
    SetAfterExtended(base, imports, m, |imports|);
  }

  lemma IncreasingAppend(chain: seq<Header>, h: Header)
    requires Increasing(chain) && chain != [] && chain[|chain| - 1].number < h.number
    ensures Increasing(chain + [h])
  {
    forall i, j | 0 <= i < j < |chain + [h]| ensures (chain + [h])[i].number < (chain + [h])[j].number {
      assert i < |chain| - 1 ==> chain[i].number < chain[|chain| - 1].number;
    }
  }

  lemma HeadersAppend(chain: seq<Header>, imports: seq<Import>, m: Import)
    requires HeadersAre(chain, imports)
    ensures HeadersAre(chain + [m.header], imports + [m])
  {
  }

  lemma ChainExtended(c: Config, t: Trace, m: Import, v: Trace)
    requires ChainInv(c, t) && t.base.Some? && m.signedBy == t.s.authoritySet && Justified(c, m)
    requires m.header.number > t.s.bestFinalized.value.number
    requires v.base == t.base && v.inserted != [] && v.chain == t.chain + [m.header] && v.imports == t.imports + [m]
    requires v.s.bestFinalized == Some(HeaderId(m.header.number, c.hash(m.header)))
    requires v.s.authoritySet == Enacted(t.s.authoritySet, m.header)
    ensures ChainInv(c, v)
  {
    TrustedAppend(c, t.base.value, t.imports, m);
    SetAfterAppend(t.base.value, t.imports, m);
    IncreasingAppend(t.chain, m.header);
    HeadersAppend(t.chain, t.imports, m);
  }

  lemma SubmitKeepsChain(c: Config, t: Trace, step: Step)
    requires ChainInv(c, t) && step.Submit?
    ensures ChainInv(c, Apply(c, t, step))
  {
    if SubmitError(c, t.s, step.header, step.justification, step.setId).None? {
      ChainExtended(c, t, Import(step.header, step.justification, t.s.authoritySet), Apply(c, t, step));
    }
  }

  lemma ChainStep(c: Config, t: Trace, step: Step)
    requires ChainInv(c, t)
    ensures ChainInv(c, Apply(c, t, step))
  {
    if step.Submit? { SubmitKeepsChain(c, t, step); }
  }

  lemma {:induction false} RunKeepsChain(c: Config, halted: bool, steps: seq<Step>)
    ensures ChainInv(c, ApplyAll(c, Start(halted), steps))
  {
    if steps == [] {
    } else {
      RunKeepsChain(c, halted, steps[..|steps| - 1]);
      ChainStep(c, ApplyAll(c, Start(halted), steps[..|steps| - 1]), steps[|steps| - 1]);
    }
  }

  /** Without forced changes, everything ever stored belongs to one chain. */
  lemma {:induction false} OneChain(c: Config, halted: bool, steps: seq<Step>)
    requires NoForce(steps)
    ensures ApplyAll(c, Start(halted), steps).inserted == ApplyAll(c, Start(halted), steps).chain
  {
    if steps == [] {
    } else {
      OneChain(c, halted, steps[..|steps| - 1]);
      RunKeepsChain(c, halted, steps[..|steps| - 1]);
    }
  }

  /**
    Since the latest initialization or forced change, trust is handed over from header to header: numbers
    increase, each header was justified by the set in force before it, a header whose items schedule a change
    installs the set it names under the next id, any other leaves the set, and so the id counts the changes.
   */
  lemma ChainOfTrust(c: Config, halted: bool, steps: seq<Step>)
    requires ApplyAll(c, Start(halted), steps).inserted != []
    ensures var t := ApplyAll(c, Start(halted), steps);
            && t.base.Some?
            && HeadersAre(t.chain, t.imports) && Increasing(t.chain)
            && (NoForce(steps) ==> t.inserted == t.chain)
            && Trusted(c, t.base.value, t.imports)
            && HandsOver(t.base.value, t.imports)
            && t.s.authoritySet == SetAfter(t.base.value, t.imports, |t.imports|)
            && t.s.authoritySet.setId == t.base.value.setId + CountSetChanges(t.imports, |t.imports|)
  {
    RunKeepsChain(c, halted, steps);
    if NoForce(steps) { OneChain(c, halted, steps); }
    var t := ApplyAll(c, Start(halted), steps);
    SetIdCounts(t.base.value, t.imports, |t.imports|);
    forall n | 0 <= n < |t.imports|
      ensures Announces(t.imports[n].header.logs, SetAfter(t.base.value, t.imports, n),
                        SetAfter(t.base.value, t.imports, n + 1))
    {
      EnactedIsAnnounced(SetAfter(t.base.value, t.imports, n), t.imports[n].header);
    }
  }

  lemma {:induction false} SetIdCounts(base: AuthoritySet, imports: seq<Import>, n: nat)
    requires n <= |imports|
    ensures SetAfter(base, imports, n).setId == base.setId + CountSetChanges(imports, n)
  {
    if n > 0 {
      SetIdCounts(base, imports, n - 1);
      EnactedIsAnnounced(SetAfter(base, imports, n - 1), imports[n - 1].header);
      FirstChangeIsFound(imports[n - 1].header.logs);
    }
  }

  // ---- Ring and map agree --------------------------------------------------------------------

  ghost predicate StoredAt(c: Config, s: State, h: Header) {
    c.hash(h) in s.importedHeaders && s.importedHeaders[c.hash(h)] == StoredHeader(h.number, h.stateRoot)
  }

  /** Exactly the last HeadersToKeep headers are stored, with their data. */
  ghost predicate StoredExactly(c: Config, s: State, inserted: seq<Header>) {
    && s.importedHeaders.Keys == Window(Hashes(c, inserted), c.headersToKeep)
    && forall i :: Oldest(|inserted|, c.headersToKeep) <= i < |inserted| ==> StoredAt(c, s, inserted[i])
  }

  lemma HashesAreDistinct(c: Config, headers: seq<Header>)
    requires CollisionFree(c, headers) && Increasing(headers)
    ensures forall i, j :: 0 <= i < j < |Hashes(c, headers)| ==> Hashes(c, headers)[i] != Hashes(c, headers)[j]
  {
    HashesAt(c, headers);
    forall i, j | 0 <= i < j < |headers| ensures Hashes(c, headers)[i] != Hashes(c, headers)[j] {
      assert headers[i].number < headers[j].number;
    }
  }

  lemma InsertKeepsExact(c: Config, s: State, inserted: seq<Header>, h: Header)
    requires CollisionFree(c, inserted + [h]) && Increasing(inserted + [h])
    requires RingInv(s.importedHashes, s.nextIndex, c.headersToKeep, Hashes(c, inserted))
    requires StoredExactly(c, s, inserted)
    ensures StoredExactly(c, Inserted(c, s, h), inserted + [h])
  {
    InsertedKeys(c, s, inserted, h);
    forall i | Oldest(|inserted| + 1, c.headersToKeep) <= i <= |inserted|
      ensures StoredAt(c, Inserted(c, s, h), (inserted + [h])[i])
    {
      InsertedDataAt(c, s, inserted, h, i);
    }
  }

  lemma InsertedKeys(c: Config, s: State, inserted: seq<Header>, h: Header)
    requires CollisionFree(c, inserted + [h]) && Increasing(inserted + [h])
    requires RingInv(s.importedHashes, s.nextIndex, c.headersToKeep, Hashes(c, inserted))
    requires s.importedHeaders.Keys == Window(Hashes(c, inserted), c.headersToKeep)
    ensures Inserted(c, s, h).importedHeaders.Keys == Window(Hashes(c, inserted + [h]), c.headersToKeep)
  {
    var log, keep, hash := Hashes(c, inserted), c.headersToKeep, c.hash(h);
    HashesAppend(c, inserted, h);
    HashesAreDistinct(c, inserted + [h]);
    RingInsert(s.importedHashes, s.nextIndex, keep, log, hash);
    WindowInsert(log, keep, hash);
  }

  lemma InsertedDataAt(c: Config, s: State, inserted: seq<Header>, h: Header, i: nat)
    requires CollisionFree(c, inserted + [h]) && Increasing(inserted + [h])
    requires StoredExactly(c, s, inserted)
    requires Oldest(|inserted| + 1, c.headersToKeep) <= i <= |inserted|
    requires Inserted(c, s, h).importedHeaders.Keys == Window(Hashes(c, inserted + [h]), c.headersToKeep)
    ensures StoredAt(c, Inserted(c, s, h), (inserted + [h])[i])
  {
    var all := inserted + [h];
    HashesAt(c, all);
    assert Hashes(c, all)[i] in Window(Hashes(c, all), c.headersToKeep);
    if i < |inserted| {
      assert all[i].number < all[|inserted|].number;
      assert StoredAt(c, s, inserted[i]);
    }
  }

  /** The state a successful call stores its header into: only fields beside the ring and the map have changed. */
  lemma InsertIntoKeepsExact(c: Config, s: State, base: State, inserted: seq<Header>, h: Header)
    requires CollisionFree(c, inserted + [h]) && Increasing(inserted + [h])
    requires RingInv(s.importedHashes, s.nextIndex, c.headersToKeep, Hashes(c, inserted))
    requires StoredExactly(c, s, inserted)
    requires base.importedHashes == s.importedHashes && base.nextIndex == s.nextIndex
    requires base.importedHeaders == s.importedHeaders
    ensures StoredExactly(c, Inserted(c, base, h), inserted + [h])
  {
    InsertKeepsExact(c, base, inserted, h);
  }

  lemma ExactInitialize(c: Config, t: Trace, init: InitData)
    requires RingTraceInv(c, t) && StoredExactly(c, t.s, t.inserted) && t.s.bestFinalized.None?
    requires CollisionFree(c, t.inserted + [init.header]) && Increasing(t.inserted + [init.header])
    ensures StoredExactly(c, Initialized(c, t.s, init), t.inserted + [init.header])
  {
    var base := t.s.(nextIndex := 0, authoritySet := AuthoritySet(init.authorities, init.setId), halted := init.halted);
    InsertIntoKeepsExact(c, t.s, base, t.inserted, init.header);
  }

  lemma ExactSubmit(c: Config, t: Trace, header: Header, justification: Justification)
    requires RingTraceInv(c, t) && StoredExactly(c, t.s, t.inserted)
    requires t.s.bestFinalized.Some? && header.number > t.s.bestFinalized.value.number
    requires CollisionFree(c, t.inserted + [header]) && Increasing(t.inserted + [header])
    ensures StoredExactly(c, Submitted(c, t.s, header, justification).0, t.inserted + [header])
  {
    InsertIntoKeepsExact(c, t.s, BeforeInsert(c, t.s, header, justification), t.inserted, header);
  }

  lemma SameStoredExactly(c: Config, s: State, s': State, inserted: seq<Header>)
    requires StoredExactly(c, s, inserted) && s'.importedHeaders == s.importedHeaders
    ensures StoredExactly(c, s', inserted)
  {
    forall i | Oldest(|inserted|, c.headersToKeep) <= i < |inserted| ensures StoredAt(c, s', inserted[i]) {
      assert StoredAt(c, s, inserted[i]);
    }
  }

  lemma ExactStep(c: Config, t: Trace, step: Step)
    requires !step.ForceSet? && CollisionFree(c, Apply(c, t, step).inserted)
    requires RingTraceInv(c, t) && StoredExactly(c, t.s, t.inserted)
    requires Increasing(Apply(c, t, step).inserted)
    ensures StoredExactly(c, Apply(c, t, step).s, Apply(c, t, step).inserted)
  {
    var v := Apply(c, t, step);
    if step.Initialize? && InitError(c, t.s, step.init).None? {
      ExactInitialize(c, t, step.init);
    } else if step.Submit? && SubmitError(c, t.s, step.header, step.justification, step.setId).None? {
      ExactSubmit(c, t, step.header, step.justification);
    } else {
      SameStoredExactly(c, t.s, v.s, t.inserted);
    }
  }

  lemma InsertedGrows(c: Config, t: Trace, step: Step)
    requires CollisionFree(c, Apply(c, t, step).inserted)
    ensures t.inserted <= Apply(c, t, step).inserted && CollisionFree(c, t.inserted)
  {
    var all := Apply(c, t, step).inserted;
    assert forall i :: 0 <= i < |t.inserted| ==> t.inserted[i] == all[i];
  }

  lemma {:induction false} RunKeepsExact(c: Config, halted: bool, steps: seq<Step>)
    requires NoForce(steps) && CollisionFree(c, ApplyAll(c, Start(halted), steps).inserted)
    ensures StoredExactly(c, ApplyAll(c, Start(halted), steps).s, ApplyAll(c, Start(halted), steps).inserted)
  {
    RunKeepsChain(c, halted, steps);
    OneChain(c, halted, steps);
    if steps != [] {
      var init := steps[..|steps| - 1];
      InsertedGrows(c, ApplyAll(c, Start(halted), init), steps[|steps| - 1]);
      RunKeepsExact(c, halted, init);
      RunKeepsRing(c, halted, init);
      ExactStep(c, ApplyAll(c, Start(halted), init), steps[|steps| - 1]);
    }
  }

  /** Without forced changes the map holds exactly the last HeadersToKeep headers, the best one among them. */
  lemma {:induction false} RingAndMapAgree(c: Config, halted: bool, steps: seq<Step>)
    requires NoForce(steps) && CollisionFree(c, ApplyAll(c, Start(halted), steps).inserted)
    ensures var t := ApplyAll(c, Start(halted), steps);
            && StoredExactly(c, t.s, t.inserted)
            && (t.s.bestFinalized.Some? ==> t.s.bestFinalized.value.hash in t.s.importedHeaders)
  {
    RunKeepsExact(c, halted, steps);
    RunKeepsChain(c, halted, steps);
    OneChain(c, halted, steps);
    var t := ApplyAll(c, Start(halted), steps);
    if t.s.bestFinalized.Some? { assert StoredAt(c, t.s, t.inserted[|t.inserted| - 1]); }
  }

  // ---- Free submissions ----------------------------------------------------------------------

  /** What the transaction extension knows about a submission. */
  function CheckFromExtension(c: Config, s: State, header: Header, justification: Justification, setId: Option<nat>,
                              freeExpected: bool)
    : Result<nat, Error>
  {
    var improvedBy := CheckObsolete(s, header.number, setId);
    if improvedBy.Err? || !freeExpected then improvedBy
    else if s.freeHeadersRemaining.Some? && s.freeHeadersRemaining.value == 0 then Err(FreeHeadersLimitExceeded)
    else if !IsMandatory(header) && c.freeHeadersInterval.Some? && improvedBy.value < c.freeHeadersInterval.value
      then Err(BelowFreeHeaderInterval)
    else if !c.fitsLimits(header, justification) then Err(HeaderOverflowLimits)
    else improvedBy
  }

  /**
    A submission that the extension lets through as free, and that succeeds, is free exactly when it runs
    inside a block and is either mandatory or covered by a configured interval.
   */
  lemma FreePromiseKeptIff(c: Config, s: State, header: Header, justification: Justification, setId: nat)
    requires CheckFromExtension(c, s, header, justification, Some(setId), true).Ok?
    requires SubmitError(c, s, header, justification, setId).None?
    ensures Submitted(c, s, header, justification).1 == No
       <==> s.freeHeadersRemaining.Some? && (ChangesSet(header.logs) || c.freeHeadersInterval.Some?)
  {
    FirstChangeIsFound(header.logs);
  }

  /** A block has begun and not ended. */
  predicate InBlock(steps: seq<Step>) {
    steps != [] &&
    var last := steps[|steps| - 1];
    last.OnInitialize? || (!last.OnFinalize? && InBlock(steps[..|steps| - 1]))
  }

  /** In a block, the free headers left and those refunded in this block add up to MaxFreeHeadersPerBlock. */
  lemma {:induction false} FreeHeadersAreBounded(c: Config, halted: bool, steps: seq<Step>)
    ensures var t := ApplyAll(c, Start(halted), steps);
            && t.freeInBlock <= c.maxFreeHeadersPerBlock
            && (t.s.freeHeadersRemaining.Some? <==> InBlock(steps))
            && (InBlock(steps) ==> t.freeInBlock + t.s.freeHeadersRemaining.value == c.maxFreeHeadersPerBlock)
  {
    if steps == [] {
    } else {
      FreeHeadersAreBounded(c, halted, steps[..|steps| - 1]);
    }
  }

  /**
    No submission outside a block is refunded; inside, one is if and only if a free header is left and it qualifies.
   */
  lemma RefundedIff(c: Config, halted: bool, steps: seq<Step>, header: Header, justification: Justification, setId: nat)
    requires SubmitError(c, ApplyAll(c, Start(halted), steps).s, header, justification, setId).None?
    ensures var t := ApplyAll(c, Start(halted), steps);
            var improvedBy := header.number - t.s.bestFinalized.value.number;
            Submitted(c, t.s, header, justification).1 == No <==>
              && InBlock(steps)
              && t.freeInBlock < c.maxFreeHeadersPerBlock
              && c.fitsLimits(header, justification)
              && (ChangesSet(header.logs) ||
                  (c.freeHeadersInterval.Some? && improvedBy >= c.freeHeadersInterval.value))
  {
    FreeHeadersAreBounded(c, halted, steps);
    FirstChangeIsFound(header.logs);
  }

  /** After a checked submission, the best header is the submitted one exactly when the call succeeded. */
  lemma SubmissionSuccessIsExact(c: Config, s: State, header: Header, justification: Justification, setId: nat)
    requires CheckObsolete(s, header.number, Some(setId)).Ok?
    ensures var r := SubmitError(c, s, header, justification, setId);
            var after := if r.None? then Submitted(c, s, header, justification).0 else s;
            after.bestFinalized.value.number == header.number <==> r.None?
  {
  }

  // ---- Unsupported changes -------------------------------------------------------------------

  /**
    The documentation says a header with a forced change is refused. It is, if and only if the forced
    change is its first GRANDPA item or its scheduled change is itself unacceptable.
   */
  lemma ForcedChangeRefusedIffFirst(c: Config, header: Header)
    requires exists i :: 0 <= i < |header.logs| && header.logs[i].ForcedChange?
    ensures EnactError(c, header).Some? <==>
            || header.logs[0].ForcedChange?
            || exists i :: FirstChangeAt(header.logs, i) && !Acceptable(c, header.logs[i])
  {
    EnactsIffAcceptable(c, header);
  }

  /** A forced change behind another GRANDPA item is accepted, whatever that item is but a scheduled change. */
  lemma ForcedChangeBehindOtherIsAccepted(c: Config, header: Header)
    requires header.logs == [OtherLog, ForcedChange]
    ensures EnactError(c, header).None?
  {
    assert header.logs[1..] == [ForcedChange] && header.logs[1..][1..] == [];
    assert FindScheduledChange(header.logs[1..]).None?;
  }
}
