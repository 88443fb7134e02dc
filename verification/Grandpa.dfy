/** The GRANDPA light client: a sparse chain of finalized headers of the bridged chain. */
module Grandpa {
  import opened Wrappers
  import opened RingBuffer

  type Hash(==, !new)
  type Root(==, !new)
  type Authority(==, !new)
  type Justification(==, !new)
  type pos = n: nat | n > 0 witness 1

  // ---- Data ----------------------------------------------------------------------------------

  /** The GRANDPA items of a header digest, in order. */
  datatype ConsensusLog =
    | ScheduledChange(nextAuthorities: seq<Authority>, delay: nat)
    | ForcedChange
    | OtherLog

  datatype Header = Header(number: nat, parent: Hash, stateRoot: Root, logs: seq<ConsensusLog>)

  datatype StoredHeader = StoredHeader(number: nat, stateRoot: Root)

  datatype AuthoritySet = AuthoritySet(authorities: seq<Authority>, setId: nat)

  datatype HeaderId = HeaderId(number: nat, hash: Hash)

  /** Runtime constants, and the parts that are decided elsewhere: hashing, justification checks, call limits. */
  datatype Config = Config(
    headersToKeep: pos,
    maxFreeHeadersPerBlock: nat,
    freeHeadersInterval: Option<nat>,
    maxAuthorities: nat,
    hash: Header -> Hash,
    votersOf: AuthoritySet -> bool,                                  // the set can be turned into a voter set
    justifies: (Justification, HeaderId, AuthoritySet) -> bool,      // the finality proof verifies
    fitsLimits: (Header, Justification) -> bool)                     // no extra size and no extra weight

  datatype Error =
    | Halted
    | InvalidJustification
    | InvalidAuthoritySet
    | OldHeader
    | UnsupportedScheduledChange
    | NotInitialized
    | AlreadyInitialized
    | TooManyAuthoritiesInSet
    | InvalidAuthoritySetId
    | FreeHeadersLimitExceeded
    | BelowFreeHeaderInterval
    | HeaderOverflowLimits

  datatype Pays = Yes | No

  datatype InitData = InitData(header: Header, authorities: seq<Authority>, setId: nat, halted: bool)

  datatype State = State(
    halted: bool,
    bestFinalized: Option<HeaderId>,
    importedHashes: map<nat, Hash>,
    nextIndex: nat,
    importedHeaders: map<Hash, StoredHeader>,
    authoritySet: AuthoritySet,
    freeHeadersRemaining: Option<nat>)

  // ---- What the operations compute -----------------------------------------------------------

  function FindScheduledChange(logs: seq<ConsensusLog>): Option<ConsensusLog> {
    if logs == [] then None
    else if logs[0].ScheduledChange? then Some(logs[0])
    else FindScheduledChange(logs[1..])
  }

  /** Only the first GRANDPA item is looked at. */
  predicate HasForcedChange(logs: seq<ConsensusLog>) { logs != [] && logs[0].ForcedChange? }

  predicate IsMandatory(header: Header) { FindScheduledChange(header.logs).Some? }

  function CheckObsolete(s: State, number: nat, setId: Option<nat>): Result<nat, Error> {
    if s.bestFinalized.None? then Err(NotInitialized)
    else if number <= s.bestFinalized.value.number then Err(OldHeader)
    else if setId.Some? && setId.value != s.authoritySet.setId then Err(InvalidAuthoritySetId)
    else Ok(number - s.bestFinalized.value.number)
  }

  /** Why the authority change of a header cannot be enacted, if it cannot. */
  function EnactError(c: Config, header: Header): Option<Error> {
    if HasForcedChange(header.logs) then Some(UnsupportedScheduledChange)
    else match FindScheduledChange(header.logs)
      case None => None
      case Some(change) =>
        if change.ScheduledChange? then
          if change.delay != 0 then Some(UnsupportedScheduledChange)
          else if |change.nextAuthorities| > c.maxAuthorities then Some(TooManyAuthoritiesInSet)
          else None
        else None
  }

  /** The authority set in force after a header. */
  function Enacted(set_: AuthoritySet, header: Header): AuthoritySet {
    match FindScheduledChange(header.logs)
    case Some(ScheduledChange(next, _)) => AuthoritySet(next, set_.setId + 1)
    case _ => set_
  }

  predicate MayRefund(c: Config, s: State, header: Header, justification: Justification, improvedBy: nat) {
    && s.freeHeadersRemaining.Some? && s.freeHeadersRemaining.value > 0
    && c.fitsLimits(header, justification)
    && (IsMandatory(header) || (c.freeHeadersInterval.Some? && improvedBy >= c.freeHeadersInterval.value))
  }

  function SubmitError(c: Config, s: State, header: Header, justification: Justification, setId: nat): Option<Error> {
    if s.halted then Some(Halted)
    else if CheckObsolete(s, header.number, Some(setId)).Err?
      then Some(CheckObsolete(s, header.number, Some(setId)).error)
    else if !c.votersOf(s.authoritySet) then Some(InvalidAuthoritySet)
    else if !c.justifies(justification, HeaderId(header.number, c.hash(header)), s.authoritySet)
      then Some(InvalidJustification)
    else EnactError(c, header)
  }

  function Inserted(c: Config, s: State, header: Header): State {
    var hash := c.hash(header);
    var headers := s.importedHeaders[hash := StoredHeader(header.number, header.stateRoot)];
    s.(bestFinalized := Some(HeaderId(header.number, hash)),
       importedHashes := s.importedHashes[s.nextIndex := hash],
       nextIndex := (s.nextIndex + 1) % c.headersToKeep,
       importedHeaders := if s.nextIndex in s.importedHashes then headers - {s.importedHashes[s.nextIndex]}
                          else headers)
  }

  /** The state once the authority change is enacted and the refund is noted. */
  function BeforeInsert(c: Config, s: State, header: Header, justification: Justification): State
    requires s.bestFinalized.Some? && header.number > s.bestFinalized.value.number
  {
    var free := MayRefund(c, s, header, justification, header.number - s.bestFinalized.value.number);
    s.(authoritySet := Enacted(s.authoritySet, header),
       freeHeadersRemaining := if free then Some(s.freeHeadersRemaining.value - 1) else s.freeHeadersRemaining)
  }

  function Submitted(c: Config, s: State, header: Header, justification: Justification): (State, Pays)
    requires s.bestFinalized.Some? && header.number > s.bestFinalized.value.number
  {
    var free := MayRefund(c, s, header, justification, header.number - s.bestFinalized.value.number);
    (Inserted(c, BeforeInsert(c, s, header, justification), header), if free then No else Yes)
  }

  // ---- The pallet ----------------------------------------------------------------------------

  class GrandpaPallet {
    const config: Config
    var halted: bool
    var bestFinalized: Option<HeaderId>
    var importedHashes: map<nat, Hash>
    var nextIndex: nat
    var importedHeaders: map<Hash, StoredHeader>
    var authoritySet: AuthoritySet
    var freeHeadersRemaining: Option<nat>

    function Value(): State
      reads this
    {
      State(halted, bestFinalized, importedHashes, nextIndex, importedHeaders, authoritySet, freeHeadersRemaining)
    }

    constructor (config: Config, halted: bool)
      ensures this.config == config
      ensures Value() == NewState(halted)
    {
      this.config, this.halted, bestFinalized, importedHashes, nextIndex := config, halted, None, map[], 0;
      importedHeaders, authoritySet, freeHeadersRemaining := map[], AuthoritySet([], 0), None;
    }

    method OnInitialize()
      modifies this`freeHeadersRemaining
      ensures Value() == BlockBegun(config, old(Value()))
    {
      freeHeadersRemaining := Some(config.maxFreeHeadersPerBlock);
    }

    method OnFinalize()
      modifies this`freeHeadersRemaining
      ensures Value() == BlockEnded(old(Value()))
    {
      freeHeadersRemaining := None;
    }

    /** Store a header, pruning the one whose slot it takes. */
    method InsertHeader(header: Header)
      modifies this`bestFinalized, this`importedHashes, this`nextIndex, this`importedHeaders
      ensures Value() == Inserted(config, old(Value()), header)
    {
      var hash := config.hash(header);
      var index: nat := nextIndex;
      var pruning := if index in importedHashes then Some(importedHashes[index]) else None;
      bestFinalized := Some(HeaderId(header.number, hash));
      importedHeaders := importedHeaders[hash := StoredHeader(header.number, header.stateRoot)];
      importedHashes := importedHashes[index := hash];
      nextIndex := (index + 1) % config.headersToKeep;
      if pruning.Some? {
        importedHeaders := importedHeaders - {pruning.value};
      }
    }

    method SaveAuthoritiesSet(newSetId: nat, newAuthorities: seq<Authority>) returns (r: Result<AuthoritySet, Error>)
      modifies this`authoritySet
      ensures r == if |newAuthorities| > config.maxAuthorities then Err(TooManyAuthoritiesInSet)
                   else Ok(AuthoritySet(newAuthorities, newSetId))
      ensures authoritySet == if r.Ok? then r.value else old(authoritySet)
    {
      if |newAuthorities| > config.maxAuthorities { return Err(TooManyAuthoritiesInSet); }
      authoritySet := AuthoritySet(newAuthorities, newSetId);
      r := Ok(authoritySet);
    }

    method TryEnactAuthorityChange(header: Header, currentSetId: nat) returns (r: Result<Option<AuthoritySet>, Error>)
      requires currentSetId == authoritySet.setId
      modifies this`authoritySet
      ensures r.Err? <==> EnactError(config, header).Some?
      ensures r.Err? ==> r.error == EnactError(config, header).value && authoritySet == old(authoritySet)
      ensures r.Ok? ==> authoritySet == Enacted(old(authoritySet), header)
                        && r.value == if IsMandatory(header) then Some(authoritySet) else None
      ensures r.Ok? <==> LogsAcceptable(config, header.logs)
      ensures r.Ok? ==> Announces(header.logs, old(authoritySet), authoritySet)
    {
      EnactsIffAcceptable(config, header);
      EnactedIsAnnounced(authoritySet, header);
      if HasForcedChange(header.logs) { return Err(UnsupportedScheduledChange); }
      var change := FindScheduledChange(header.logs);
      FoundIsScheduled(header.logs);
      if change.None? { return Ok(None); }
      if change.value.delay != 0 { return Err(UnsupportedScheduledChange); }
      var saved := SaveAuthoritiesSet(currentSetId + 1, change.value.nextAuthorities);
      r := if saved.Ok? then Ok(Some(saved.value)) else Err(saved.error);
    }

    /** Import a header finalized by the current authority set. A failing call changes nothing. */
    method SubmitFinalityProofEx(header: Header, justification: Justification, currentSetId: nat)
      returns (r: Result<Pays, Error>)
      modifies this
      ensures r.Err? <==> SubmitError(config, old(Value()), header, justification, currentSetId).Some?
      ensures r.Err? ==> r.error == SubmitError(config, old(Value()), header, justification, currentSetId).value
      ensures r.Err? ==> Value() == old(Value())
      ensures r.Ok? ==> (Value(), r.value) == Submitted(config, old(Value()), header, justification)
    {
      if halted { return Err(Halted); }
      var improvedBy := CheckObsolete(Value(), header.number, Some(currentSetId));
      if improvedBy.Err? { return Err(improvedBy.error); }
      if !config.votersOf(authoritySet) { return Err(InvalidAuthoritySet); }
      var target := HeaderId(header.number, config.hash(header));
      if !config.justifies(justification, target, authoritySet) { return Err(InvalidJustification); }
      var enacted := TryEnactAuthorityChange(header, authoritySet.setId);
      if enacted.Err? { return Err(enacted.error); }
      var free := MayRefund(config, Value(), header, justification, improvedBy.value);
      if free {
        freeHeadersRemaining := Some(freeHeadersRemaining.value - 1);
      }
      InsertHeader(header);
      r := Ok(if free then No else Yes);
    }

    /** Governance override of the authority set and the best header. */
    method ForceSetPalletState(newSetId: nat, newAuthorities: seq<Authority>, newBestHeader: Header)
      returns (r: Result<(), Error>)
      modifies this
      ensures r == if |newAuthorities| > config.maxAuthorities then Err(TooManyAuthoritiesInSet) else Ok(())
      ensures Value() == if r.Ok? then ForceSet(config, old(Value()), newSetId, newAuthorities, newBestHeader)
                         else old(Value())
    {
      var saved := SaveAuthoritiesSet(newSetId, newAuthorities);
      if saved.Err? { return Err(saved.error); }
      InsertHeader(newBestHeader);
      r := Ok(());
    }

    method Initialize(init: InitData) returns (r: Result<(), Error>)
      modifies this
      ensures InitError(config, old(Value()), init) == if r.Ok? then None else Some(r.error)
      ensures Value() == if r.Ok? then Initialized(config, old(Value()), init) else old(Value())
    {
      if bestFinalized.Some? { return Err(AlreadyInitialized); }
      if |init.authorities| > config.maxAuthorities { return Err(TooManyAuthoritiesInSet); }
      nextIndex := 0;
      InsertHeader(init.header);
      authoritySet := AuthoritySet(init.authorities, init.setId);
      halted := init.halted;
      r := Ok(());
    }
  }

  function NewState(halted: bool): State { State(halted, None, map[], 0, map[], AuthoritySet([], 0), None) }

  function BlockBegun(c: Config, s: State): State { s.(freeHeadersRemaining := Some(c.maxFreeHeadersPerBlock)) }

  function BlockEnded(s: State): State { s.(freeHeadersRemaining := None) }

  function ForceSet(c: Config, s: State, newSetId: nat, newAuthorities: seq<Authority>, newBest: Header): State {
    Inserted(c, s.(authoritySet := AuthoritySet(newAuthorities, newSetId)), newBest)
  }

  function InitError(c: Config, s: State, init: InitData): Option<Error> {
    if s.bestFinalized.Some? then Some(AlreadyInitialized)
    else if |init.authorities| > c.maxAuthorities then Some(TooManyAuthoritiesInSet)
    else None
  }

  function Initialized(c: Config, s: State, init: InitData): State {
    var set_ := AuthoritySet(init.authorities, init.setId);
    Inserted(c, s.(nextIndex := 0, authoritySet := set_, halted := init.halted), init.header)
  }

  lemma {:induction false} FoundIsScheduled(logs: seq<ConsensusLog>)
    ensures FindScheduledChange(logs).Some? ==>
              FindScheduledChange(logs).value.ScheduledChange? && FindScheduledChange(logs).value in logs
  {
    if logs != [] && !logs[0].ScheduledChange? { FoundIsScheduled(logs[1..]); }
  }

  // ---- Scheduled changes, said of the digest items -------------------------------------------

  predicate ChangesSet(logs: seq<ConsensusLog>) { exists i :: 0 <= i < |logs| && logs[i].ScheduledChange? }

  /** The i-th item is the first scheduled change. */
  predicate FirstChangeAt(logs: seq<ConsensusLog>, i: int) {
    0 <= i < |logs| && logs[i].ScheduledChange? && forall j :: 0 <= j < i ==> !logs[j].ScheduledChange?
  }

  /** What is found is the first scheduled change of the digest, if there is one. */
  lemma {:induction false} FirstChangeIsFound(logs: seq<ConsensusLog>)
    ensures FindScheduledChange(logs).Some? <==> ChangesSet(logs)
    ensures forall i :: FirstChangeAt(logs, i) ==> FindScheduledChange(logs) == Some(logs[i])
    ensures ChangesSet(logs) ==> exists i :: FirstChangeAt(logs, i)
  {
    if logs == [] {
    } else if logs[0].ScheduledChange? {
      assert FirstChangeAt(logs, 0);
    } else {
      var rest := logs[1..];
      FirstChangeIsFound(rest);
      forall i | 0 <= i < |logs| && logs[i].ScheduledChange? ensures ChangesSet(rest) { assert rest[i - 1] == logs[i]; }
      forall i | FirstChangeAt(logs, i) ensures FindScheduledChange(logs) == Some(logs[i]) {
        assert rest[i - 1] == logs[i];
        assert forall j :: 0 <= j < i - 1 ==> rest[j] == logs[j + 1];
        assert FirstChangeAt(rest, i - 1);
      }
      if ChangesSet(rest) {
        var k :| FirstChangeAt(rest, k);
        assert logs[k + 1] == rest[k];
        assert forall j :: 1 <= j < k + 1 ==> logs[j] == rest[j - 1];
        assert FirstChangeAt(logs, k + 1);
      }
    }
  }

  /** The items turn one authority set into the next: the first scheduled change names it, or it stays. */
  ghost predicate Announces(logs: seq<ConsensusLog>, before: AuthoritySet, after: AuthoritySet) {
    && (!ChangesSet(logs) ==> after == before)
    && (forall i :: FirstChangeAt(logs, i) ==> after == AuthoritySet(logs[i].nextAuthorities, before.setId + 1))
  }

  lemma EnactedIsAnnounced(before: AuthoritySet, header: Header)
    ensures Announces(header.logs, before, Enacted(before, header))
    ensures ChangesSet(header.logs) ==> Enacted(before, header).setId == before.setId + 1
  {
    FirstChangeIsFound(header.logs);
  }

  predicate Acceptable(c: Config, change: ConsensusLog) {
    change.ScheduledChange? && change.delay == 0 && |change.nextAuthorities| <= c.maxAuthorities
  }

  /** No forced change comes first, and the scheduled change, if any, takes effect at once and fits. */
  ghost predicate LogsAcceptable(c: Config, logs: seq<ConsensusLog>) {
    && !(logs != [] && logs[0].ForcedChange?)
    && forall i :: FirstChangeAt(logs, i) ==> Acceptable(c, logs[i])
  }

  /** Enacting fails if and only if the items are not acceptable, and the error says why. */
  lemma EnactsIffAcceptable(c: Config, header: Header)
    ensures EnactError(c, header).None? <==> LogsAcceptable(c, header.logs)
    ensures EnactError(c, header) == Some(TooManyAuthoritiesInSet) ==>
              exists i :: FirstChangeAt(header.logs, i) && |header.logs[i].nextAuthorities| > c.maxAuthorities
    ensures EnactError(c, header).Some? && EnactError(c, header) != Some(TooManyAuthoritiesInSet) ==>
              && EnactError(c, header) == Some(UnsupportedScheduledChange)
              && ((header.logs != [] && header.logs[0].ForcedChange?)
                  || exists i :: FirstChangeAt(header.logs, i) && header.logs[i].delay != 0)
  {
    FirstChangeIsFound(header.logs);
    FoundIsScheduled(header.logs);
    if ChangesSet(header.logs) {
      var i :| FirstChangeAt(header.logs, i);
      assert FindScheduledChange(header.logs) == Some(header.logs[i]);
    }
  }
}
