/** The statement table: votes of parachain validators on candidates, and the misbehavior they amount to. */
module StatementTable {
  import opened Wrappers

  type Authority(==, !new)
  type Digest(==, !new)
  type Group(==, !new)
  type Signature(==, !new)
  type Candidate(==, !new)

  // ---- Data ----------------------------------------------------------------------------------

  datatype Context = Context(
    digestOf: Candidate -> Digest,
    isMemberOf: (Authority, Group) -> bool,
    groupSize: Group -> Option<nat>)

  datatype Statement = Seconded(candidate: Candidate) | Valid(digest: Digest)

  datatype SignedStatement = SignedStatement(statement: Statement, signature: Signature, sender: Authority)

  datatype Misbehavior =
    // seconded a candidate and also voted for it
    | ValidityDoubleVote(candidate: Candidate, issued: Signature, digest: Digest, valid: Signature)
    | UnauthorizedStatement(statement: SignedStatement)
    // two signatures on the same statement
    | DoubleSignSeconded(candidate: Candidate, first: Signature, second: Signature)
    | DoubleSignValidity(digest: Digest, first: Signature, second: Signature)

  datatype ValidityVote = Issued(signature: Signature) | ValidVote(signature: Signature)

  datatype Summary = Summary(candidate: Digest, groupId: Group, validityVotes: nat)

  datatype CandidateData = CandidateData(
    groupId: Group, candidate: Candidate, validityVotes: map<Authority, ValidityVote>)

  datatype Proposal = Proposal(digest: Digest, signature: Signature)

  datatype TableState = TableState(
    authorityData: map<Authority, seq<Proposal>>,
    detectedMisbehavior: map<Authority, seq<Misbehavior>>,
    candidateVotes: map<Digest, CandidateData>)

  const EMPTY_TABLE := TableState(map[], map[], map[])

  type ImportResult = Result<Option<Summary>, Misbehavior>

  // ---- What the operations compute -----------------------------------------------------------

  /** The evidence for two different votes of one authority on one candidate. */
  function DoubleVote(candidate: Candidate, digest: Digest, old_: ValidityVote, new_: ValidityVote): Misbehavior {
    match (old_, new_)
    case (Issued(i), ValidVote(v)) => ValidityDoubleVote(candidate, i, digest, v)
    case (ValidVote(v), Issued(i)) => ValidityDoubleVote(candidate, i, digest, v)
    case (Issued(a), Issued(b)) => DoubleSignSeconded(candidate, a, b)
    case (ValidVote(a), ValidVote(b)) => DoubleSignValidity(digest, a, b)
  }

  function VoteResult(ctx: Context, t: TableState, from: Authority, digest: Digest, vote: ValidityVote): ImportResult {
    if digest !in t.candidateVotes then Ok(None)
    else
      var data := t.candidateVotes[digest];
      if !ctx.isMemberOf(from, data.groupId) then
        Err(UnauthorizedStatement(SignedStatement(Valid(digest), vote.signature, from)))
      else if from in data.validityVotes then
        if data.validityVotes[from] != vote then Err(DoubleVote(data.candidate, digest, data.validityVotes[from], vote))
        else Ok(None)
      else Ok(Some(Summary(digest, data.groupId, |data.validityVotes| + 1)))
  }

  function Voted(ctx: Context, t: TableState, from: Authority, digest: Digest, vote: ValidityVote): TableState {
    var r := VoteResult(ctx, t, from, digest, vote);
    if r.Ok? && r.value.Some? then
      var data := t.candidateVotes[digest];
      t.(candidateVotes := t.candidateVotes[digest := data.(validityVotes := data.validityVotes[from := vote])])
    else t
  }

  predicate HasProposed(t: TableState, authority: Authority, digest: Digest) {
    authority in t.authorityData &&
    var proposals := t.authorityData[authority];
    exists i :: 0 <= i < |proposals| && proposals[i].digest == digest
  }

  /** The candidate is noted as proposed by the authority, and becomes known. */
  function Proposed(ctx: Context, t: TableState, authority: Authority, candidate: Candidate, signature: Signature,
                    group: Group)
    : TableState
  {
    var digest := ctx.digestOf(candidate);
    if HasProposed(t, authority, digest) then t
    else
      var proposals := if authority in t.authorityData then t.authorityData[authority] else [];
      t.(authorityData := t.authorityData[authority := proposals + [Proposal(digest, signature)]],
         candidateVotes := if digest in t.candidateVotes then t.candidateVotes
                           else t.candidateVotes[digest := CandidateData(group, candidate, map[])])
  }

  function CandidateResult(ctx: Context, t: TableState, authority: Authority, candidate: Candidate,
                           signature: Signature, group: Group)
    : ImportResult
  {
    if !ctx.isMemberOf(authority, group) then
      Err(UnauthorizedStatement(SignedStatement(Seconded(candidate), signature, authority)))
    else
      var known := Proposed(ctx, t, authority, candidate, signature, group);
      VoteResult(ctx, known, authority, ctx.digestOf(candidate), Issued(signature))
  }

  function CandidateImported(ctx: Context, t: TableState, authority: Authority, candidate: Candidate,
                             signature: Signature, group: Group)
    : TableState
  {
    if !ctx.isMemberOf(authority, group) then t
    else
      var known := Proposed(ctx, t, authority, candidate, signature, group);
      Voted(ctx, known, authority, ctx.digestOf(candidate), Issued(signature))
  }

  function StatementResult(ctx: Context, t: TableState, group: Group, s: SignedStatement): ImportResult {
    match s.statement
    case Seconded(candidate) => CandidateResult(ctx, t, s.sender, candidate, s.signature, group)
    case Valid(digest) => VoteResult(ctx, t, s.sender, digest, ValidVote(s.signature))
  }

  function Recorded(t: TableState, a: Authority, m: Misbehavior): TableState {
    var sofar := if a in t.detectedMisbehavior then t.detectedMisbehavior[a] else [];
    t.(detectedMisbehavior := t.detectedMisbehavior[a := sofar + [m]])
  }

  function StatementImported(ctx: Context, t: TableState, group: Group, s: SignedStatement): TableState {
    var r := StatementResult(ctx, t, group, s);
    var after := match s.statement
      case Seconded(candidate) => CandidateImported(ctx, t, s.sender, candidate, s.signature, group)
      case Valid(digest) => Voted(ctx, t, s.sender, digest, ValidVote(s.signature));
    if r.Err? then Recorded(after, s.sender, r.error) else after
  }

  /** One entry of the drained map. */
  datatype Entry = Entry(id: Authority, misbehaviors: seq<Misbehavior>)

  predicate Distinct(entries: seq<Entry>) {
    forall i, j :: 0 <= i < j < |entries| ==> entries[i].id != entries[j].id
  }

  /** The entries list the map, each key once, in some order. */
  ghost predicate Enumerates(entries: seq<Entry>, m: map<Authority, seq<Misbehavior>>) {
    && Distinct(entries)
    && (forall i :: 0 <= i < |entries| ==> entries[i].id in m && m[entries[i].id] == entries[i].misbehaviors)
    && (forall a :: a in m ==> exists i :: 0 <= i < |entries| && entries[i].id == a)
  }

  // ---- The table -----------------------------------------------------------------------------

  class Table {
    var authorityData: map<Authority, seq<Proposal>>
    var detectedMisbehavior: map<Authority, seq<Misbehavior>>
    var candidateVotes: map<Digest, CandidateData>

    function Value(): TableState
      reads this
    {
      TableState(authorityData, detectedMisbehavior, candidateVotes)
    }

    constructor ()
      ensures Value() == EMPTY_TABLE
    {
      authorityData, detectedMisbehavior, candidateVotes := map[], map[], map[];
    }

    method ImportStatement(ctx: Context, group: Group, s: SignedStatement) returns (summary: Option<Summary>)
      modifies this
      ensures Value() == StatementImported(ctx, old(Value()), group, s)
      ensures summary == match StatementResult(ctx, old(Value()), group, s)
                         case Ok(maybe) => maybe
                         case Err(_) => None
    {
      var r: ImportResult;
      match s.statement {
        case Seconded(candidate) => r := ImportCandidate(ctx, s.sender, candidate, s.signature, group);
        case Valid(digest) => r := CastValidityVote(ctx, s.sender, digest, ValidVote(s.signature));
      }
      match r {
        case Ok(maybe) => summary := maybe;
        case Err(misbehavior) =>
          var sofar := if s.sender in detectedMisbehavior then detectedMisbehavior[s.sender] else [];
          detectedMisbehavior := detectedMisbehavior[s.sender := sofar + [misbehavior]];
          summary := None;
      }
    }

    method ImportCandidate(ctx: Context, authority: Authority, candidate: Candidate, signature: Signature, group: Group)
      returns (r: ImportResult)
      modifies this`authorityData, this`candidateVotes
      ensures r == CandidateResult(ctx, old(Value()), authority, candidate, signature, group)
      ensures Value() == CandidateImported(ctx, old(Value()), authority, candidate, signature, group)
    {
      if !ctx.isMemberOf(authority, group) {
        return Err(UnauthorizedStatement(SignedStatement(Seconded(candidate), signature, authority)));
      }
      var digest := ctx.digestOf(candidate);
      var newProposal;
      if authority in authorityData {
        var existing := authorityData[authority];
        if exists i :: 0 <= i < |existing| && existing[i].digest == digest {
          newProposal := false;
        } else {
          authorityData := authorityData[authority := existing + [Proposal(digest, signature)]];
          newProposal := true;
        }
      } else {
        authorityData := authorityData[authority := [Proposal(digest, signature)]];
        newProposal := true;
      }
      assert [] + [Proposal(digest, signature)] == [Proposal(digest, signature)];
      assert newProposal == !HasProposed(old(Value()), authority, digest);
      if newProposal && digest !in candidateVotes {
        candidateVotes := candidateVotes[digest := CandidateData(group, candidate, map[])];
      }
      r := CastValidityVote(ctx, authority, digest, Issued(signature));
    }

    /** Empties the detected misbehavior, listing it in the map's order. */
    method DrainMisbehaviors() returns (entries: seq<Entry>)
      modifies this`detectedMisbehavior
      ensures detectedMisbehavior == map[]
      ensures Enumerates(entries, old(detectedMisbehavior))
    {
      entries := [];
      var all := detectedMisbehavior;
      var left := all.Keys;
      while left != {}
        invariant left <= all.Keys
        invariant Distinct(entries)
        invariant forall i :: 0 <= i < |entries| ==>
                    entries[i].id in all && entries[i].id !in left && entries[i].misbehaviors == all[entries[i].id]
        invariant forall a :: a in all && a !in left ==> exists i :: 0 <= i < |entries| && entries[i].id == a
        decreases left
      {
        var a :| a in left;
        ghost var before := entries;
        entries := entries + [Entry(a, all[a])];
        left := left - {a};
        forall x | x in all && x !in left
          ensures exists i :: 0 <= i < |entries| && entries[i].id == x
        {
          if x == a {
            assert entries[|before|].id == x;
          } else {
            var i :| 0 <= i < |before| && before[i].id == x;
            assert entries[i].id == x;
          }
        }
      }
      detectedMisbehavior := map[];
    }

    method CastValidityVote(ctx: Context, from: Authority, digest: Digest, vote: ValidityVote) returns (r: ImportResult)
      modifies this`candidateVotes
      ensures r == VoteResult(ctx, old(Value()), from, digest, vote)
      ensures Value() == Voted(ctx, old(Value()), from, digest, vote)
    {
      if digest !in candidateVotes { return Ok(None); }
      var votes := candidateVotes[digest];
      if !ctx.isMemberOf(from, votes.groupId) {
        return Err(UnauthorizedStatement(SignedStatement(Valid(digest), vote.signature, from)));
      }
      if from in votes.validityVotes {
        var occupied := votes.validityVotes[from];
        if occupied != vote {
          return Err(DoubleVote(votes.candidate, digest, occupied, vote));
        }
        return Ok(None);
      }
      votes := votes.(validityVotes := votes.validityVotes[from := vote]);
      candidateVotes := candidateVotes[digest := votes];
      r := Ok(Some(Summary(digest, votes.groupId, |votes.validityVotes|)));
    }
  }

  // ---- Attestation ---------------------------------------------------------------------------

  const USIZE_MAX: nat := 0xFFFF_FFFF_FFFF_FFFF

  datatype Attestation = Implicit(signature: Signature) | Explicit(signature: Signature)

  datatype AttestedCandidate = AttestedCandidate(
    groupId: Group, candidate: Candidate, validityVotes: map<Authority, Attestation>)

  function Threshold(ctx: Context, group: Group, minimumBackingVotes: nat): nat {
    match ctx.groupSize(group)
    case None => USIZE_MAX
    case Some(len) => if len <= minimumBackingVotes then len else minimumBackingVotes
  }

  function Attest(vote: ValidityVote): Attestation {
    match vote
    case Issued(s) => Implicit(s)
    case ValidVote(s) => Explicit(s)
  }

  function Attested(ctx: Context, t: TableState, digest: Digest, minimumBackingVotes: nat): Option<AttestedCandidate> {
    if digest !in t.candidateVotes then None
    else
      var data := t.candidateVotes[digest];
      if |data.validityVotes| < Threshold(ctx, data.groupId, minimumBackingVotes) then None
      else
        var attestations := map a | a in data.validityVotes :: Attest(data.validityVotes[a]);
        Some(AttestedCandidate(data.groupId, data.candidate, attestations))
  }
}
