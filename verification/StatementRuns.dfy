/** What the statement table holds and whom it accuses, after any sequence of imports and drains. */
module StatementRuns {
  import opened Wrappers
  import opened StatementTable

  // ---- Runs ----------------------------------------------------------------------------------

  datatype Event = Import(group: Group, statement: SignedStatement) | Drain

  datatype Accusation = Accusation(who: Authority, misbehavior: Misbehavior)

  /** The table, every accusation it ever recorded, and how many of them were drained. */
  datatype Record = Record(table: TableState, accusations: seq<Accusation>, drained: nat)

  function Apply(ctx: Context, r: Record, e: Event): Record {
    match e
    case Import(group, s) =>
      var outcome := StatementResult(ctx, r.table, group, s);
      Record(StatementImported(ctx, r.table, group, s),
             if outcome.Err? then r.accusations + [Accusation(s.sender, outcome.error)] else r.accusations,
             r.drained)
    case Drain => Record(r.table.(detectedMisbehavior := map[]), r.accusations, |r.accusations|)
  }

  /** The record after the first `k` events. */
  function After(ctx: Context, events: seq<Event>, k: nat): Record
    requires k <= |events|
  {
    if k == 0 then Record(EMPTY_TABLE, [], 0) else Apply(ctx, After(ctx, events, k - 1), events[k - 1])
  }

  // ---- Misbehavior, said of the events alone -------------------------------------------------

  function About(ctx: Context, s: SignedStatement): Digest {
    match s.statement
    case Seconded(candidate) => ctx.digestOf(candidate)
    case Valid(digest) => digest
  }

  function VoteOf(s: SignedStatement): ValidityVote {
    match s.statement
    case Seconded(_) => Issued(s.signature)
    case Valid(_) => ValidVote(s.signature)
  }

  /** Seconded by an authority outside the group the statement came with. */
  predicate Refused(ctx: Context, e: Event) {
    Seconds(e) && !ctx.isMemberOf(e.statement.sender, e.group)
  }

  predicate Introduces(ctx: Context, e: Event, digest: Digest) {
    Seconds(e) && !Refused(ctx, e) && About(ctx, e.statement) == digest
  }

  /** The first of the first `k` events that makes the candidate known. */
  function First(ctx: Context, events: seq<Event>, k: nat, digest: Digest): (r: Option<Event>)
    requires k <= |events|
    ensures r.Some? ==> Introduces(ctx, r.value, digest)
  {
    if k == 0 then None
    else
      var earlier := First(ctx, events, k - 1, digest);
      if earlier.Some? then earlier
      else if Introduces(ctx, events[k - 1], digest) then Some(events[k - 1])
      else None
  }

  /** The statement is on a known candidate, by a member of the candidate's group. */
  predicate Counts(ctx: Context, events: seq<Event>, i: nat)
    requires i < |events|
  {
    events[i].Import? && !Refused(ctx, events[i]) &&
    var s := events[i].statement;
    var first := First(ctx, events, i + 1, About(ctx, s));
    first.Some? && ctx.isMemberOf(s.sender, first.value.group)
  }

  /** The statement is on a known candidate, or seconds one, by an authority outside the group. */
  predicate Unauthorized(ctx: Context, events: seq<Event>, i: nat)
    requires i < |events|
  {
    events[i].Import? &&
    var s := events[i].statement;
    var first := First(ctx, events, i + 1, About(ctx, s));
    Refused(ctx, events[i]) || (first.Some? && !ctx.isMemberOf(s.sender, first.value.group))
  }

  /** A statement of the authority on the candidate, and it counts. */
  predicate CountsFor(ctx: Context, events: seq<Event>, i: nat, a: Authority, digest: Digest)
    requires i < |events|
  {
    Counts(ctx, events, i) && events[i].statement.sender == a && About(ctx, events[i].statement) == digest
  }

  predicate CountsAs(ctx: Context, events: seq<Event>, i: nat, a: Authority, digest: Digest, vote: ValidityVote)
    requires i < |events|
  {
    CountsFor(ctx, events, i, a, digest) && VoteOf(events[i].statement) == vote
  }

  /** Two different votes of one authority on one candidate. */
  predicate Contradicts(ctx: Context, events: seq<Event>, i: nat, j: nat)
    requires i < |events| && j < |events|
  {
    Counts(ctx, events, i) && Counts(ctx, events, j) &&
    var s, t := events[i].statement, events[j].statement;
    s.sender == t.sender && About(ctx, s) == About(ctx, t) && VoteOf(s) != VoteOf(t)
  }

  predicate Misbehaves(ctx: Context, events: seq<Event>, a: Authority) {
    || (exists i: nat :: i < |events| && Unauthorized(ctx, events, i) && events[i].statement.sender == a)
    || (exists i: nat, j: nat :: i < |events| && j < |events| && Contradicts(ctx, events, i, j) &&
          events[i].statement.sender == a)
  }

  /** The first statement that counts, for each authority. */
  function Ballot(ctx: Context, events: seq<Event>, k: nat, digest: Digest): map<Authority, ValidityVote>
    requires k <= |events|
  {
    if k == 0 then map[]
    else
      var earlier := Ballot(ctx, events, k - 1, digest);
      var e := events[k - 1];
      if Counts(ctx, events, k - 1) && About(ctx, e.statement) == digest && e.statement.sender !in earlier
      then earlier[e.statement.sender := VoteOf(e.statement)]
      else earlier
  }

  predicate Accused(r: Record, a: Authority) {
    exists i :: 0 <= i < |r.accusations| && r.accusations[i].who == a
  }

  // ---- The table knows exactly the introduced candidates -------------------------------------

  ghost predicate Known(ctx: Context, events: seq<Event>, k: nat, t: TableState)
    requires k <= |events|
  {
    && (forall d :: d in t.candidateVotes <==> First(ctx, events, k, d).Some?)
    && (forall d :: d in t.candidateVotes ==>
          var e := First(ctx, events, k, d).value;
          t.candidateVotes[d].groupId == e.group && t.candidateVotes[d].candidate == e.statement.statement.candidate)
    && (forall a, d :: HasProposed(t, a, d) ==> d in t.candidateVotes)
  }

  /** The table as the vote is cast: a seconded candidate is known by then. */
  function AtVote(ctx: Context, t: TableState, e: Event): TableState
    requires e.Import?
  {
    match e.statement.statement
    case Seconded(candidate) => if Refused(ctx, e) then t
                                else Proposed(ctx, t, e.statement.sender, candidate, e.statement.signature, e.group)
    case Valid(_) => t
  }

  lemma ImportInTwo(ctx: Context, t: TableState, e: Event)
    requires e.Import?
    ensures var s := e.statement;
            var cast := VoteResult(ctx, AtVote(ctx, t, e), s.sender, About(ctx, s), VoteOf(s));
            && StatementResult(ctx, t, e.group, s) == (if Refused(ctx, e) then Err(UnauthorizedStatement(s)) else cast)
            && StatementImported(ctx, t, e.group, s).candidateVotes ==
               (if Refused(ctx, e) then t
                 else Voted(ctx, AtVote(ctx, t, e), s.sender, About(ctx, s), VoteOf(s))).candidateVotes
            && StatementImported(ctx, t, e.group, s).authorityData == AtVote(ctx, t, e).authorityData
            && StatementImported(ctx, t, e.group, s).detectedMisbehavior ==
               (if StatementResult(ctx, t, e.group, s).Err?
                then Recorded(t, s.sender, StatementResult(ctx, t, e.group, s).error) else t).detectedMisbehavior
  {
  }

  lemma AtVoteKnown(ctx: Context, events: seq<Event>, k: nat, t: TableState)
    requires k < |events| && events[k].Import? && Known(ctx, events, k, t)
    ensures Known(ctx, events, k + 1, AtVote(ctx, t, events[k]))
    ensures forall d :: d in AtVote(ctx, t, events[k]).candidateVotes && d !in t.candidateVotes ==>
              AtVote(ctx, t, events[k]).candidateVotes[d].validityVotes == map[]
    ensures forall d :: d in t.candidateVotes ==>
              && d in AtVote(ctx, t, events[k]).candidateVotes
              && AtVote(ctx, t, events[k]).candidateVotes[d] == t.candidateVotes[d]
  {
    var e := events[k];
    var t' := AtVote(ctx, t, e);
    forall a, d | HasProposed(t', a, d)
      ensures d in t'.candidateVotes
    {
      if !HasProposed(t, a, d) {
        assert a == e.statement.sender;
        var i :| 0 <= i < |t'.authorityData[a]| && t'.authorityData[a][i].digest == d;
      }
    }
  }

  lemma SameKnown(ctx: Context, events: seq<Event>, k: nat, t: TableState, t': TableState)
    requires k <= |events| && Known(ctx, events, k, t)
    requires t'.authorityData == t.authorityData && t'.candidateVotes.Keys == t.candidateVotes.Keys
    requires forall d :: d in t.candidateVotes ==>
               t'.candidateVotes[d].(validityVotes := map[]) == t.candidateVotes[d].(validityVotes := map[])
    ensures Known(ctx, events, k, t')
  {
    forall a, d | HasProposed(t', a, d)
      ensures d in t'.candidateVotes
    {
      assert HasProposed(t, a, d);
    }
  }

  lemma VotedSame(ctx: Context, t: TableState, from: Authority, digest: Digest, vote: ValidityVote)
    ensures var t' := Voted(ctx, t, from, digest, vote);
            && t'.candidateVotes.Keys == t.candidateVotes.Keys
            && (forall d :: d in t.candidateVotes ==>
                  t'.candidateVotes[d].(validityVotes := map[]) == t.candidateVotes[d].(validityVotes := map[]))
  {
  }

  lemma ImportKnown(ctx: Context, events: seq<Event>, k: nat, t: TableState)
    requires k < |events| && events[k].Import? && Known(ctx, events, k, t)
    ensures Known(ctx, events, k + 1, StatementImported(ctx, t, events[k].group, events[k].statement))
  {
    var e, s := events[k], events[k].statement;
    AtVoteKnown(ctx, events, k, t);
    ImportInTwo(ctx, t, e);
    VotedSame(ctx, AtVote(ctx, t, e), s.sender, About(ctx, s), VoteOf(s));
    SameKnown(ctx, events, k + 1, AtVote(ctx, t, e), StatementImported(ctx, t, e.group, s));
  }

  lemma {:induction false} TableKnows(ctx: Context, events: seq<Event>, k: nat)
    requires k <= |events|
    ensures Known(ctx, events, k, After(ctx, events, k).table)
  {
    if k == 0 {
    } else {
      TableKnows(ctx, events, k - 1);
      var t := After(ctx, events, k - 1).table;
      if events[k - 1].Import? {
        ImportKnown(ctx, events, k - 1, t);
      } else {
        SameKnown(ctx, events, k, t, After(ctx, events, k).table);
      }
    }
  }

  // ---- Proposals -----------------------------------------------------------------------------

  predicate SecondedBy(ctx: Context, e: Event, a: Authority, d: Digest) {
    Introduces(ctx, e, d) && e.statement.sender == a
  }

  lemma ProposedStep(ctx: Context, t: TableState, e: Event, a: Authority, d: Digest)
    requires e.Import?
    ensures HasProposed(StatementImported(ctx, t, e.group, e.statement), a, d) <==>
            HasProposed(t, a, d) || SecondedBy(ctx, e, a, d)
  {
    ImportInTwo(ctx, t, e);
    var t' := AtVote(ctx, t, e);
    if HasProposed(t, a, d) {
      var i :| 0 <= i < |t.authorityData[a]| && t.authorityData[a][i].digest == d;
      assert t'.authorityData[a][i].digest == d;
    }
    if SecondedBy(ctx, e, a, d) && !HasProposed(t, a, d) {
      assert t'.authorityData[a][|t'.authorityData[a]| - 1].digest == d;
    }
  }

  /** The table notes a proposal if and only if the authority seconded the candidate as a member of the given group. */
  lemma {:induction false} ProposedIffSeconded(ctx: Context, events: seq<Event>, k: nat, a: Authority, d: Digest)
    requires k <= |events|
    ensures HasProposed(After(ctx, events, k).table, a, d) <==>
            exists i :: 0 <= i < k && SecondedBy(ctx, events[i], a, d)
  {
    if k == 0 {
    } else {
      ProposedIffSeconded(ctx, events, k - 1, a, d);
      if events[k - 1].Import? { ProposedStep(ctx, After(ctx, events, k - 1).table, events[k - 1], a, d); }
    }
  }

  // ---- What one import does, said of the events ----------------------------------------------

  function VotesOn(t: TableState, digest: Digest): map<Authority, ValidityVote> {
    if digest in t.candidateVotes then t.candidateVotes[digest].validityVotes else map[]
  }

  /** The evidence recorded for an unauthorized statement. */
  function EvidenceOf(ctx: Context, e: Event): Misbehavior
    requires e.Import?
  {
    var s := e.statement;
    UnauthorizedStatement(if Refused(ctx, e) then s else SignedStatement(Valid(About(ctx, s)), s.signature, s.sender))
  }

  lemma CastOutcome(ctx: Context, t: TableState, from: Authority, d: Digest, vote: ValidityVote, x: Digest)
    ensures VotesOn(Voted(ctx, t, from, d, vote), x) ==
            if x == d && d in t.candidateVotes && ctx.isMemberOf(from, t.candidateVotes[d].groupId)
               && from !in VotesOn(t, d)
            then VotesOn(t, x)[from := vote] else VotesOn(t, x)
  {
  }

  /** The only votes that change are those on the candidate the statement is about. */
  lemma ImportVotes(ctx: Context, events: seq<Event>, k: nat, t: TableState, x: Digest)
    requires k < |events| && events[k].Import? && Known(ctx, events, k, t)
    ensures var s := events[k].statement;
            VotesOn(StatementImported(ctx, t, events[k].group, s), x) ==
            if Counts(ctx, events, k) && x == About(ctx, s) && s.sender !in VotesOn(t, x)
            then VotesOn(t, x)[s.sender := VoteOf(s)] else VotesOn(t, x)
  {
    var s := events[k].statement;
    AtVoteKnown(ctx, events, k, t);
    ImportInTwo(ctx, t, events[k]);
    var cast := AtVote(ctx, t, events[k]);
    assert VotesOn(cast, x) == VotesOn(t, x);
    CastOutcome(ctx, cast, s.sender, About(ctx, s), VoteOf(s), x);
  }

  lemma ImportOutcome(ctx: Context, events: seq<Event>, k: nat, t: TableState)
    requires k < |events| && events[k].Import? && Known(ctx, events, k, t)
    ensures var s := events[k].statement;
            var d := About(ctx, s);
            var r := StatementResult(ctx, t, events[k].group, s);
            var first := First(ctx, events, k + 1, d);
            && (Counts(ctx, events, k) && s.sender !in VotesOn(t, d) ==>
                  r == Ok(Some(Summary(d, first.value.group, |VotesOn(t, d)| + 1))))
            && (Counts(ctx, events, k) && s.sender in VotesOn(t, d) ==>
                  r == if VotesOn(t, d)[s.sender] == VoteOf(s) then Ok(None)
                       else Err(DoubleVote(first.value.statement.statement.candidate, d,
                                           VotesOn(t, d)[s.sender], VoteOf(s))))
            && (Unauthorized(ctx, events, k) ==> r == Err(EvidenceOf(ctx, events[k])))
            && (!Counts(ctx, events, k) && !Unauthorized(ctx, events, k) ==> r == Ok(None))
  {
    AtVoteKnown(ctx, events, k, t);
    ImportInTwo(ctx, t, events[k]);
    var d := About(ctx, events[k].statement);
    var cast := AtVote(ctx, t, events[k]);
    assert VotesOn(cast, d) == VotesOn(t, d);
    assert d in cast.candidateVotes <==> First(ctx, events, k + 1, d).Some?;
  }

  // ---- Votes in the table --------------------------------------------------------------------

  lemma {:induction false} TableHoldsBallot(ctx: Context, events: seq<Event>, k: nat, d: Digest)
    requires k <= |events|
    ensures VotesOn(After(ctx, events, k).table, d) == Ballot(ctx, events, k, d)
  {
    if k == 0 {
    } else {
      TableHoldsBallot(ctx, events, k - 1, d);
      TableKnows(ctx, events, k - 1);
      if events[k - 1].Import? {
        ImportVotes(ctx, events, k - 1, After(ctx, events, k - 1).table, d);
      }
    }
  }

  lemma {:induction false} BallotIsCast(ctx: Context, events: seq<Event>, k: nat, d: Digest, a: Authority)
    returns (i: nat)
    requires k <= |events| && a in Ballot(ctx, events, k, d)
    ensures i < k && CountsAs(ctx, events, i, a, d, Ballot(ctx, events, k, d)[a])
    ensures a !in Ballot(ctx, events, i, d)
  {
    if a in Ballot(ctx, events, k - 1, d) {
      i := BallotIsCast(ctx, events, k - 1, d, a);
    } else {
      i := k - 1;
    }
  }

  lemma {:induction false} BallotStays(ctx: Context, events: seq<Event>, i: nat, k: nat, d: Digest, a: Authority)
    requires i <= k <= |events| && a in Ballot(ctx, events, i, d)
    ensures a in Ballot(ctx, events, k, d) && Ballot(ctx, events, k, d)[a] == Ballot(ctx, events, i, d)[a]
    decreases k
  {
    if i < k {
      BallotStays(ctx, events, i, k - 1, d, a);
    }
  }

  /** The voters are exactly the authorities a statement of which counts. */
  lemma VotedIffCounted(ctx: Context, events: seq<Event>, k: nat, d: Digest, a: Authority)
    requires k <= |events|
    ensures a in Ballot(ctx, events, k, d) <==>
            exists i: nat :: i < k && CountsFor(ctx, events, i, a, d)
  {
    if a in Ballot(ctx, events, k, d) {
      var i := BallotIsCast(ctx, events, k, d, a);
      assert CountsFor(ctx, events, i, a, d);
    }
    if i: nat :| i < k && CountsFor(ctx, events, i, a, d) {
      BallotStays(ctx, events, i + 1, k, d, a);
    }
  }

  /** A summary is returned exactly for an authority's first statement that counts, with the votes so far. */
  lemma SummaryIsExact(ctx: Context, events: seq<Event>, k: nat)
    requires k < |events| && events[k].Import?
    ensures var s := events[k].statement;
            var d := About(ctx, s);
            var r := StatementResult(ctx, After(ctx, events, k).table, events[k].group, s);
            && ((r.Ok? && r.value.Some?) <==> Counts(ctx, events, k) && s.sender !in Ballot(ctx, events, k, d))
            && (r.Ok? && r.value.Some? ==>
                  var group := First(ctx, events, k + 1, d).value.group;
                  r.value.value == Summary(d, group, |Ballot(ctx, events, k + 1, d)|))
  {
    TableKnows(ctx, events, k);
    TableHoldsBallot(ctx, events, k, About(ctx, events[k].statement));
    ImportOutcome(ctx, events, k, After(ctx, events, k).table);
  }

  // ---- Accusations ---------------------------------------------------------------------------

  /** The misbehavior the k-th event amounts to, if any. */
  function Verdict(ctx: Context, events: seq<Event>, k: nat): (r: Option<Accusation>)
    requires k < |events|
    ensures r.Some? ==> events[k].Import? && r.value.who == events[k].statement.sender
  {
    if Unauthorized(ctx, events, k) then Some(Accusation(events[k].statement.sender, EvidenceOf(ctx, events[k])))
    else if Counts(ctx, events, k) then
      var s := events[k].statement;
      var d := About(ctx, s);
      var earlier := Ballot(ctx, events, k, d);
      if s.sender in earlier && earlier[s.sender] != VoteOf(s) then
        var candidate := First(ctx, events, k + 1, d).value.statement.statement.candidate;
        Some(Accusation(s.sender, DoubleVote(candidate, d, earlier[s.sender], VoteOf(s))))
      else None
    else None
  }

  lemma VerdictIsRecorded(ctx: Context, events: seq<Event>, k: nat)
    requires k < |events|
    ensures After(ctx, events, k + 1).accusations == After(ctx, events, k).accusations +
              match Verdict(ctx, events, k)
              case Some(v) => [v]
              case None => []
  {
    if events[k].Import? {
      TableKnows(ctx, events, k);
      TableHoldsBallot(ctx, events, k, About(ctx, events[k].statement));
      ImportOutcome(ctx, events, k, After(ctx, events, k).table);
    }
  }

  predicate Given(ctx: Context, events: seq<Event>, k: nat, accusation: Accusation)
    requires k <= |events|
  {
    exists i: nat :: i < k && Verdict(ctx, events, i) == Some(accusation)
  }

  lemma GivenStep(ctx: Context, events: seq<Event>, k: nat, accusation: Accusation)
    requires k < |events|
    ensures Given(ctx, events, k + 1, accusation) <==>
            Given(ctx, events, k, accusation) || Verdict(ctx, events, k) == Some(accusation)
  {
  }

  lemma MemberOfAppended(s: seq<Accusation>, v: Option<Accusation>, x: Accusation)
    ensures x in s + (match v case Some(a) => [a] case None => []) <==> x in s || v == Some(x)
  {
  }

  /** The accusations are the verdicts. */
  lemma {:induction false} RecordedIffVerdict(ctx: Context, events: seq<Event>, k: nat, accusation: Accusation)
    requires k <= |events|
    ensures accusation in After(ctx, events, k).accusations <==> Given(ctx, events, k, accusation)
  {
    if k == 0 {
    } else {
      RecordedIffVerdict(ctx, events, k - 1, accusation);
      VerdictIsRecorded(ctx, events, k - 1);
      MemberOfAppended(After(ctx, events, k - 1).accusations, Verdict(ctx, events, k - 1), accusation);
      GivenStep(ctx, events, k - 1, accusation);
    }
  }

  lemma ContradictionIsFound(ctx: Context, events: seq<Event>, i: nat, j: nat) returns (n: nat)
    requires i < |events| && j < |events| && Contradicts(ctx, events, i, j)
    ensures (n == i || n == j) && Verdict(ctx, events, n).Some?
  {
    var s, t := events[i].statement, events[j].statement;
    var d := About(ctx, s);
    var last := if i < j then j else i;
    BallotStays(ctx, events, i + 1, last + 1, d, s.sender);
    BallotStays(ctx, events, j + 1, last + 1, d, s.sender);
    if s.sender in Ballot(ctx, events, i, d) {
      BallotStays(ctx, events, i, last + 1, d, s.sender);
    }
    if s.sender in Ballot(ctx, events, j, d) {
      BallotStays(ctx, events, j, last + 1, d, s.sender);
    }
    n := if Verdict(ctx, events, i).Some? then i else j;
  }

  /** Whatever was imported and drained: an authority was accused if and only if it misbehaved. */
  lemma AccusedIffMisbehaved(ctx: Context, events: seq<Event>, a: Authority)
    ensures Accused(After(ctx, events, |events|), a) <==> Misbehaves(ctx, events, a)
  {
    var r := After(ctx, events, |events|);
    if Accused(r, a) {
      var m :| 0 <= m < |r.accusations| && r.accusations[m].who == a;
      RecordedIffVerdict(ctx, events, |events|, r.accusations[m]);
      var i: nat :| i < |events| && Verdict(ctx, events, i) == Some(r.accusations[m]);
      if !Unauthorized(ctx, events, i) {
        var j := BallotIsCast(ctx, events, i, About(ctx, events[i].statement), a);
        assert Contradicts(ctx, events, j, i);
      }
    }
    if Misbehaves(ctx, events, a) {
      var n: nat;
      if i: nat :| i < |events| && Unauthorized(ctx, events, i) && events[i].statement.sender == a {
        n := i;
      } else {
        var i: nat, j: nat :| i < |events| && j < |events| && Contradicts(ctx, events, i, j) &&
          events[i].statement.sender == a;
        n := ContradictionIsFound(ctx, events, i, j);
      }
      RecordedIffVerdict(ctx, events, |events|, Verdict(ctx, events, n).value);
    }
  }

  // ---- Evidence ------------------------------------------------------------------------------

  predicate Received(events: seq<Event>, s: SignedStatement) {
    exists i :: 0 <= i < |events| && events[i].Import? && events[i].statement == s
  }

  /** Both were received, the first one earlier. */
  predicate InOrder(events: seq<Event>, s: SignedStatement, t: SignedStatement) {
    exists i, j :: 0 <= i < j < |events| && events[i].Import? && events[j].Import? &&
      events[i].statement == s && events[j].statement == t
  }

  /** Every statement the evidence names was imported from the accused, double signatures in the order named. */
  predicate Genuine(ctx: Context, events: seq<Event>, accusation: Accusation) {
    var who := accusation.who;
    match accusation.misbehavior
    case UnauthorizedStatement(s) => s.sender == who && Received(events, s)
    case ValidityDoubleVote(c, issued, d, valid) =>
      ctx.digestOf(c) == d && Received(events, SignedStatement(Seconded(c), issued, who)) &&
      Received(events, SignedStatement(Valid(d), valid, who))
    case DoubleSignSeconded(c, x, y) =>
      x != y && InOrder(events, SignedStatement(Seconded(c), x, who), SignedStatement(Seconded(c), y, who))
    case DoubleSignValidity(d, x, y) =>
      x != y && InOrder(events, SignedStatement(Valid(d), x, who), SignedStatement(Valid(d), y, who))
  }

  /** No two seconded candidates have the same digest. */
  predicate CollisionFree(ctx: Context, events: seq<Event>) {
    forall i, j | 0 <= i < |events| && 0 <= j < |events| && Seconds(events[i]) && Seconds(events[j]) ::
      About(ctx, events[i].statement) == About(ctx, events[j].statement) ==>
        events[i].statement.statement == events[j].statement.statement
  }

  predicate Seconds(e: Event) {
    e.Import? && e.statement.statement.Seconded?
  }

  /** Seconded by a member of the group it came with, for a candidate that is known in another group. */
  predicate Misfiled(ctx: Context, events: seq<Event>, i: nat)
    requires i < |events|
  {
    Unauthorized(ctx, events, i) && events[i].statement.statement.Seconded? && !Refused(ctx, events[i])
  }

  lemma {:induction false} FirstIsReceived(ctx: Context, events: seq<Event>, k: nat, d: Digest)
    requires k <= |events| && First(ctx, events, k, d).Some?
    ensures First(ctx, events, k, d).value in events[..k]
  {
    if First(ctx, events, k - 1, d).Some? {
      FirstIsReceived(ctx, events, k - 1, d);
    }
  }

  lemma DoubleVoteIsGenuine(ctx: Context, events: seq<Event>, i: nat)
    requires i < |events| && CollisionFree(ctx, events)
    requires Counts(ctx, events, i) && Verdict(ctx, events, i).Some?
    ensures Genuine(ctx, events, Verdict(ctx, events, i).value)
  {
    var s := events[i].statement;
    var d := About(ctx, s);
    FirstIsReceived(ctx, events, i + 1, d);
    var first := First(ctx, events, i + 1, d).value;
    var j := BallotIsCast(ctx, events, i, d, s.sender);
    assert Received(events, events[i].statement) && Received(events, events[j].statement);
    assert InOrder(events, events[j].statement, events[i].statement);
    var f :| 0 <= f < i + 1 && events[f] == first;
    assert s.statement.Seconded? ==> s.statement == events[f].statement.statement;
    assert events[j].statement.statement.Seconded? ==> events[j].statement.statement == events[f].statement.statement;
  }

  /** All evidence is genuine if and only if no misfiled statement passes for a vote that was not imported. */
  lemma EvidenceIsGenuineIff(ctx: Context, events: seq<Event>)
    requires CollisionFree(ctx, events)
    ensures (forall m :: 0 <= m < |After(ctx, events, |events|).accusations| ==>
               Genuine(ctx, events, After(ctx, events, |events|).accusations[m]))
            <==> forall i: nat :: i < |events| && Misfiled(ctx, events, i) ==>
                   Received(events, EvidenceOf(ctx, events[i]).statement)
  {
    var recorded := After(ctx, events, |events|).accusations;
    if forall m :: 0 <= m < |recorded| ==> Genuine(ctx, events, recorded[m]) {
      forall i: nat | i < |events| && Misfiled(ctx, events, i)
        ensures Received(events, EvidenceOf(ctx, events[i]).statement)
      {
        RecordedIffVerdict(ctx, events, |events|, Verdict(ctx, events, i).value);
      }
    }
    if forall i: nat :: i < |events| && Misfiled(ctx, events, i) ==>
      Received(events, EvidenceOf(ctx, events[i]).statement) {
      forall m | 0 <= m < |recorded|
        ensures Genuine(ctx, events, recorded[m])
      {
        RecordedIffVerdict(ctx, events, |events|, recorded[m]);
        var i: nat :| i < |events| && Verdict(ctx, events, i) == Some(recorded[m]);
        if Counts(ctx, events, i) {
          DoubleVoteIsGenuine(ctx, events, i);
        } else {
          assert Misfiled(ctx, events, i) || Received(events, events[i].statement);
        }
      }
    }
  }

  /** No signature of an authority serves two different statements. */
  predicate OneStatementPerSignature(events: seq<Event>) {
    forall i, j | 0 <= i < |events| && 0 <= j < |events| && events[i].Import? && events[j].Import? ::
      var s, t := events[i].statement, events[j].statement;
      s.sender == t.sender && s.signature == t.signature ==> s == t
  }

  /** All evidence is genuine if and only if no statement is misfiled. */
  lemma EvidenceIsGenuineIffNoneMisfiled(ctx: Context, events: seq<Event>)
    requires CollisionFree(ctx, events) && OneStatementPerSignature(events)
    ensures (forall m :: 0 <= m < |After(ctx, events, |events|).accusations| ==>
               Genuine(ctx, events, After(ctx, events, |events|).accusations[m]))
            <==> forall i: nat :: i < |events| ==> !Misfiled(ctx, events, i)
  {
    EvidenceIsGenuineIff(ctx, events);
    forall i: nat | i < |events| && Misfiled(ctx, events, i)
      ensures !Received(events, EvidenceOf(ctx, events[i]).statement)
    {
      assert events[i].statement != EvidenceOf(ctx, events[i]).statement;
    }
  }

  /** Every seconded statement comes with the group its candidate belongs to. */
  ghost predicate GroupFollowsCandidate(ctx: Context, events: seq<Event>, groupOf: Digest -> Group) {
    forall i :: 0 <= i < |events| && Seconds(events[i]) ==> events[i].group == groupOf(About(ctx, events[i].statement))
  }

  /** When the group follows the candidate, all evidence is genuine. */
  lemma EvidenceIsGenuine(ctx: Context, events: seq<Event>, groupOf: Digest -> Group)
    requires CollisionFree(ctx, events) && GroupFollowsCandidate(ctx, events, groupOf)
    ensures forall m :: 0 <= m < |After(ctx, events, |events|).accusations| ==>
              Genuine(ctx, events, After(ctx, events, |events|).accusations[m])
  {
    forall i: nat | i < |events| && Misfiled(ctx, events, i)
      ensures false
    {
      FirstIsReceived(ctx, events, i + 1, About(ctx, events[i].statement));
    }
    EvidenceIsGenuineIff(ctx, events);
  }

  /** Two members of different groups second one candidate: the second stands accused of a vote it never cast. */
  lemma MisfiledEvidence(ctx: Context, c: Candidate, x: SignedStatement, y: SignedStatement, g: Group, h: Group)
    requires x.statement == Seconded(c) && y.statement == Seconded(c)
    requires ctx.isMemberOf(x.sender, g) && ctx.isMemberOf(y.sender, h) && !ctx.isMemberOf(y.sender, g)
    ensures var events := [Import(g, x), Import(h, y)];
            var vote := SignedStatement(Valid(ctx.digestOf(c)), y.signature, y.sender);
            var bad := Accusation(y.sender, UnauthorizedStatement(vote));
            bad in After(ctx, events, 2).accusations && !Genuine(ctx, events, bad)
  {
    var events := [Import(g, x), Import(h, y)];
    var d := ctx.digestOf(c);
    assert First(ctx, events, 1, d) == Some(events[0]);
    assert First(ctx, events, 2, d) == Some(events[0]);
    assert Unauthorized(ctx, events, 1);
    RecordedIffVerdict(ctx, events, 2, Verdict(ctx, events, 1).value);
  }

  // ---- Attestation ---------------------------------------------------------------------------

  /** A candidate is attested exactly when it is known and enough members of its group voted for it. */
  lemma AttestedIffBacked(ctx: Context, events: seq<Event>, k: nat, d: Digest, minimum: nat)
    requires k <= |events|
    ensures var first := First(ctx, events, k, d);
            var attested := Attested(ctx, After(ctx, events, k).table, d, minimum);
            && (attested.Some? <==> first.Some? && Backed(ctx, first.value.group, |Ballot(ctx, events, k, d)|, minimum))
            && (attested.Some? ==>
                  && attested.value.groupId == first.value.group
                  && attested.value.candidate == first.value.statement.statement.candidate
                  && ctx.digestOf(attested.value.candidate) == d
                  && attested.value.validityVotes.Keys == Ballot(ctx, events, k, d).Keys)
  {
    TableKnows(ctx, events, k);
    TableHoldsBallot(ctx, events, k, d);
  }

  /** The whole group voted, or the minimum did; of a group of unknown size, as many as can be counted. */
  predicate Backed(ctx: Context, group: Group, votes: nat, minimum: nat) {
    match ctx.groupSize(group)
    case Some(len) => votes >= len || votes >= minimum
    case None => votes >= USIZE_MAX
  }

  lemma {:induction false} FirstStays(ctx: Context, events: seq<Event>, i: nat, k: nat, d: Digest)
    requires i <= k <= |events| && First(ctx, events, i, d).Some?
    ensures First(ctx, events, k, d) == First(ctx, events, i, d)
    decreases k
  {
    if i < k {
      FirstStays(ctx, events, i, k - 1, d);
    }
  }

  /** Each attestation carries the signature of a statement imported from a member of the candidate's group. */
  lemma AttestationsAreReceived(ctx: Context, events: seq<Event>, k: nat, d: Digest, minimum: nat, a: Authority)
    returns (s: SignedStatement)
    requires k <= |events|
    requires var attested := Attested(ctx, After(ctx, events, k).table, d, minimum);
             attested.Some? && a in attested.value.validityVotes
    ensures var attested := Attested(ctx, After(ctx, events, k).table, d, minimum).value;
            && Received(events, s) && s.sender == a && About(ctx, s) == d
            && attested.validityVotes[a] ==
                 (if s.statement.Seconded? then Implicit(s.signature) else Explicit(s.signature))
            && ctx.isMemberOf(a, attested.groupId)
  {
    TableKnows(ctx, events, k);
    TableHoldsBallot(ctx, events, k, d);
    var i := BallotIsCast(ctx, events, k, d, a);
    FirstStays(ctx, events, i + 1, k, d);
    s := events[i].statement;
  }

  // ---- Pending accusations -------------------------------------------------------------------

  /** The misbehavior of one authority among the accusations from `lo` to `hi`, in the order recorded. */
  function MisbehaviorOf(accusations: seq<Accusation>, lo: nat, hi: nat, a: Authority): seq<Misbehavior>
    requires lo <= hi <= |accusations|
    decreases hi
  {
    if lo == hi then []
    else MisbehaviorOf(accusations, lo, hi - 1, a) +
         (if accusations[hi - 1].who == a then [accusations[hi - 1].misbehavior] else [])
  }

  lemma {:induction false} MisbehaviorOfPrefix(x: seq<Accusation>, y: seq<Accusation>, lo: nat, hi: nat, a: Authority)
    requires lo <= hi <= |x| && x <= y
    ensures MisbehaviorOf(x, lo, hi, a) == MisbehaviorOf(y, lo, hi, a)
    decreases hi
  {
    if lo < hi {
      MisbehaviorOfPrefix(x, y, lo, hi - 1, a);
    }
  }

  /** The table holds what was recorded since the last drain, and no list in it is empty. */
  ghost predicate HoldsPending(r: Record) {
    && r.drained <= |r.accusations|
    && forall a ::
         var pending := MisbehaviorOf(r.accusations, r.drained, |r.accusations|, a);
         && (a in r.table.detectedMisbehavior <==> pending != [])
         && (a in r.table.detectedMisbehavior ==> r.table.detectedMisbehavior[a] == pending)
  }

  lemma ApplyHoldsPending(ctx: Context, r: Record, e: Event)
    requires HoldsPending(r)
    ensures HoldsPending(Apply(ctx, r, e))
  {
    var r' := Apply(ctx, r, e);
    if e.Import? {
      ImportInTwo(ctx, r.table, e);
      forall a {
        MisbehaviorOfPrefix(r.accusations, r'.accusations, r.drained, |r.accusations|, a);
      }
    }
  }

  lemma {:induction false} TableHoldsPending(ctx: Context, events: seq<Event>, k: nat)
    requires k <= |events|
    ensures HoldsPending(After(ctx, events, k))
  {
    if k == 0 {
    } else {
      TableHoldsPending(ctx, events, k - 1);
      ApplyHoldsPending(ctx, After(ctx, events, k - 1), events[k - 1]);
    }
  }
}
