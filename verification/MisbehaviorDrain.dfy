/** The iterator over drained misbehavior, and what it yields. */
module MisbehaviorDrain {
  import opened Wrappers
  import opened StatementTable
  import opened StatementRuns

  // ---- What is yielded -----------------------------------------------------------------------

  function Tagged(id: Authority, misbehaviors: seq<Misbehavior>): seq<Accusation> {
    seq(|misbehaviors|, i requires 0 <= i < |misbehaviors| => Accusation(id, misbehaviors[i]))
  }

  function Reversed(s: seq<Misbehavior>): seq<Misbehavior> {
    seq(|s|, i requires 0 <= i < |s| => s[|s| - 1 - i])
  }

  /** Everything drained, entry by entry. */
  function Everything(entries: seq<Entry>): seq<Accusation> {
    if entries == [] then [] else Tagged(entries[0].id, entries[0].misbehaviors) + Everything(entries[1..])
  }

  /** What is drained before the first empty entry. */
  function BeforeGap(entries: seq<Entry>): seq<Accusation> {
    if entries == [] || entries[0].misbehaviors == [] then []
    else Tagged(entries[0].id, entries[0].misbehaviors) + BeforeGap(entries[1..])
  }

  // ---- The iterator --------------------------------------------------------------------------

  class DrainMisbehaviors {
    var drain: seq<Entry>
    // the misbehavior of the current entry, last one first
    var inProgress: Option<Entry>

    ghost predicate Exhausted()
      reads this
    {
      inProgress.None? || inProgress.value.misbehaviors == []
    }

    /** What is yielded until the iterator first says it is done. */
    ghost function Upcoming(): seq<Accusation>
      reads this
    {
      Current(inProgress) + BeforeGap(drain)
    }

    constructor (entries: seq<Entry>)
      ensures Upcoming() == BeforeGap(entries) && drain == entries && Exhausted()
    {
      drain, inProgress := entries, None;
    }

    method MaybeItem() returns (item: Option<Accusation>)
      modifies this`inProgress
      ensures if old(Exhausted()) then item.None? && inProgress == old(inProgress)
              else item.Some? && Current(old(inProgress)) == [item.value] + Current(inProgress)
    {
      if inProgress.None? || inProgress.value.misbehaviors == [] { return None; }
      var list := inProgress.value.misbehaviors;
      var last := |list| - 1;
      item := Some(Accusation(inProgress.value.id, list[last]));
      assert Reversed(list) == [list[last]] + Reversed(list[..last]);
      inProgress := Some(inProgress.value.(misbehaviors := list[..last]));
    }

    /** Takes the next entry off the map. */
    method NextEntry()
      modifies this
      ensures if old(drain) == [] then drain == [] && inProgress == None
              else && drain == old(drain)[1..]
                   && Current(inProgress) == Tagged(old(drain)[0].id, old(drain)[0].misbehaviors)
                   && (Exhausted() <==> old(drain)[0].misbehaviors == [])
    {
      if drain == [] {
        inProgress := None;
      } else {
        var e := drain[0];
        inProgress := Some(Entry(e.id, Reversed(e.misbehaviors)));
        drain := drain[1..];
        assert Reversed(Reversed(e.misbehaviors)) == e.misbehaviors;
      }
    }

    /** Yields the next item; an empty entry ends the iteration early, and is stepped over. */
    method Next() returns (item: Option<Accusation>)
      modifies this
      ensures if old(Upcoming()) != []
              then item.Some? && old(Upcoming()) == [item.value] + Upcoming()
              else item.None? && Upcoming() == BeforeGap(if old(drain) == [] then [] else old(drain)[1..])
      ensures |drain| <= |old(drain)|
    {
      ghost var current, rest := Current(inProgress), BeforeGap(drain);
      item := MaybeItem();
      if item.Some? {
        Regroup(current, item.value, Current(inProgress), rest);
      } else {
        assert current + rest == rest;
        NextEntry();
        current := Current(inProgress);
        item := MaybeItem();
        if item.Some? {
          Regroup(current, item.value, Current(inProgress), BeforeGap(drain));
        } else {
          assert Upcoming() == BeforeGap(drain);
        }
      }
    }
  }

  lemma Regroup(current: seq<Accusation>, item: Accusation, left: seq<Accusation>, rest: seq<Accusation>)
    requires current == [item] + left
    ensures current + rest == [item] + (left + rest)
  {
  }

  /** What is left of the current entry, in the order recorded. */
  function Current(inProgress: Option<Entry>): (r: seq<Accusation>)
    ensures r == [] <==> inProgress.None? || inProgress.value.misbehaviors == []
  {
    if inProgress.None? then [] else Tagged(inProgress.value.id, Reversed(inProgress.value.misbehaviors))
  }

  /** The loop of a consumer: it ends at the first `None`. */
  method Consume(iterator_: DrainMisbehaviors) returns (items: seq<Accusation>)
    modifies iterator_
    ensures items == old(iterator_.Upcoming())
  {
    items := [];
    ghost var all := iterator_.Upcoming();
    var item := iterator_.Next();
    ghost var left := iterator_.Upcoming();
    while item.Some?
      invariant item.Some? ==> all == items + ([item.value] + left) && left == iterator_.Upcoming()
      invariant item.None? ==> all == items
      decreases |all| - |items|, item.Some?
    {
      assert items + ([item.value] + left) == (items + [item.value]) + left;
      items := items + [item.value];
      item := iterator_.Next();
      left := iterator_.Upcoming();
    }
  }

  // ---- Completeness --------------------------------------------------------------------------

  /** No empty list stands before a non-empty one. */
  predicate NoGap(entries: seq<Entry>) {
    forall i, j :: 0 <= i < j < |entries| && entries[i].misbehaviors == [] ==> entries[j].misbehaviors == []
  }

  lemma {:induction false} AllEmpty(entries: seq<Entry>)
    ensures Everything(entries) == [] <==> forall i :: 0 <= i < |entries| ==> entries[i].misbehaviors == []
  {
    if entries == [] {
    } else {
      AllEmpty(entries[1..]);
      assert forall i :: 1 <= i < |entries| ==> entries[i] == entries[1..][i - 1];
    }
  }

  /** The iteration yields everything that was drained if and only if there is no gap. */
  lemma {:induction false} YieldsEverythingIffNoGap(entries: seq<Entry>)
    ensures BeforeGap(entries) <= Everything(entries)
    ensures BeforeGap(entries) == Everything(entries) <==> NoGap(entries)
  {
    if entries == [] {
    } else {
      var rest := entries[1..];
      assert forall i :: 1 <= i < |entries| ==> entries[i] == rest[i - 1];
      if entries[0].misbehaviors == [] {
        AllEmpty(rest);
      } else {
        YieldsEverythingIffNoGap(rest);
        GapInRest(entries);
        var first := Tagged(entries[0].id, entries[0].misbehaviors);
        assert first + BeforeGap(rest) == first + Everything(rest) ==> BeforeGap(rest) == Everything(rest) by {
          assert (first + BeforeGap(rest))[|first|..] == BeforeGap(rest);
          assert (first + Everything(rest))[|first|..] == Everything(rest);
        }
      }
    }
  }

  lemma GapInRest(entries: seq<Entry>)
    requires entries != [] && entries[0].misbehaviors != []
    ensures NoGap(entries) <==> NoGap(entries[1..])
  {
    var rest := entries[1..];
    if NoGap(rest) {
      forall i, j | 0 <= i < j < |entries| && entries[i].misbehaviors == []
        ensures entries[j].misbehaviors == []
      {
        assert rest[i - 1] == entries[i] && rest[j - 1] == entries[j];
      }
    }
  }

  // ---- Order ---------------------------------------------------------------------------------

  function Only(accusations: seq<Accusation>, a: Authority): seq<Misbehavior> {
    MisbehaviorOf(accusations, 0, |accusations|, a)
  }

  lemma {:induction false} OnlyConcat(x: seq<Accusation>, y: seq<Accusation>, n: nat, a: Authority)
    requires n <= |y|
    ensures MisbehaviorOf(x + y, 0, |x| + n, a) == Only(x, a) + MisbehaviorOf(y, 0, n, a)
  {
    if n == 0 {
      MisbehaviorOfPrefix(x, x + y, 0, |x|, a);
    } else {
      OnlyConcat(x, y, n - 1, a);
    }
  }

  lemma {:induction false} OnlyTagged(id: Authority, list: seq<Misbehavior>, n: nat, a: Authority)
    requires n <= |list|
    ensures MisbehaviorOf(Tagged(id, list), 0, n, a) == if id == a then list[..n] else []
  {
    if n > 0 {
      OnlyTagged(id, list, n - 1, a);
    }
  }

  lemma EverythingStep(e: Entry, rest: seq<Accusation>, a: Authority)
    ensures Only(Tagged(e.id, e.misbehaviors) + rest, a) == (if e.id == a then e.misbehaviors else []) + Only(rest, a)
  {
    var first, n := Tagged(e.id, e.misbehaviors), |e.misbehaviors|;
    OnlyTagged(e.id, e.misbehaviors, n, a);
    assert e.misbehaviors[..n] == e.misbehaviors;
    OnlyConcat(first, rest, |rest|, a);
    assert |first + rest| == n + |rest|;
  }

  lemma {:induction false} EverythingOf(entries: seq<Entry>, a: Authority)
    requires Distinct(entries)
    ensures forall i :: 0 <= i < |entries| && entries[i].id == a ==>
              Only(Everything(entries), a) == entries[i].misbehaviors
    ensures (forall i :: 0 <= i < |entries| ==> entries[i].id != a) ==> Only(Everything(entries), a) == []
  {
    if entries == [] {
    } else {
      var rest := entries[1..];
      EverythingOf(rest, a);
      EverythingStep(entries[0], Everything(rest), a);
      assert forall i :: 1 <= i < |entries| ==> entries[i] == rest[i - 1];
    }
  }

  /**
   * After any run, in whatever order the map lists its entries, the iteration yields for each authority
   * exactly the misbehavior recorded since the last drain, once and in the order recorded.
   */
  lemma DrainsEverythingOnce(ctx: Context, events: seq<Event>, entries: seq<Entry>, a: Authority)
    requires Enumerates(entries, After(ctx, events, |events|).table.detectedMisbehavior)
    ensures var r := After(ctx, events, |events|);
            r.drained <= |r.accusations| &&
            Only(BeforeGap(entries), a) == MisbehaviorOf(r.accusations, r.drained, |r.accusations|, a)
  {
    TableHoldsPending(ctx, events, |events|);
    YieldsEverythingIffNoGap(entries);
    EverythingOf(entries, a);
  }
}
