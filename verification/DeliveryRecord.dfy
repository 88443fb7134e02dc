/**
  The queue of unrewarded relayers, seen as the run-length encoding of "who delivered which nonce".

  A delivery record `log` says that nonce i + 1 was delivered by log[i]. `Encode(log, lo, hi)` is the
  queue for nonces lo + 1 ..= hi. Every fact the two chains rely on is a fact about this encoding.
 */
module DeliveryRecord {
  import opened LaneTypes

  /** One more delivered nonce at the back of the queue. */
  function Pushed(q: RelayersQueue, relayer: Relayer, nonce: nat): RelayersQueue {
    var last := |q| - 1;
    if q != [] && q[last].relayer == relayer then
      q[last := UnrewardedRelayer(relayer, DeliveredMessages(q[last].messages.begin, q[last].messages.end + 1))]
    else
      q + [UnrewardedRelayer(relayer, DeliveredMessages(nonce, nonce))]
  }

  function Encode(log: seq<Relayer>, lo: nat, hi: nat): RelayersQueue
    requires hi <= |log|
  {
    if hi <= lo then [] else Pushed(Encode(log, lo, hi - 1), log[hi - 1], hi)
  }

  /** Non-empty runs, consecutive from `first`, and no two adjacent runs of the same relayer. */
  ghost predicate Canonical(first: nat, q: RelayersQueue) {
    && (forall i :: 0 <= i < |q| ==> q[i].messages.begin <= q[i].messages.end)
    && (q != [] ==> q[0].messages.begin == first)
    && (forall i, j :: 0 <= i < j < |q| && j == i + 1 ==>
          q[j].messages.begin == q[i].messages.end + 1 && q[j].relayer != q[i].relayer)
  }

  /** The nonce that a canonical queue expects next. */
  ghost function Next(first: nat, q: RelayersQueue): nat {
    if q == [] then first else q[|q| - 1].messages.end + 1
  }

  /** Every nonce of every entry was delivered by the entry's relayer. */
  ghost predicate Truthful(q: RelayersQueue, log: seq<Relayer>) {
    forall i: nat, n: nat :: i < |q| && q[i].messages.Contains(n) ==>
      1 <= n <= |log| && log[n - 1] == q[i].relayer
  }

  lemma {:induction false} PushedIsCanonical(first: nat, q: RelayersQueue, relayer: Relayer)
    requires Canonical(first, q)
    ensures Canonical(first, Pushed(q, relayer, Next(first, q)))
    ensures Next(first, Pushed(q, relayer, Next(first, q))) == Next(first, q) + 1
  {
  }

  lemma {:induction false} EncodeIsCanonical(log: seq<Relayer>, lo: nat, hi: nat)
    requires lo <= hi <= |log|
    ensures Canonical(lo + 1, Encode(log, lo, hi))
    ensures Next(lo + 1, Encode(log, lo, hi)) == hi + 1
    ensures Encode(log, lo, hi) == [] <==> lo == hi
  {
    if lo < hi {
      EncodeIsCanonical(log, lo, hi - 1);
      EncodeStep(log, lo, hi, Encode(log, lo, hi - 1));
    }
  }

  lemma {:induction false} EncodeStep(log: seq<Relayer>, lo: nat, hi: nat, q: RelayersQueue)
    requires lo < hi <= |log| && q == Encode(log, lo, hi - 1)
    requires Canonical(lo + 1, q) && Next(lo + 1, q) == hi
    ensures Canonical(lo + 1, Encode(log, lo, hi)) && Next(lo + 1, Encode(log, lo, hi)) == hi + 1
    ensures Encode(log, lo, hi) != []
  {
    PushedIsCanonical(lo + 1, q, log[hi - 1]);
    assert Encode(log, lo, hi) == Pushed(q, log[hi - 1], Next(lo + 1, q));
  }

  lemma {:induction false} EncodeIsTruthful(log: seq<Relayer>, lo: nat, hi: nat)
    requires lo <= hi <= |log|
    ensures Truthful(Encode(log, lo, hi), log)
  {
    if lo < hi {
      EncodeIsCanonical(log, lo, hi - 1);
      EncodeIsTruthful(log, lo, hi - 1);
      PushedIsTruthful(Encode(log, lo, hi - 1), log, hi);
    }
  }

  lemma {:induction false} PushedIsTruthful(q: RelayersQueue, log: seq<Relayer>, nonce: nat)
    requires Truthful(q, log) && 1 <= nonce <= |log|
    requires q != [] ==> q[|q| - 1].messages.begin < nonce == q[|q| - 1].messages.end + 1
    ensures Truthful(Pushed(q, log[nonce - 1], nonce), log)
  {
    var p := Pushed(q, log[nonce - 1], nonce);
    forall i: nat, n: nat | i < |p| && p[i].messages.Contains(n)
      ensures 1 <= n <= |log| && log[n - 1] == p[i].relayer
    {
      if i < |q| && n != nonce { assert q[i].messages.Contains(n); }
    }
  }

  /** The truthful canonical queue over a range of nonces exists and is unique. */
  lemma EncodeIsUnique(log: seq<Relayer>, lo: nat, hi: nat, q: RelayersQueue)
    requires lo <= hi <= |log|
    ensures q == Encode(log, lo, hi) <==>
            Canonical(lo + 1, q) && Next(lo + 1, q) == hi + 1 && Truthful(q, log)
  {
    EncodeIsCanonical(log, lo, hi);
    EncodeIsTruthful(log, lo, hi);
    if Canonical(lo + 1, q) && Next(lo + 1, q) == hi + 1 && Truthful(q, log) {
      TruthfulIsEncode(log, lo, hi, q);
    }
  }

  lemma {:induction false} TruthfulIsEncode(log: seq<Relayer>, lo: nat, hi: nat, q: RelayersQueue)
    requires lo <= hi <= |log|
    requires Canonical(lo + 1, q) && Next(lo + 1, q) == hi + 1 && Truthful(q, log)
    ensures q == Encode(log, lo, hi)
  {
    if q != [] {
      var p := LastPopped(log, lo, hi, q);
      TruthfulIsEncode(log, lo, hi - 1, p);
    }
  }

  lemma {:induction false} LastPopped(log: seq<Relayer>, lo: nat, hi: nat, q: RelayersQueue) returns (p: RelayersQueue)
    requires q != [] && Canonical(lo + 1, q) && Next(lo + 1, q) == hi + 1 && Truthful(q, log)
    ensures lo < hi <= |log| && q == Pushed(p, log[hi - 1], hi)
    ensures Canonical(lo + 1, p) && Next(lo + 1, p) == hi && Truthful(p, log)
  {
    p := Popped(q);
    EndsIncrease(lo + 1, q, 0);
    assert q[|q| - 1].messages.Contains(hi);
    PoppedKeeps(lo + 1, q, log);
  }

  /** The queue without its last nonce. */
  ghost function Popped(q: RelayersQueue): RelayersQueue
    requires q != []
  {
    var last := |q| - 1;
    var m := q[last].messages;
    if m.begin >= m.end then q[..last]
    else q[last := UnrewardedRelayer(q[last].relayer, DeliveredMessages(m.begin, m.end - 1))]
  }

  lemma {:induction false} PoppedKeeps(first: nat, q: RelayersQueue, log: seq<Relayer>)
    requires q != [] && Canonical(first, q) && Truthful(q, log)
    ensures Canonical(first, Popped(q)) && Truthful(Popped(q), log)
    ensures Next(first, Popped(q)) + 1 == Next(first, q)
    ensures q == Pushed(Popped(q), q[|q| - 1].relayer, q[|q| - 1].messages.end)
  {
    var p := Popped(q);
    forall i: nat, n: nat | i < |p| && p[i].messages.Contains(n)
      ensures 1 <= n <= |log| && log[n - 1] == p[i].relayer
    {
      assert q[i].messages.Contains(n);
    }
  }

  lemma {:induction false} EncodeExtended(log: seq<Relayer>, more: seq<Relayer>, lo: nat, hi: nat)
    requires hi <= |log|
    ensures Encode(log + more, lo, hi) == Encode(log, lo, hi)
  {
    if lo < hi { EncodeExtended(log, more, lo, hi - 1); }
  }

  // ---- Confirming a prefix -------------------------------------------------------------------

  function DropConfirmed(q: RelayersQueue, confirmed: nat): RelayersQueue {
    if q != [] && q[0].messages.end <= confirmed then DropConfirmed(q[1..], confirmed) else q
  }

  function TrimFront(q: RelayersQueue, confirmed: nat): RelayersQueue {
    if q != [] && q[0].messages.begin <= confirmed then
      q[0 := UnrewardedRelayer(q[0].relayer, DeliveredMessages(confirmed + 1, q[0].messages.end))]
    else q
  }

  function Pruned(q: RelayersQueue, confirmed: nat): RelayersQueue {
    TrimFront(DropConfirmed(q, confirmed), confirmed)
  }

  lemma {:induction false} PrunedShrinks(q: RelayersQueue, confirmed: nat)
    ensures |Pruned(q, confirmed)| <= |q|
  {
    if q != [] && q[0].messages.end <= confirmed { PrunedShrinks(q[1..], confirmed); }
  }

  /** Confirming and delivering commute as long as the delivered nonce is not yet confirmed. */
  lemma {:induction false} PrunedPushed(first: nat, q: RelayersQueue, confirmed: nat, relayer: Relayer)
    requires Canonical(first, q) && confirmed < Next(first, q)
    ensures Pruned(Pushed(q, relayer, Next(first, q)), confirmed) ==
            Pushed(Pruned(q, confirmed), relayer, Next(first, q))
    decreases |q|
  {
    var nonce := Next(first, q);
    var p := Pushed(q, relayer, nonce);
    if q != [] && q[0].messages.end <= confirmed {
      if |q| > 1 {
        PrunedPushed(q[1].messages.begin, q[1..], confirmed, relayer);
        assert p[1..] == Pushed(q[1..], relayer, nonce);
      } else {
        assert DropConfirmed(q, confirmed) == [];
        if q[0].relayer != relayer {
          assert p[1..] == Pushed([], relayer, nonce);
          assert DropConfirmed(p, confirmed) == DropConfirmed(p[1..], confirmed) == p[1..];
        }
      }
    }
  }

  lemma {:induction false} AllConfirmed(first: nat, q: RelayersQueue, confirmed: nat)
    requires Canonical(first, q) && Next(first, q) <= confirmed + 1
    ensures Pruned(q, confirmed) == []
    decreases |q|
  {
    if |q| > 0 {
      EndsIncrease(first, q, 0);
      AllConfirmed(q[0].messages.end + 1, q[1..], confirmed);
    }
  }

  lemma {:induction false} EndsIncrease(first: nat, q: RelayersQueue, i: nat)
    requires Canonical(first, q) && i < |q|
    ensures q[i].messages.end <= q[|q| - 1].messages.end
    decreases |q| - i
  {
    if i + 1 < |q| { EndsIncrease(first, q, i + 1); }
  }

  /** Every nonce of a canonical queue lies in exactly one entry. */
  lemma {:induction false} CoveredOnce(first: nat, q: RelayersQueue, nonce: nat) returns (i: nat)
    requires Canonical(first, q) && first <= nonce < Next(first, q)
    ensures i < |q| && q[i].messages.Contains(nonce)
    ensures forall j: nat :: j < |q| && q[j].messages.Contains(nonce) ==> j == i
    decreases |q|
  {
    var last := |q| - 1;
    var init := q[..last];
    if nonce < q[last].messages.begin {
      i := CoveredOnce(first, init, nonce);
      assert forall j: nat :: j < last ==> q[j] == init[j];
    } else {
      i := last;
      forall j: nat | j < last ensures !q[j].messages.Contains(nonce) {
        EndsIncrease(first, init, j);
        assert init[last - 1].messages.end < q[last].messages.begin;
      }
    }
  }

  /** Confirming up to `mid` leaves exactly the encoding of the nonces after `mid`. */
  lemma {:induction false} PrunedDropsPrefix(log: seq<Relayer>, lo: nat, mid: nat, hi: nat)
    requires lo <= mid <= hi <= |log|
    ensures Pruned(Encode(log, lo, hi), mid) == Encode(log, mid, hi)
  {
    if mid == hi {
      EncodeIsCanonical(log, lo, hi);
      AllConfirmed(lo + 1, Encode(log, lo, hi), mid);
    } else {
      EncodeIsCanonical(log, lo, hi - 1);
      PrunedDropsPrefix(log, lo, mid, hi - 1);
      PrunedStep(log, lo, mid, hi, Encode(log, lo, hi - 1));
    }
  }

  lemma {:induction false} PrunedStep(log: seq<Relayer>, lo: nat, mid: nat, hi: nat, q: RelayersQueue)
    requires lo <= mid < hi <= |log|
    requires q == Encode(log, lo, hi - 1) && Canonical(lo + 1, q) && Next(lo + 1, q) == hi
    requires Pruned(q, mid) == Encode(log, mid, hi - 1)
    ensures Pruned(Encode(log, lo, hi), mid) == Encode(log, mid, hi)
  {
    PrunedPushed(lo + 1, q, mid, log[hi - 1]);
  }

  // ---- The summary of a record ---------------------------------------------------------------

  /** How many times the deliverer changes over the nonces lo + 1 ..= hi, counting the first one. */
  function CountRuns(log: seq<Relayer>, lo: nat, hi: nat): nat
    requires hi <= |log|
  {
    if hi <= lo then 0
    else CountRuns(log, lo, hi - 1) + if hi - 1 == lo || log[hi - 1] != log[hi - 2] then 1 else 0
  }

  lemma {:induction false} EncodeLength(log: seq<Relayer>, lo: nat, hi: nat)
    requires lo <= hi <= |log|
    ensures |Encode(log, lo, hi)| == CountRuns(log, lo, hi)
    ensures lo < hi ==>
              var q := Encode(log, lo, hi);
              q != [] && q[|q| - 1].relayer == log[hi - 1]
  {
    if lo < hi { EncodeLength(log, lo, hi - 1); }
  }

  /** The first k nonces after lo were delivered by one relayer, and the next one, if any, by another. */
  ghost predicate FirstRun(log: seq<Relayer>, lo: nat, hi: nat, k: nat)
    requires lo <= hi <= |log|
  {
    && lo + k <= hi
    && (k == 0 <==> lo == hi)
    && (forall n :: lo <= n < lo + k ==> log[n] == log[lo])
    && (0 < k && lo + k < hi ==> log[lo + k] != log[lo])
  }

  lemma {:induction false} OldestEntryIsFirstRun(log: seq<Relayer>, lo: nat, hi: nat)
    requires lo < hi <= |log|
    ensures var q := Encode(log, lo, hi);
            && q != [] && q[0].messages.begin == lo + 1 <= q[0].messages.end
            && FirstRun(log, lo, hi, q[0].messages.end - lo)
  {
    var q := Encode(log, lo, hi);
    EncodeIsCanonical(log, lo, hi);
    EncodeIsTruthful(log, lo, hi);
    EndsIncrease(lo + 1, q, 0);
    var k := q[0].messages.end - lo;
    assert q[0].messages.Contains(lo + 1);
    forall n | lo <= n < lo + k ensures log[n] == log[lo] {
      assert q[0].messages.Contains(n + 1);
    }
    if lo + k < hi {
      assert |q| > 1 && q[1].messages.begin == q[0].messages.end + 1;
      assert q[1].messages.Contains(lo + k + 1);
    }
  }

  lemma FirstRunIsUnique(log: seq<Relayer>, lo: nat, hi: nat, j: nat, k: nat)
    requires lo <= hi <= |log| && FirstRun(log, lo, hi, j) && FirstRun(log, lo, hi, k)
    ensures j == k
  {
  }

  // ---- Rewards -------------------------------------------------------------------------------

  /** How many nonces of begin..=end an entry covers. */
  function Overlap(e: DeliveredMessages, begin: nat, end: nat): nat {
    var from := Max(e.begin, begin);
    var to := Min(e.end, end);
    if to >= from then to - from + 1 else 0
  }

  function RewardOf(q: RelayersQueue, begin: nat, end: nat, x: Relayer): nat {
    if q == [] then 0
    else
      var last := q[|q| - 1];
      RewardOf(q[..|q| - 1], begin, end, x) + if last.relayer == x then Overlap(last.messages, begin, end) else 0
  }

  /** How many of the nonces lo + 1 ..= hi the relayer x delivered. */
  function Delivered(log: seq<Relayer>, lo: nat, hi: nat, x: Relayer): nat
    requires hi <= |log|
  {
    if hi <= lo then 0 else Delivered(log, lo, hi - 1, x) + if log[hi - 1] == x then 1 else 0
  }

  lemma {:induction false} DeliveredSplit(log: seq<Relayer>, lo: nat, mid: nat, hi: nat, x: Relayer)
    requires lo <= mid <= hi <= |log|
    ensures Delivered(log, lo, hi, x) == Delivered(log, lo, mid, x) + Delivered(log, mid, hi, x)
  {
    if mid < hi { DeliveredSplit(log, lo, mid, hi - 1, x); }
  }

  lemma {:induction false} DeliveredExtended(log: seq<Relayer>, more: seq<Relayer>, lo: nat, hi: nat, x: Relayer)
    requires hi <= |log|
    ensures Delivered(log + more, lo, hi, x) == Delivered(log, lo, hi, x)
  {
    if lo < hi { DeliveredExtended(log, more, lo, hi - 1, x); }
  }

  lemma {:induction false} RewardOfPushed(q: RelayersQueue, relayer: Relayer, nonce: nat, begin: nat, end: nat,
                                          x: Relayer)
    requires q != [] ==> q[|q| - 1].messages.begin < nonce == q[|q| - 1].messages.end + 1
    ensures RewardOf(Pushed(q, relayer, nonce), begin, end, x)
         == RewardOf(q, begin, end, x) + if x == relayer && begin <= nonce <= end then 1 else 0
  {
    var p := Pushed(q, relayer, nonce);
    if q != [] && q[|q| - 1].relayer == relayer {
      assert p[..|p| - 1] == q[..|q| - 1];
    } else {
      assert p[..|p| - 1] == q;
    }
  }

  /** Rewarding from an encoded record pays each relayer once per rewarded nonce it delivered. */
  lemma {:induction false} RewardsCountDeliveries(log: seq<Relayer>, lo: nat, hi: nat, begin: nat, end: nat, x: Relayer)
    requires lo < begin && lo <= hi <= |log|
    ensures RewardOf(Encode(log, lo, hi), begin, end, x) == Delivered(log, begin - 1, Min(hi, end), x)
  {
    if lo < hi {
      EncodeIsCanonical(log, lo, hi - 1);
      RewardsCountDeliveries(log, lo, hi - 1, begin, end, x);
      RewardsStep(log, lo, hi, Encode(log, lo, hi - 1), begin, end, x);
    }
  }

  lemma {:induction false} RewardsStep(log: seq<Relayer>, lo: nat, hi: nat, q: RelayersQueue, begin: nat, end: nat,
                                       x: Relayer)
    requires lo < begin && lo < hi <= |log|
    requires q == Encode(log, lo, hi - 1) && Canonical(lo + 1, q) && Next(lo + 1, q) == hi
    requires RewardOf(q, begin, end, x) == Delivered(log, begin - 1, Min(hi - 1, end), x)
    ensures RewardOf(Encode(log, lo, hi), begin, end, x) == Delivered(log, begin - 1, Min(hi, end), x)
  {
    RewardOfPushed(q, log[hi - 1], hi, begin, end, x);
    assert Encode(log, lo, hi) == Pushed(q, log[hi - 1], hi);
    DeliveredStep(log, begin, end, hi, x);
  }

  lemma {:induction false} DeliveredStep(log: seq<Relayer>, begin: nat, end: nat, hi: nat, x: Relayer)
    requires 0 < begin && 0 < hi <= |log|
    ensures Delivered(log, begin - 1, Min(hi, end), x) ==
            Delivered(log, begin - 1, Min(hi - 1, end), x) + if x == log[hi - 1] && begin <= hi <= end then 1 else 0
  {
  }
}
