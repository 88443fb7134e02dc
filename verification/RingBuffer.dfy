/**
  A ring of slots kept beside a map: the slots remember the order of insertion, and the slot about to
  be overwritten names the map entry to drop. Both light clients prune their storage this way.
 */
module RingBuffer {
  /** Position of the first of the last `keep` insertions. */
  function Oldest(count: nat, keep: nat): nat { if count <= keep then 0 else count - keep }

  /** The last `keep` inserted keys. */
  ghost function Window<K>(log: seq<K>, keep: nat): set<K> {
    set i | Oldest(|log|, keep) <= i < |log| :: log[i]
  }

  /** The slot of the i-th insertion: i modulo the number of slots. */
  ghost function Slot(i: nat, keep: nat): nat
    requires keep > 0
  {
    if i < keep then i else Slot(i - keep, keep)
  }

  /** The last `keep` insertions are in their slots, and `nextIndex` is the next slot. */
  ghost predicate RingInv<K>(slots: map<nat, K>, nextIndex: nat, keep: nat, log: seq<K>) {
    && keep > 0
    && nextIndex == Slot(|log|, keep)
    && (forall p :: p in slots <==> 0 <= p < keep && p < |log|)
    && (forall i :: Oldest(|log|, keep) <= i < |log| ==> Slot(i, keep) in slots && slots[Slot(i, keep)] == log[i])
  }

  /** Inserting keeps the ring, and finds in its slot exactly the insertion that leaves the window. */
  lemma {:induction false} RingInsert<K>(slots: map<nat, K>, nextIndex: nat, keep: nat, log: seq<K>, key: K)
    requires RingInv(slots, nextIndex, keep, log)
    ensures RingInv(slots[nextIndex := key], (nextIndex + 1) % keep, keep, log + [key])
    ensures nextIndex in slots <==> |log| >= keep
    ensures |log| >= keep ==> slots[nextIndex] == log[|log| - keep]
  {
    var n, log' := |log|, log + [key];
    SlotStep(n, keep);
    forall i | Oldest(|log'|, keep) <= i < |log'|
      ensures Slot(i, keep) in slots[nextIndex := key] && slots[nextIndex := key][Slot(i, keep)] == log'[i]
    {
      if i < n { SlotDistinct(i, n, keep); }
    }
  }

  lemma {:induction false} SlotStep(n: nat, keep: nat)
    requires keep > 0
    ensures Slot(n, keep) < keep
    ensures Slot(n + 1, keep) == (Slot(n, keep) + 1) % keep
  {
    if n >= keep { SlotStep(n - keep, keep); }
  }

  lemma {:induction false} SlotDistinct(i: nat, n: nat, keep: nat)
    requires keep > 0 && 0 < n - i < keep
    ensures Slot(i, keep) != Slot(n, keep)
  {
    if i >= keep { SlotDistinct(i - keep, n - keep, keep); }
  }

  /** With distinct keys, inserting moves the window by one key. */
  lemma WindowInsert<K>(log: seq<K>, keep: nat, key: K)
    requires keep > 0
    requires forall i, j :: 0 <= i < j < |log + [key]| ==> (log + [key])[i] != (log + [key])[j]
    ensures Window(log + [key], keep)
         == Window(log, keep) + {key} - (if |log| >= keep then {log[|log| - keep]} else {})
  {
    var log' := log + [key];
    var gone := if |log| >= keep then {log[|log| - keep]} else {};
    forall k | k in Window(log, keep) + {key} - gone ensures k in Window(log', keep) {
      if k == key {
        assert log'[|log|] == key;
      } else {
        var i :| Oldest(|log|, keep) <= i < |log| && log[i] == k;
        assert log'[i] == k;
      }
    }
    forall k | k in Window(log', keep) ensures k in Window(log, keep) + {key} && k !in gone {
      var i :| Oldest(|log'|, keep) <= i < |log'| && log'[i] == k;
      if |log| >= keep { assert log'[|log| - keep] == log[|log| - keep]; }
    }
  }

  /** Even with repeated keys, what stays in the window is the old window and the new key. */
  lemma WindowInsertAny<K>(log: seq<K>, keep: nat, key: K, k: K)
    requires keep > 0 && k in Window(log, keep)
    requires |log| >= keep ==> k != log[|log| - keep]
    ensures k in Window(log + [key], keep)
  {
    var i :| Oldest(|log|, keep) <= i < |log| && log[i] == k;
    assert (log + [key])[i] == k;
  }

  lemma {:induction false} WindowSize<K>(log: seq<K>, keep: nat)
    ensures |Window(log, keep)| <= keep
  {
    if |log| == 0 || keep == 0 {
      assert Window(log, keep) == {};
    } else {
      var init := log[..|log| - 1];
      WindowSize(init, keep - 1);
      assert Window(log, keep) == Window(init, keep - 1) + {log[|log| - 1]};
    }
  }
}
