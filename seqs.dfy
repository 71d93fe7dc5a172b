/** Sequence facts shared by the engine and the scoring module. */
module Seqs {

  predicate Distinct<T(==)>(xs: seq<T>) {
    forall i, j :: 0 <= i < j < |xs| ==> xs[i] != xs[j]
  }

  predicate InRange(ds: seq<nat>, n: nat) {
    forall i :: 0 <= i < |ds| ==> ds[i] < n
  }

  /** The entries of `row` at the positions `ds`, in that order (numpy fancy indexing). */
  function Picks<T>(row: seq<T>, ds: seq<nat>): (r: seq<T>)
    requires InRange(ds, |row|)
    ensures |r| == |ds|
    ensures forall i :: 0 <= i < |ds| ==> r[i] == row[ds[i]]
  {
    seq(|ds|, i requires 0 <= i < |ds| => row[ds[i]])
  }

  /** Entries taken at distinct positions form a sub-multiset of the row. */
  lemma {:induction false} PicksSubmultiset<T>(row: seq<T>, ds: seq<nat>)
    requires InRange(ds, |row|) && Distinct(ds)
    ensures multiset(Picks(row, ds)) <= multiset(row)
    decreases |row|
  {
    if ds != [] {
      assert ds[0] < |row|;
      var n := |row| - 1;
      var front := row[..n];
      assert row == front + [row[n]];
      if j :| 0 <= j < |ds| && ds[j] == n {
        var rest := ds[..j] + ds[j + 1..];
        RemoveAtBelow(ds, j, n);
        PicksSubmultiset(front, rest);
        PicksRemoveAt(row, ds, j);
        assert Picks(row, rest) == Picks(front, rest);
      } else {
        assert InRange(ds, |front|) by {
          forall i | 0 <= i < |ds| ensures ds[i] < n {
            assert ds[i] != n;
          }
        }
        PicksSubmultiset(front, ds);
        assert Picks(row, ds) == Picks(front, ds);
      }
    }
  }

  /** Deleting the only occurrence of n from distinct positions below n + 1 leaves distinct positions below n. */
  lemma RemoveAtBelow(ds: seq<nat>, j: nat, n: nat)
    requires InRange(ds, n + 1) && Distinct(ds) && j < |ds| && ds[j] == n
    ensures InRange(ds[..j] + ds[j + 1..], n) && Distinct(ds[..j] + ds[j + 1..])
  {
    var rest := ds[..j] + ds[j + 1..];
    forall i | 0 <= i < |rest| ensures rest[i] == ds[if i < j then i else i + 1] {
    }
    forall a, b | 0 <= a < b < |rest| ensures rest[a] != rest[b] {
      var a' := if a < j then a else a + 1;
      var b' := if b < j then b else b + 1;
      assert rest[a] == ds[a'] && rest[b] == ds[b'] && a' < b';
    }
    forall i | 0 <= i < |rest| ensures rest[i] < n {
      var i' := if i < j then i else i + 1;
      assert rest[i] == ds[i'] && i' != j;
    }
  }

  /** Picking at ds is picking at ds without position j, plus the entry at ds[j]. */
  lemma PicksRemoveAt<T>(row: seq<T>, ds: seq<nat>, j: nat)
    requires InRange(ds, |row|) && j < |ds|
    ensures InRange(ds[..j] + ds[j + 1..], |row|)
    ensures multiset(Picks(row, ds)) == multiset(Picks(row, ds[..j] + ds[j + 1..])) + multiset{row[ds[j]]}
  {
    var rest := ds[..j] + ds[j + 1..];
    assert ds == ds[..j] + [ds[j]] + ds[j + 1..];
    forall i | 0 <= i < |rest| ensures rest[i] < |row| {
      assert rest[i] == ds[if i < j then i else i + 1];
    }
    assert Picks(row, ds) == Picks(row, ds[..j]) + [row[ds[j]]] + Picks(row, ds[j + 1..]);
    assert Picks(row, rest) == Picks(row, ds[..j]) + Picks(row, ds[j + 1..]);
  }

  /** The positions 0, 1, ..., n - 1. */
  function Range(n: nat): (r: seq<nat>)
    ensures |r| == n && forall i :: 0 <= i < n ==> r[i] == i
  {
    seq(n, i => i)
  }

  /** n distinct values below n are all of 0 .. n - 1 (pigeonhole). */
  lemma DistinctCovers(xs: seq<nat>, n: nat, v: nat)
    requires Distinct(xs) && InRange(xs, n) && |xs| == n && v < n
    ensures v in xs
  {
    PicksSubmultiset(Range(n), xs);
    assert Picks(Range(n), xs) == xs;
    var whole := multiset(Range(n));
    var part := multiset(xs);
    assert whole == part + (whole - part);
    assert |whole - part| == 0;
    assert part == whole;
    assert Range(n)[v] == v;
    assert v in whole;
  }

  /** All lists joined end to end (itertools.chain). */
  function Flatten<T>(lists: seq<seq<T>>): seq<T>
  {
    if lists == [] then [] else Flatten(lists[..|lists| - 1]) + lists[|lists| - 1]
  }

  /** Appending x to one list adds exactly one x to the joined contents. */
  lemma {:induction false} FlattenAppend<T>(lists: seq<seq<T>>, s: nat, x: T)
    requires s < |lists|
    ensures multiset(Flatten(lists[s := lists[s] + [x]])) == multiset(Flatten(lists)) + multiset{x}
    ensures |Flatten(lists[s := lists[s] + [x]])| == |Flatten(lists)| + 1
  {
    var n := |lists| - 1;
    var updated := lists[s := lists[s] + [x]];
    if s == n {
      assert updated[..n] == lists[..n];
      assert Flatten(updated) == Flatten(lists) + [x];
    } else {
      assert updated[..n] == lists[..n][s := lists[s] + [x]];
      FlattenAppend(lists[..n], s, x);
      assert Flatten(updated) == Flatten(updated[..n]) + lists[n];
      assert Flatten(lists) == Flatten(lists[..n]) + lists[n];
    }
  }
}
