/**
 * What a run of `match` guarantees: the capacity ceiling, exactly one new slot per TA
 * per round, availability of every recorded pair, and which error ends a failed run.
 */
module MatchLemmas {
  import opened Wrappers
  import opened Seqs
  import opened MatchSpec

  function RowsOf(pairs: Pairs): (r: seq<nat>)
    ensures |r| == |pairs| && forall i :: 0 <= i < |pairs| ==> r[i] == pairs[i].0
  {
    seq(|pairs|, i requires 0 <= i < |pairs| => pairs[i].0)
  }

  function ColsOf(pairs: Pairs): (r: seq<nat>)
    ensures |r| == |pairs| && forall i :: 0 <= i < |pairs| ==> r[i] == pairs[i].1
  {
    seq(|pairs|, i requires 0 <= i < |pairs| => pairs[i].1)
  }

  /** The slot each matched column stands for. */
  function SlotsOf(tags: seq<nat>, pairs: Pairs): (r: seq<nat>)
    requires InRange(ColsOf(pairs), |tags|)
    ensures |r| == |pairs| && forall i :: 0 <= i < |pairs| ==> r[i] == tags[pairs[i].1]
  {
    Picks(tags, ColsOf(pairs))
  }

  /** Free places over slots 0 .. n - 1. */
  function SpotsTotal(lists: seq<seq<nat>>, cap: nat, n: nat): nat
    requires n <= |lists|
  {
    if n == 0 then 0 else SpotsTotal(lists, cap, n - 1) + Spots(lists[n - 1], cap)
  }

  lemma {:induction false} RepeatCount(v: nat, c: nat, s: nat)
    ensures multiset(Repeat(v, c))[s] == if s == v then c else 0
  {
    if c > 0 {
      RepeatCount(v, c - 1, s);
      assert Repeat(v, c) == Repeat(v, c - 1) + [v];
    }
  }

  /** A successful expansion gives slot s exactly Spots(lists[s]) columns. */
  lemma {:induction false} ExpansionCounts(lists: seq<seq<nat>>, cap: nat, numOh: nat, n: nat)
    requires n <= |lists| && Expansion(lists, cap, numOh, n).Ok?
    ensures |Expansion(lists, cap, numOh, n).value| == SpotsTotal(lists, cap, n)
    ensures forall s :: 0 <= s < n ==> multiset(Expansion(lists, cap, numOh, n).value)[s] == Spots(lists[s], cap)
  {
    if n > 0 {
      var tags := Expansion(lists, cap, numOh, n - 1).value;
      ExpansionCounts(lists, cap, numOh, n - 1);
      ExpansionInRange(lists, cap, numOh, n - 1);
      var sp := Spots(lists[n - 1], cap);
      assert Expansion(lists, cap, numOh, n).value == tags + Repeat(n - 1, sp);
      forall s | 0 <= s < n
        ensures multiset(tags + Repeat(n - 1, sp))[s] == Spots(lists[s], cap)
      {
        RepeatCount(n - 1, sp, s);
        if s == n - 1 {
          assert s !in tags;
        }
      }
    }
  }

  /**
   * The expansion fails exactly when some slot below n has a free place but no column in the
   * matrix, and then it names the first such slot.
   */
  lemma {:induction false} ExpansionFails(lists: seq<seq<nat>>, cap: nat, numOh: nat, n: nat)
    requires n <= |lists|
    ensures Expansion(lists, cap, numOh, n).Ok? <==>
      forall s :: 0 <= s < n && Spots(lists[s], cap) > 0 ==> s < numOh
    ensures Expansion(lists, cap, numOh, n).Err? ==>
      exists s :: && numOh <= s < n && Spots(lists[s], cap) > 0
                  && Expansion(lists, cap, numOh, n).error == SlotOutOfRange(s)
                  && forall s' :: 0 <= s' < s && Spots(lists[s'], cap) > 0 ==> s' < numOh
  {
    if n > 0 {
      ExpansionFails(lists, cap, numOh, n - 1);
    }
  }

  /** Free places plus occupants over slots 0 .. n - 1 is n times the capacity. */
  lemma {:induction false} SpotsPlusLen(lists: seq<seq<nat>>, cap: nat, n: nat)
    requires n <= |lists| && forall s :: 0 <= s < |lists| ==> |lists[s]| <= cap
    ensures SpotsTotal(lists, cap, n) + |Flatten(lists[..n])| == n * cap
  {
    if n > 0 {
      SpotsPlusLen(lists, cap, n - 1);
      assert lists[..n][..n - 1] == lists[..n - 1];
      assert (n - 1) * cap + cap == n * cap;
    }
  }

  /** The solver's pairs fit the expanded matrix built from `work` for these tags. */
  predicate FitsExpanded(work: Matrix, lists: seq<seq<nat>>, tags: seq<nat>, pairs: Pairs)
  {
    && (forall j :: 0 <= j < |tags| ==> tags[j] < |lists|)
    && (forall t, j :: 0 <= t < |work| && 0 <= j < |tags| ==> tags[j] < |work[t]|)
    && (forall i :: 0 <= i < |pairs| ==> pairs[i].0 < |work| && pairs[i].1 < |tags|)
  }

  /** Once the expansion has failed at slot n, it fails the same way over every longer prefix. */
  lemma {:induction false} ExpansionErrSticks(lists: seq<seq<nat>>, cap: nat, numOh: nat, n: nat, n': nat)
    requires n <= n' <= |lists| && Expansion(lists, cap, numOh, n).Err?
    ensures Expansion(lists, cap, numOh, n') == Expansion(lists, cap, numOh, n)
    decreases n' - n
  {
    if n < n' {
      ExpansionErrSticks(lists, cap, numOh, n + 1, n');
    }
  }

  /** Once recording has failed on a prefix of the pairs, it fails the same way on all of them. */
  lemma {:induction false} RecordErrSticks(lists: seq<seq<nat>>, tags: seq<nat>, m: Matrix, pairs: Pairs, i: nat)
    requires PairsFit(lists, tags, m, pairs) && i <= |pairs|
    requires Record(lists, tags, m, pairs[..i]).Err?
    ensures Record(lists, tags, m, pairs) == Record(lists, tags, m, pairs[..i])
    decreases |pairs| - i
  {
    if i < |pairs| {
      assert pairs[..i + 1][..i] == pairs[..i];
      RecordErrSticks(lists, tags, m, pairs, i + 1);
    } else {
      assert pairs[..i] == pairs;
    }
  }

  /** Recording appends: each slot gains one entry per pair whose column stands for it. */
  lemma {:induction false} RecordGrows(lists: seq<seq<nat>>, tags: seq<nat>, m: Matrix, pairs: Pairs)
    requires PairsFit(lists, tags, m, pairs) && Record(lists, tags, m, pairs).Ok?
    ensures var ls := Record(lists, tags, m, pairs).value;
      && (forall s :: 0 <= s < |lists| ==> |ls[s]| == |lists[s]| + multiset(SlotsOf(tags, pairs))[s])
      && (forall s :: 0 <= s < |lists| ==> ls[s][..|lists[s]|] == lists[s])
  {
    if pairs != [] {
      var n := |pairs| - 1;
      var front := pairs[..n];
      RecordGrows(lists, tags, m, front);
      var ls := Record(lists, tags, m, front).value;
      var s0 := tags[pairs[n].1];
      var ls' := ls[s0 := ls[s0] + [pairs[n].0]];
      assert Record(lists, tags, m, pairs).value == ls';
      assert SlotsOf(tags, pairs) == SlotsOf(tags, front) + [s0];
      forall s | 0 <= s < |lists| ensures ls'[s][..|lists[s]|] == lists[s] {
        assert ls'[s][..|ls[s]|] == ls[s];
      }
    }
  }

  /** Recording adds every matched TA once to the joined contents of all lists. */
  lemma {:induction false} RecordAdds(lists: seq<seq<nat>>, tags: seq<nat>, m: Matrix, pairs: Pairs)
    requires PairsFit(lists, tags, m, pairs) && Record(lists, tags, m, pairs).Ok?
    ensures var ls := Record(lists, tags, m, pairs).value;
      && multiset(Flatten(ls)) == multiset(Flatten(lists)) + multiset(RowsOf(pairs))
      && |Flatten(ls)| == |Flatten(lists)| + |pairs|
  {
    if pairs != [] {
      var n := |pairs| - 1;
      var front := pairs[..n];
      RecordAdds(lists, tags, m, front);
      var ls := Record(lists, tags, m, front).value;
      var s0 := tags[pairs[n].1];
      var x := pairs[n].0;
      assert Record(lists, tags, m, pairs).value == ls[s0 := ls[s0] + [x]];
      FlattenAppend(ls, s0, x);
      assert RowsOf(pairs) == RowsOf(front) + [x];
      assert multiset(RowsOf(pairs)) == multiset(RowsOf(front)) + multiset{x};
    }
  }

  /** Every entry recording adds is a TA row whose working cell for that slot is valid. */
  lemma {:induction false} RecordValid(work: Matrix, lists: seq<seq<nat>>, tags: seq<nat>, pairs: Pairs)
    requires FitsExpanded(work, lists, tags, pairs)
    requires Record(lists, tags, Expanded(work, tags), pairs).Ok?
    ensures var ls := Record(lists, tags, Expanded(work, tags), pairs).value;
      forall s, i :: 0 <= s < |lists| && |lists[s]| <= i < |ls[s]| ==>
        ls[s][i] < |work| && s < |work[ls[s][i]]| && work[ls[s][i]][s] != INVALID
  {
    if pairs != [] {
      var m := Expanded(work, tags);
      var n := |pairs| - 1;
      var front := pairs[..n];
      RecordValid(work, lists, tags, front);
      var ls := Record(lists, tags, m, front).value;
      var (ta, col) := pairs[n];
      var s0 := tags[col];
      var ls' := ls[s0 := ls[s0] + [ta]];
      assert Record(lists, tags, m, pairs).value == ls';
      assert m[ta][col] == work[ta][s0];
      forall s, i | 0 <= s < |lists| && |lists[s]| <= i < |ls'[s]|
        ensures ls'[s][i] < |work| && s < |work[ls'[s][i]]| && work[ls'[s][i]][s] != INVALID
      {
        if s == s0 && i == |ls[s]| {
          assert ls'[s][i] == ta;
        } else {
          assert ls'[s][i] == ls[s][i];
        }
      }
    }
  }

  /** Recording fails only on a matched INVALID cell, and then names that cell's TA. */
  lemma {:induction false} RecordFails(work: Matrix, lists: seq<seq<nat>>, tags: seq<nat>, pairs: Pairs)
    requires FitsExpanded(work, lists, tags, pairs)
    ensures Record(lists, tags, Expanded(work, tags), pairs).Err? <==>
      exists i :: 0 <= i < |pairs| && work[pairs[i].0][tags[pairs[i].1]] == INVALID
    ensures Record(lists, tags, Expanded(work, tags), pairs).Err? ==>
      exists i :: && 0 <= i < |pairs|
                  && Record(lists, tags, Expanded(work, tags), pairs).error == NoAvailability(pairs[i].0)
                  && work[pairs[i].0][tags[pairs[i].1]] == INVALID
  {
    if pairs != [] {
      var n := |pairs| - 1;
      RecordFails(work, lists, tags, pairs[..n]);
      var m := Expanded(work, tags);
      assert m[pairs[n].0][pairs[n].1] == work[pairs[n].0][tags[pairs[n].1]];
      if Record(lists, tags, m, pairs[..n]).Err? {
        var i :| 0 <= i < n && work[pairs[..n][i].0][tags[pairs[..n][i].1]] == INVALID;
        assert pairs[..n][i] == pairs[i];
      } else {
        forall i | 0 <= i < n ensures work[pairs[i].0][tags[pairs[i].1]] != INVALID {
          assert pairs[..n][i] == pairs[i];
        }
      }
    }
  }

  /** Distinct values below n, n of them: each occurs exactly once. */
  lemma CoversOnce(xs: seq<nat>, n: nat, v: nat)
    requires Distinct(xs) && InRange(xs, n) && |xs| == n && v < n
    ensures multiset(xs)[v] == 1
  {
    DistinctCovers(xs, n, v);
    var i :| 0 <= i < |xs| && xs[i] == v;
    assert xs == xs[..i] + [v] + xs[i + 1..];
    assert v !in xs[..i] by {
      forall j | 0 <= j < i ensures xs[..i][j] != v { assert xs[..i][j] == xs[j]; }
    }
    assert v !in xs[i + 1..] by {
      forall j | i + 1 <= j < |xs| ensures xs[j] != v { assert xs[j] != xs[i]; }
    }
  }

  /** A positive width of rows * (cap - k) columns is at least `rows` columns. */
  lemma AtLeastRows(rows: nat, cap: nat, k: nat, width: nat)
    requires width + rows * k == rows * cap && width > 0
    ensures rows >= 1 && k < cap && width >= rows
  {
    var d: int := cap - k;
    assert rows * cap == rows * k + rows * d;
    assert width == rows * d;
    assert rows * d == rows + rows * (d - 1);
  }

  /** Each list of `ls'` starts with the corresponding list of `ls`: entries are only appended. */
  ghost predicate Extends(ls: seq<seq<nat>>, ls': seq<seq<nat>>) {
    && |ls'| == |ls|
    && forall s :: 0 <= s < |ls| ==> |ls[s]| <= |ls'[s]| && ls'[s][..|ls[s]|] == ls[s]
  }

  /** No slot list holds more than `cap` entries. */
  ghost predicate WithinCapacity(ls: seq<seq<nat>>, cap: nat) {
    forall s :: 0 <= s < |ls| ==> |ls[s]| <= cap
  }

  /** Every entry is a TA row, on a slot with a column, whose working cell is valid. */
  ghost predicate EntriesValid(work: Matrix, ls: seq<seq<nat>>) {
    forall s, i :: 0 <= s < |ls| && 0 <= i < |ls[s]| ==>
      ls[s][i] < |work| && s < |work[ls[s][i]]| && work[ls[s][i]][s] != INVALID
  }

  /** Every TA row occurs exactly k times among all lists, and nothing else occurs. */
  ghost predicate EachTaTimes(work: Matrix, ls: seq<seq<nat>>, k: nat) {
    CountsEach(Flatten(ls), |work|, k)
  }

  /** Each of 0 .. n-1 occurs exactly k times in `xs` and nothing else occurs. */
  ghost predicate CountsEach(xs: seq<nat>, n: nat, k: nat) {
    && (forall v: nat :: v < n ==> multiset(xs)[v] == k)
    && |xs| == k * n
  }

  /**
   * The run invariant after k rounds over a working copy with N rows: N slot lists, none
   * above capacity, every entry a TA row on a slot whose working cell is valid, and every
   * TA exactly k times among all lists.
   */
  ghost predicate Inv(work: Matrix, ls: seq<seq<nat>>, cap: nat, numOh: nat, k: nat) {
    && |ls| == |work|
    && WithinCapacity(ls, cap)
    && EntriesValid(work, ls)
    && EachTaTimes(work, ls, k)
    && (k > 0 ==> 1 <= |work| <= numOh && k <= cap)
  }

  /** The facts about one round's expansion and solver result that recording relies on. */
  ghost predicate RoundSetup(work: Matrix, ls: seq<seq<nat>>, cap: nat, numOh: nat, tags: seq<nat>, pairs: Pairs) {
    && Shaped(work, ls, numOh)
    && Expansion(ls, cap, numOh, |ls|) == Ok(tags)
    && IsAssignment(|ls|, |tags|, pairs)
    && FitsExpanded(work, ls, tags, pairs)
  }

  lemma RecordKeepsCapacity(work: Matrix, ls: seq<seq<nat>>, cap: nat, numOh: nat, tags: seq<nat>, pairs: Pairs)
    requires RoundSetup(work, ls, cap, numOh, tags, pairs) && WithinCapacity(ls, cap)
    requires Record(ls, tags, Expanded(work, tags), pairs).Ok?
    ensures WithinCapacity(Record(ls, tags, Expanded(work, tags), pairs).value, cap)
  {
    var ls' := Record(ls, tags, Expanded(work, tags), pairs).value;
    ExpansionCounts(ls, cap, numOh, |ls|);
    RecordGrows(ls, tags, Expanded(work, tags), pairs);
    PicksSubmultiset(tags, ColsOf(pairs));
    forall s: nat | s < |ls| ensures |ls'[s]| <= cap {
      var taken: multiset<nat> := multiset(SlotsOf(tags, pairs));
      var all: multiset<nat> := multiset(tags);
      assert taken[s] <= all[s];
    }
  }

  lemma RecordKeepsValid(work: Matrix, ls: seq<seq<nat>>, cap: nat, numOh: nat, tags: seq<nat>, pairs: Pairs)
    requires RoundSetup(work, ls, cap, numOh, tags, pairs) && EntriesValid(work, ls)
    requires Record(ls, tags, Expanded(work, tags), pairs).Ok?
    ensures EntriesValid(work, Record(ls, tags, Expanded(work, tags), pairs).value)
    ensures Extends(ls, Record(ls, tags, Expanded(work, tags), pairs).value)
  {
    var ls' := Record(ls, tags, Expanded(work, tags), pairs).value;
    RecordGrows(ls, tags, Expanded(work, tags), pairs);
    RecordValid(work, ls, tags, pairs);
    forall s, i | 0 <= s < |ls'| && 0 <= i < |ls'[s]|
      ensures ls'[s][i] < |work| && s < |work[ls'[s][i]]| && work[ls'[s][i]][s] != INVALID
    {
      if i < |ls[s]| {
        assert ls'[s][..|ls[s]|][i] == ls[s][i];
      }
    }
  }

  /** One more entry per TA: a round whose rows are a permutation of the TAs raises every count by one. */
  lemma CountsOnce(n: nat, before: seq<nat>, rows: seq<nat>, after: seq<nat>, k: nat)
    requires multiset(after) == multiset(before) + multiset(rows) && |after| == |before| + |rows|
    requires Distinct(rows) && InRange(rows, n) && |rows| == n
    requires CountsEach(before, n, k)
    ensures CountsEach(after, n, k + 1)
  {
    forall ta: nat | ta < n ensures multiset(after)[ta] == k + 1 {
      CoversOnce(rows, n, ta);
    }
    MulSucc(k, n);
  }

  lemma MulSucc(k: nat, n: nat)
    ensures k * n + n == (k + 1) * n
  {
  }

  /** The width of a successful expansion is N * cap minus the entries already placed. */
  lemma ExpansionWidth(work: Matrix, ls: seq<seq<nat>>, cap: nat, numOh: nat, k: nat)
    requires Inv(work, ls, cap, numOh, k) && Expansion(ls, cap, numOh, |ls|).Ok?
    ensures |Expansion(ls, cap, numOh, |ls|).value| + |ls| * k == |ls| * cap
  {
    ExpansionCounts(ls, cap, numOh, |ls|);
    SpotsPlusLen(ls, cap, |ls|);
    assert ls[..|ls|] == ls;
  }

  /** In the first round every slot has a free place, so every slot needs a matrix column. */
  lemma FirstRoundSlots(work: Matrix, ls: seq<seq<nat>>, cap: nat, numOh: nat)
    requires Inv(work, ls, cap, numOh, 0) && Expansion(ls, cap, numOh, |ls|).Ok? && cap > 0
    ensures |ls| <= numOh
  {
    ExpansionFails(ls, cap, numOh, |ls|);
    if |ls| > 0 {
      var n := |ls| - 1;
      if ls[n] != [] {
        FlattenHas(ls, n, 0);
      }
      assert Spots(ls[n], cap) > 0;
    }
  }

  /** Recording a full assignment of the TA rows keeps the invariant, one more entry per TA. */
  lemma RecordKeeps(work: Matrix, ls: seq<seq<nat>>, cap: nat, numOh: nat, tags: seq<nat>, pairs: Pairs, k: nat)
    requires RoundSetup(work, ls, cap, numOh, tags, pairs) && Inv(work, ls, cap, numOh, k)
    requires |pairs| == |ls| >= 1 && k < cap && |ls| <= numOh
    requires Record(ls, tags, Expanded(work, tags), pairs).Ok?
    ensures Inv(work, Record(ls, tags, Expanded(work, tags), pairs).value, cap, numOh, k + 1)
    ensures Extends(ls, Record(ls, tags, Expanded(work, tags), pairs).value)
  {
    var n := |ls|;
    var ls' := Record(ls, tags, Expanded(work, tags), pairs).value;
    RecordKeepsCapacity(work, ls, cap, numOh, tags, pairs);
    RecordKeepsValid(work, ls, cap, numOh, tags, pairs);
    assert Distinct(RowsOf(pairs)) && InRange(RowsOf(pairs), n);
    RecordAdds(ls, tags, Expanded(work, tags), pairs);
    assert EachTaTimes(work, ls, k);
    CountsOnce(n, Flatten(ls), RowsOf(pairs), Flatten(ls'), k);
    assert EachTaTimes(work, ls', k + 1);
  }

  /** One successful round keeps the invariant, adding exactly one slot per TA. */
  lemma RoundKeeps(work: Matrix, ls: seq<seq<nat>>, cap: nat, numOh: nat, solve: Solver, k: nat)
    requires Shaped(work, ls, numOh) && SolverContract(solve)
    requires Inv(work, ls, cap, numOh, k)
    requires Round(work, ls, cap, numOh, solve).Ok?
    ensures Inv(work, Round(work, ls, cap, numOh, solve).value, cap, numOh, k + 1)
    ensures Extends(ls, Round(work, ls, cap, numOh, solve).value)
  {
    var n := |ls|;
    var tags := Expansion(ls, cap, numOh, n).value;
    ExpansionInRange(ls, cap, numOh, n);
    ExpansionWidth(work, ls, cap, numOh, k);
    AtLeastRows(n, cap, k, |tags|);
    if k == 0 {
      FirstRoundSlots(work, ls, cap, numOh);
    }
    var m := Expanded(work, tags);
    var pairs := solve(m);
    assert Width(m) == |tags|;
    assert RoundSetup(work, ls, cap, numOh, tags, pairs);
    assert Round(work, ls, cap, numOh, solve) == Record(ls, tags, m, pairs);
    RecordKeeps(work, ls, cap, numOh, tags, pairs, k);
  }

  /** An entry of a list is among the joined contents. */
  lemma {:induction false} FlattenHas<T>(lists: seq<seq<T>>, s: nat, i: nat)
    requires s < |lists| && i < |lists[s]|
    ensures lists[s][i] in multiset(Flatten(lists))
  {
    var n := |lists| - 1;
    assert Flatten(lists) == Flatten(lists[..n]) + lists[n];
    if s < n {
      assert lists[..n][s] == lists[s];
      FlattenHas(lists[..n], s, i);
    } else {
      assert lists[n][i] in lists[n];
    }
  }
}
