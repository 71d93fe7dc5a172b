/**
 * `match` as the source runs it: one occupant list per TA-count slot in an array that the
 * rounds append to, a capacity expansion built by nested loops, and a record loop that
 * reaches the slot lists through the expansion's tags.
 */
module MatchMethod {
  import opened Wrappers
  import opened Seqs
  import opened MatchSpec
  import opened MatchLemmas
  import opened MatchTheorems

  /**
   * The expansion loop: for every slot list in order, one copy of the slot's working column
   * and one tag per free place; reading a column past num_oh is the IndexError.
   */
  method ExpandCapacity(work: Matrix, lists: seq<seq<nat>>, cap: nat, numOh: nat)
    returns (r: Result<(seq<seq<real>>, seq<nat>), MatchError>)
    requires Shaped(work, lists, numOh)
    ensures Expansion(lists, cap, numOh, |lists|).Err? ==>
      r == Err(Expansion(lists, cap, numOh, |lists|).error)
    ensures Expansion(lists, cap, numOh, |lists|).Ok? ==>
      && r.Ok? && r.value.1 == Expansion(lists, cap, numOh, |lists|).value
      && InRange(r.value.1, numOh) && r.value.0 == Columns(work, r.value.1)
  {
    var columns: seq<seq<real>> := [];
    var tags: seq<nat> := [];
    var s := 0;
    while s < |lists|
      invariant 0 <= s <= |lists|
      invariant Expansion(lists, cap, numOh, s) == Ok(tags)
      invariant InRange(tags, numOh) && |columns| == |tags|
      invariant forall c :: 0 <= c < |tags| ==> columns[c] == Column(work, tags[c])
    {
      var left: int := cap - |lists[s]|;
      var j := 0;
      ghost var before := tags;
      while j < left
        invariant 0 <= j && (left > 0 ==> j <= left) && (left <= 0 ==> j == 0)
        invariant tags == before + Repeat(s, j)
        invariant j > 0 ==> s < numOh
        invariant InRange(tags, numOh) && |columns| == |tags|
        invariant forall c :: 0 <= c < |tags| ==> columns[c] == Column(work, tags[c])
      {
        if numOh <= s {
          assert Spots(lists[s], cap) > 0;
          ExpansionErrSticks(lists, cap, numOh, s + 1, |lists|);
          return Err(SlotOutOfRange(s));
        }
        columns := columns + [Column(work, s)];
        tags := tags + [s];
        j := j + 1;
        assert Repeat(s, j) == Repeat(s, j - 1) + [s];
      }
      assert j == Spots(lists[s], cap);
      assert Expansion(lists, cap, numOh, s + 1) == Ok(tags);
      s := s + 1;
    }
    assert columns == Columns(work, tags);
    return Ok((columns, tags));
  }

  /**
   * The record loop: every solver pair in order appends its TA to the list its column
   * stands for, and a matched INVALID cell ends the run.
   */
  method RecordMatches(lists: array<seq<nat>>, tags: seq<nat>, m: Matrix, pairs: Pairs)
    returns (err: Option<MatchError>)
    requires PairsFit(lists[..], tags, m, pairs)
    modifies lists
    ensures Record(old(lists[..]), tags, m, pairs).Ok? ==>
      err.None? && lists[..] == Record(old(lists[..]), tags, m, pairs).value
    ensures Record(old(lists[..]), tags, m, pairs).Err? ==>
      err == Some(Record(old(lists[..]), tags, m, pairs).error)
  {
    ghost var start := lists[..];
    var i := 0;
    while i < |pairs|
      invariant 0 <= i <= |pairs| && lists.Length == |start|
      invariant Record(start, tags, m, pairs[..i]) == Ok(lists[..])
    {
      var (ta, col) := pairs[i];
      assert pairs[..i + 1][..i] == pairs[..i];
      if m[ta][col] == INVALID {
        RecordErrSticks(start, tags, m, pairs, i + 1);
        return Some(NoAvailability(ta));
      }
      lists[tags[col]] := lists[tags[col]] + [ta];
      i := i + 1;
    }
    assert pairs[..i] == pairs;
    return None;
  }

  /** One round: expand, stack, solve, record. */
  method PlayRound(work: Matrix, lists: array<seq<nat>>, cap: nat, numOh: nat, solve: Solver)
    returns (err: Option<MatchError>)
    requires Shaped(work, lists[..], numOh) && SolverContract(solve)
    modifies lists
    ensures Round(work, old(lists[..]), cap, numOh, solve).Ok? ==>
      err.None? && lists[..] == Round(work, old(lists[..]), cap, numOh, solve).value
    ensures Round(work, old(lists[..]), cap, numOh, solve).Err? ==>
      err == Some(Round(work, old(lists[..]), cap, numOh, solve).error)
  {
    ghost var ls := lists[..];
    var expanded := ExpandCapacity(work, lists[..], cap, numOh);
    if expanded.Err? {
      return Some(expanded.error);
    }
    var (columns, tags) := expanded.value;
    ExpansionInRange(ls, cap, numOh, |ls|);
    if columns == [] {
      return Some(EmptyCapacity);
    }
    var m := Stack(columns, lists.Length);
    assert m == Expanded(work, tags);
    var pairs := solve(m);
    assert Width(m) == |tags|;
    assert Round(work, ls, cap, numOh, solve) == Record(ls, tags, m, pairs);
    err := RecordMatches(lists, tags, m, pairs);
  }

  /** The first k rounds of a run from empty lists produced `ls`. */
  ghost predicate Reached(work: Matrix, numTa: nat, cap: nat, numOh: nat, solve: Solver, k: nat, ls: seq<seq<nat>>)
    requires Shaped(work, EmptyLists(numTa), numOh) && SolverContract(solve)
  {
    Run(work, EmptyLists(numTa), cap, numOh, solve, k) == Ok(ls)
  }

  /** Round k + 1 of a run whose first k rounds produced the slot lists held in `lists`. */
  method NextRound(work: Matrix, lists: array<seq<nat>>, cap: nat, numOh: nat, solve: Solver, ghost k: nat)
    returns (err: Option<MatchError>)
    requires Shaped(work, EmptyLists(lists.Length), numOh) && SolverContract(solve)
    requires Reached(work, lists.Length, cap, numOh, solve, k, lists[..])
    modifies lists
    ensures err.None? ==> Reached(work, lists.Length, cap, numOh, solve, k + 1, lists[..])
    ensures err.Some? ==> Run(work, EmptyLists(lists.Length), cap, numOh, solve, k + 1) == Err(err.value)
  {
    err := PlayRound(work, lists, cap, numOh, solve);
  }

  /** A run that failed after k rounds fails the same way after more. */
  lemma RunStops(work: Matrix, numTa: nat, cap: nat, numOh: nat, solve: Solver, k: nat, rounds: nat, e: MatchError)
    requires Shaped(work, EmptyLists(numTa), numOh) && SolverContract(solve)
    requires k <= rounds && Run(work, EmptyLists(numTa), cap, numOh, solve, k) == Err(e)
    ensures Run(work, EmptyLists(numTa), cap, numOh, solve, rounds) == Err(e)
  {
    RunErrSticks(work, EmptyLists(numTa), cap, numOh, solve, k, rounds);
  }

  /** `[list() for _ in range(n)]`, as a fresh array. */
  method NewLists(n: nat) returns (lists: array<seq<nat>>)
    ensures fresh(lists) && lists[..] == EmptyLists(n)
  {
    lists := new seq<nat>[n](_ => []);
  }

  /** The round loop: `oh_per_ta` rounds over the slot lists, stopping at the first error. */
  method PlayRounds(work: Matrix, numTa: nat, ohPerTa: nat, cap: nat, numOh: nat, solve: Solver)
    returns (r: Result<seq<seq<nat>>, MatchError>)
    requires Shaped(work, EmptyLists(numTa), numOh) && SolverContract(solve)
    ensures r == Run(work, EmptyLists(numTa), cap, numOh, solve, ohPerTa)
  {
    var lists := NewLists(numTa);
    var k := 0;
    while k < ohPerTa
      invariant 0 <= k <= ohPerTa && lists.Length == numTa
      invariant Reached(work, numTa, cap, numOh, solve, k, lists[..])
    {
      var err := NextRound(work, lists, cap, numOh, solve, k);
      if err.Some? {
        RunStops(work, numTa, cap, numOh, solve, k + 1, ohPerTa, err.value);
        return Err(err.value);
      }
      k := k + 1;
    }
    return Ok(lists[..]);
  }

  /**
   * `match(prefs, oh_per_ta=3, max_ta_per_oh=4)`: the caller's matrix is only read; the
   * result is the run's slot lists, or the error that ends it.
   */
  method Match(prefs: seq<seq<Pref>>, numOh: nat, solve: Solver, ohPerTa: nat := 3, cap: nat := 4)
    returns (r: Result<seq<seq<nat>>, MatchError>)
    requires IsRect(prefs, numOh) && SolverContract(solve)
    ensures r == MatchRun(prefs, numOh, ohPerTa, cap, solve)
    ensures r.Ok? ==> Assigned(prefs, numOh, ohPerTa, cap, r.value)
  {
    var work := WorkingCopy(prefs);
    r := PlayRounds(work, |prefs|, ohPerTa, cap, numOh, solve);
    if r.Ok? {
      MatchAssigned(prefs, numOh, ohPerTa, cap, solve, r.value);
    }
  }
}
