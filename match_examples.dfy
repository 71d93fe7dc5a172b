/**
 * A concrete run of `match`: with no decay, noise or invalidation, a TA can be placed in the
 * same slot twice.
 */
module MatchExamples {
  import opened Wrappers
  import opened Seqs
  import opened MatchSpec
  import opened MatchLemmas

  /** A solver that pairs row i with column i: one-to-one, as the solver's contract asks. */
  function Diagonal(m: Matrix): (p: Pairs)
    ensures IsAssignment(|m|, Width(m), p)
  {
    seq(Min(|m|, Width(m)), i requires 0 <= i => (i, i))
  }

  lemma DiagonalSolves()
    ensures SolverContract(Diagonal)
  {
  }

  /** One slot list with c < 3 entries free of two places expands to c copies of slot 0. */
  lemma RepeatExpansion(lists: seq<seq<nat>>, c: nat)
    requires |lists| == 1 && |lists[0]| + c == 2
    ensures Expansion(lists, 2, 2, 1) == Ok(Repeat(0, c))
  {
    assert Expansion(lists, 2, 2, 0) == Ok([]);
    assert [] + Repeat(0, c) == Repeat(0, c);
  }

  /** On a one-row matrix with a column, the diagonal solver matches row 0 to column 0. */
  lemma DiagonalOneRow(m: Matrix)
    requires |m| == 1 && Width(m) >= 1
    ensures Diagonal(m) == [(0, 0)]
  {
  }

  /** Recording the single pair (0, 0) on an available cell appends TA 0 to slot 0. */
  lemma RecordOnePair(lists: seq<seq<nat>>, tags: seq<nat>, m: Matrix)
    requires |lists| == 1 && |tags| >= 1 && tags[0] == 0 && |m| >= 1
    requires PairsFit(lists, tags, m, [(0, 0)]) && m[0][0] != INVALID
    ensures Record(lists, tags, m, [(0, 0)]) == Ok([lists[0] + [0]])
  {
    assert [(0, 0)][..0] == [];
    assert Record(lists, tags, m, []) == Ok(lists);
    assert lists[0 := lists[0] + [0]] == [lists[0] + [0]];
  }

  /** A round of the repeat example: slot 0 has a free place, and TA 0 takes one. */
  lemma RepeatRound(work: Matrix, lists: seq<seq<nat>>, c: nat)
    requires work == [[2.0, 1.0]] && SolverContract(Diagonal)
    requires |lists| == 1 && |lists[0]| + c == 2 && c > 0
    ensures Shaped(work, lists, 2)
    ensures Round(work, lists, 2, 2, Diagonal) == Ok([lists[0] + [0]])
  {
    RepeatExpansion(lists, c);
    var tags := Repeat(0, c);
    var m := Expanded(work, tags);
    DiagonalOneRow(m);
    RecordOnePair(lists, tags, m);
  }

  /** One more round after a successful run of k rounds. */
  lemma RunNext(work: Matrix, lists: seq<seq<nat>>, cap: nat, numOh: nat, solve: Solver, k: nat, ls: seq<seq<nat>>)
    requires Shaped(work, lists, numOh) && SolverContract(solve)
    requires Run(work, lists, cap, numOh, solve, k) == Ok(ls)
    ensures Shaped(work, ls, numOh)
    ensures Run(work, lists, cap, numOh, solve, k + 1) == Round(work, ls, cap, numOh, solve)
  {
  }

  /** The working copy of the repeat example. */
  lemma RepeatWorkingCopy()
    ensures WorkingCopy([[Score(2.0), Score(1.0)]]) == [[2.0, 1.0]]
  {
    var w := WorkingCopy([[Score(2.0), Score(1.0)]]);
    assert w[0] == [2.0, 1.0];
  }

  /**
   * Nothing stops `match` from placing a TA in the same slot twice: one TA, two slots, two
   * rounds and two places per slot give the list [0, 0] for slot 0.
   */
  lemma RepeatedPlacement(prefs: seq<seq<Pref>>)
    requires prefs == [[Score(2.0), Score(1.0)]]
    ensures IsRect(prefs, 2) && SolverContract(Diagonal)
    ensures MatchRun(prefs, 2, 2, 2, Diagonal) == Ok([[0, 0]])
  {
    var start: seq<seq<nat>> := [[]];
    var once: seq<seq<nat>> := [[0]];
    var twice: seq<seq<nat>> := [[0, 0]];
    assert start[0] + [0] == [0];
    assert [start[0] + [0]] == once;
    assert once[0] + [0] == [0, 0];
    assert [once[0] + [0]] == twice;
    assert EmptyLists(|prefs|) == start;
    RepeatWorkingCopy();
    var work := WorkingCopy(prefs);
    DiagonalSolves();
    RepeatRound(work, start, 2);
    RunNext(work, start, 2, 2, Diagonal, 0, start);
    RepeatRound(work, once, 1);
    RunNext(work, start, 2, 2, Diagonal, 1, once);
  }
}
