/**
 * The round-based capacitated matcher of oh_sched/match.py (`match`), as functions.
 *
 * A run takes a (num_ta x num_oh) preference matrix. It writes the sentinel INVALID over
 * unavailable cells of a working copy and keeps one occupant list per slot index
 * 0 .. num_ta - 1 (the result is sized by the TA count). It then plays `oh_per_ta` rounds.
 * A round repeats every slot's working column once per free place, hands the expanded
 * matrix to an optimal assignment solver and appends each matched TA to the list of the
 * slot its column came from.
 */
module MatchSpec {
  import opened Wrappers
  import opened Seqs

  /** A cell of the caller's preference matrix: NaN there means unavailable. */
  datatype Pref = Unavailable | Score(value: real)

  /** The score written over unavailable cells of the working copy. */
  const INVALID: real := -1.0

  type Matrix = seq<seq<real>>

  /** What the solver returns: (row, column) pairs, zipped from its two index arrays. */
  type Pairs = seq<(nat, nat)>

  /** The external optimal assignment solver (scipy's linear_sum_assignment, maximize=True). */
  type Solver = Matrix -> Pairs

  datatype MatchError =
    | SlotOutOfRange(slot: nat)   // IndexError: a free place in slot `slot` >= num_oh
    | EmptyCapacity               // np.stack of an empty list: no free place left anywhere
    | NoAvailability(ta: nat)     // RuntimeError: the solver matched a TA to an INVALID cell

  /** Every row of the caller's matrix has `cols` cells. */
  predicate IsRect(prefs: seq<seq<Pref>>, cols: nat) {
    forall t :: 0 <= t < |prefs| ==> |prefs[t]| == cols
  }

  predicate IsGrid(m: Matrix, rows: nat, cols: nat) {
    |m| == rows && forall t :: 0 <= t < rows ==> |m[t]| == cols
  }

  function Width(m: Matrix): nat {
    if |m| == 0 then 0 else |m[0]|
  }

  function Min(a: nat, b: nat): nat {
    if a <= b then a else b
  }

  /** A one-to-one matching of min(rows, cols) rows to columns. */
  predicate IsAssignment(rows: nat, cols: nat, p: Pairs) {
    && |p| == Min(rows, cols)
    && (forall i :: 0 <= i < |p| ==> p[i].0 < rows && p[i].1 < cols)
    && (forall i, j :: 0 <= i < j < |p| ==> p[i].0 != p[j].0 && p[i].1 != p[j].1)
  }

  /** What the model relies on from the solver, for every rectangular matrix it is given. */
  ghost predicate SolverContract(solve: Solver) {
    forall m :: IsGrid(m, |m|, Width(m)) ==> IsAssignment(|m|, Width(m), solve(m))
  }

  /** A working-copy cell: `prefs[np.isnan(prefs)] = INVALID`. */
  function Cell(p: Pref): (r: real)
    ensures r == INVALID <==> p == Unavailable || p == Score(INVALID)
    ensures p.Score? ==> r == p.value
  {
    match p
    case Unavailable => INVALID
    case Score(v) => v
  }

  /** The working copy; the caller's matrix is a value and stays as it was. */
  function WorkingCopy(prefs: seq<seq<Pref>>): (w: Matrix)
    ensures |w| == |prefs|
    ensures forall t :: 0 <= t < |w| ==> |w[t]| == |prefs[t]|
    ensures forall t, s :: 0 <= t < |w| && 0 <= s < |w[t]| ==> w[t][s] == Cell(prefs[t][s])
  {
    seq(|prefs|, t requires 0 <= t < |prefs| =>
      seq(|prefs[t]|, s requires 0 <= s < |prefs[t]| => Cell(prefs[t][s])))
  }

  /** Free places of a slot: `range(max_ta_per_oh - len(ta_list))` runs this often. */
  function Spots(list: seq<nat>, cap: nat): nat {
    if |list| <= cap then cap - |list| else 0
  }

  function Repeat(v: nat, n: nat): (r: seq<nat>)
    ensures |r| == n && forall i :: 0 <= i < n ==> r[i] == v
  {
    seq(n, _ => v)
  }

  /**
   * The slot each expanded column stands for (`_oh_ta_match`, one reference per free place),
   * over slots 0 .. n - 1, or the IndexError raised by the first slot that has a free place
   * but no column in the matrix.
   */
  function Expansion(lists: seq<seq<nat>>, cap: nat, numOh: nat, n: nat): Result<seq<nat>, MatchError>
    requires n <= |lists|
  {
    if n == 0 then Ok([])
    else
      match Expansion(lists, cap, numOh, n - 1)
      case Err(e) => Err(e)
      case Ok(tags) =>
        if Spots(lists[n - 1], cap) > 0 && numOh <= n - 1 then Err(SlotOutOfRange(n - 1))
        else Ok(tags + Repeat(n - 1, Spots(lists[n - 1], cap)))
  }

  /** Working column s: `prefs[:, oh_idx]`. */
  function Column(work: Matrix, s: nat): (c: seq<real>)
    requires forall t :: 0 <= t < |work| ==> s < |work[t]|
    ensures |c| == |work| && forall t :: 0 <= t < |work| ==> c[t] == work[t][s]
  {
    seq(|work|, t requires 0 <= t < |work| => work[t][s])
  }

  /** The columns placed in `pref_list`, one copy of the working column per tag. */
  function Columns(work: Matrix, tags: seq<nat>): (cs: seq<seq<real>>)
    requires forall t, j :: 0 <= t < |work| && 0 <= j < |tags| ==> tags[j] < |work[t]|
    ensures |cs| == |tags| && forall j :: 0 <= j < |tags| ==> cs[j] == Column(work, tags[j])
  {
    seq(|tags|, j requires 0 <= j < |tags| => Column(work, tags[j]))
  }

  /** `np.stack(columns, axis=1)`: column j of the result is columns[j]. */
  function Stack(columns: seq<seq<real>>, rows: nat): (m: Matrix)
    requires forall j :: 0 <= j < |columns| ==> |columns[j]| == rows
    ensures IsGrid(m, rows, |columns|)
    ensures forall t, j :: 0 <= t < rows && 0 <= j < |columns| ==> m[t][j] == columns[j][t]
  {
    seq(rows, t requires 0 <= t < rows =>
      seq(|columns|, j requires 0 <= j < |columns| => columns[j][t]))
  }

  /** The expanded matrix handed to the solver: entry (t, j) is the working cell (t, tags[j]). */
  function Expanded(work: Matrix, tags: seq<nat>): (m: Matrix)
    requires forall t, j :: 0 <= t < |work| && 0 <= j < |tags| ==> tags[j] < |work[t]|
    ensures IsGrid(m, |work|, |tags|)
    ensures forall t, j :: 0 <= t < |work| && 0 <= j < |tags| ==> m[t][j] == work[t][tags[j]]
  {
    Stack(Columns(work, tags), |work|)
  }

  /** The solver's pairs fit the expanded matrix and the slot lists. */
  predicate PairsFit(lists: seq<seq<nat>>, tags: seq<nat>, m: Matrix, pairs: Pairs) {
    && (forall j :: 0 <= j < |tags| ==> tags[j] < |lists|)
    && IsGrid(m, |m|, |tags|)
    && (forall i :: 0 <= i < |pairs| ==> pairs[i].0 < |m| && pairs[i].1 < |tags|)
  }

  /**
   * Recording the pairs in order: each matched TA is appended to the list of the slot its
   * column stands for, unless its matched cell is INVALID, which ends the run.
   */
  function Record(lists: seq<seq<nat>>, tags: seq<nat>, m: Matrix, pairs: Pairs): (r: Result<seq<seq<nat>>, MatchError>)
    requires PairsFit(lists, tags, m, pairs)
    ensures r.Ok? ==> |r.value| == |lists|
  {
    if pairs == [] then Ok(lists)
    else
      match Record(lists, tags, m, pairs[..|pairs| - 1])
      case Err(e) => Err(e)
      case Ok(ls) =>
        var (ta, col) := pairs[|pairs| - 1];
        if m[ta][col] == INVALID then Err(NoAvailability(ta))
        else Ok(ls[tags[col] := ls[tags[col]] + [ta]])
  }

  /** The working copy has one row per slot list and num_oh columns. */
  predicate Shaped(work: Matrix, lists: seq<seq<nat>>, numOh: nat) {
    IsGrid(work, |lists|, numOh)
  }

  /** One round: expand, solve, record. */
  function Round(work: Matrix, lists: seq<seq<nat>>, cap: nat, numOh: nat, solve: Solver): (r: Result<seq<seq<nat>>, MatchError>)
    requires Shaped(work, lists, numOh) && SolverContract(solve)
    ensures r.Ok? ==> |r.value| == |lists|
  {
    match Expansion(lists, cap, numOh, |lists|)
    case Err(e) => Err(e)
    case Ok(tags) =>
      ExpansionInRange(lists, cap, numOh, |lists|);
      if tags == [] then Err(EmptyCapacity)
      else
        var m := Expanded(work, tags);
        var pairs := solve(m);
        assert Width(m) == |tags|;
        Record(lists, tags, m, pairs)
  }

  /** `k` rounds from the slot lists `lists`. */
  function Run(work: Matrix, lists: seq<seq<nat>>, cap: nat, numOh: nat, solve: Solver, k: nat): (r: Result<seq<seq<nat>>, MatchError>)
    requires Shaped(work, lists, numOh) && SolverContract(solve)
    ensures r.Ok? ==> |r.value| == |lists|
  {
    if k == 0 then Ok(lists)
    else
      match Run(work, lists, cap, numOh, solve, k - 1)
      case Err(e) => Err(e)
      case Ok(ls) => Round(work, ls, cap, numOh, solve)
  }

  /** num_ta empty lists: `[list() for _ in range(num_ta)]`. */
  function EmptyLists(n: nat): (ls: seq<seq<nat>>)
    ensures |ls| == n && forall s :: 0 <= s < n ==> ls[s] == []
  {
    seq(n, _ => [])
  }

  /** The whole of `match(prefs, oh_per_ta, max_ta_per_oh)`. */
  function MatchRun(prefs: seq<seq<Pref>>, numOh: nat, ohPerTa: nat, cap: nat, solve: Solver): Result<seq<seq<nat>>, MatchError>
    requires IsRect(prefs, numOh) && SolverContract(solve)
  {
    Run(WorkingCopy(prefs), EmptyLists(|prefs|), cap, numOh, solve, ohPerTa)
  }

  /** Every tag of a successful expansion names a slot below n that has a matrix column. */
  lemma {:induction false} ExpansionInRange(lists: seq<seq<nat>>, cap: nat, numOh: nat, n: nat)
    requires n <= |lists|
    ensures Expansion(lists, cap, numOh, n).Ok? ==>
      forall j :: 0 <= j < |Expansion(lists, cap, numOh, n).value| ==>
        Expansion(lists, cap, numOh, n).value[j] < n && Expansion(lists, cap, numOh, n).value[j] < numOh
  {
    if n > 0 {
      ExpansionInRange(lists, cap, numOh, n - 1);
    }
  }
}
