/**
 * What a whole run of `match` does: the shape of every successful result, and which error
 * ends every failing run.
 */
module MatchTheorems {
  import opened Wrappers
  import opened Seqs
  import opened MatchSpec
  import opened MatchLemmas

  /** A caller's cell that the working copy turns into INVALID. */
  predicate Blocked(p: Pref) {
    p == Unavailable || p == Score(INVALID)
  }

  /**
   * A successful result: one list per TA row, none above `cap`, every TA exactly `ohPerTa`
   * times in all, every entry a TA placed on a slot with a real, available preference.
   */
  ghost predicate Assigned(prefs: seq<seq<Pref>>, numOh: nat, ohPerTa: nat, cap: nat, ls: seq<seq<nat>>) {
    && |ls| == |prefs|
    && (forall s :: 0 <= s < |ls| ==> |ls[s]| <= cap)
    && CountsEach(Flatten(ls), |prefs|, ohPerTa)
    && (forall s, i :: 0 <= s < |ls| && 0 <= i < |ls[s]| ==>
          && ls[s][i] < |prefs| && s < numOh && s < |prefs[ls[s][i]]|
          && prefs[ls[s][i]][s].Score? && !Blocked(prefs[ls[s][i]][s]))
    && (ohPerTa > 0 ==> 1 <= |prefs| <= numOh && ohPerTa <= cap)
  }

  lemma {:induction false} FlattenNil<T>(lists: seq<seq<T>>)
    requires Flatten(lists) == []
    ensures forall s :: 0 <= s < |lists| ==> lists[s] == []
  {
    if lists != [] {
      var n := |lists| - 1;
      assert Flatten(lists) == Flatten(lists[..n]) + lists[n];
      FlattenNil(lists[..n]);
      forall s | 0 <= s < n ensures lists[s] == [] {
        assert lists[..n][s] == lists[s];
      }
    }
  }

  lemma {:induction false} FlattenEmpties(n: nat)
    ensures Flatten(EmptyLists(n)) == []
  {
    if n > 0 {
      assert EmptyLists(n)[..n - 1] == EmptyLists(n - 1);
      FlattenEmpties(n - 1);
    }
  }

  /** A width of N * cap - N * k, with N >= 1 and k < cap, is positive. */
  lemma WidthPositive(rows: nat, cap: nat, k: nat, width: nat)
    requires width + rows * k == rows * cap && rows >= 1 && k < cap
    ensures width >= rows
  {
    var d: int := cap - k;
    assert rows * cap == rows * k + rows * d;
    assert rows * d == rows + rows * (d - 1);
  }

  /** A width of 0 leaves N * k == N * cap: no rows, or every list full. */
  lemma WidthZero(rows: nat, cap: nat, k: nat)
    requires rows * k == rows * cap && rows >= 1
    ensures k == cap
  {
    var d: int := cap - k;
    assert rows * cap == rows * k + rows * d;
    assert rows * d == 0;
  }

  /** An expansion error can only come in the first round, and names slot num_oh. */
  lemma RoundSlotError(work: Matrix, ls: seq<seq<nat>>, cap: nat, numOh: nat, solve: Solver, k: nat)
    requires Shaped(work, ls, numOh) && SolverContract(solve) && Inv(work, ls, cap, numOh, k)
    requires Expansion(ls, cap, numOh, |ls|).Err?
    ensures k == 0 && cap >= 1 && Expansion(ls, cap, numOh, |ls|).error == SlotOutOfRange(numOh) && numOh < |ls|
  {
    var n := |ls|;
    ExpansionFails(ls, cap, numOh, n);
    var ex := Expansion(ls, cap, numOh, n);
    var s :| numOh <= s < n && Spots(ls[s], cap) > 0 && ex.error == SlotOutOfRange(s)
      && forall s' :: 0 <= s' < s && Spots(ls[s'], cap) > 0 ==> s' < numOh;
    assert k == 0 by {
      assert !(n <= numOh);
    }
    NoEntries(work, ls);
    assert Spots(ls[numOh], cap) > 0;
  }

  /** Before the first round every list is empty. */
  lemma NoEntries(work: Matrix, ls: seq<seq<nat>>)
    requires EachTaTimes(work, ls, 0)
    ensures forall s :: 0 <= s < |ls| ==> ls[s] == []
  {
    assert |Flatten(ls)| == 0;
    FlattenNil(ls);
  }

  /** No place left in any slot: there are no TAs, or every list is full. */
  lemma RoundEmpty(work: Matrix, ls: seq<seq<nat>>, cap: nat, numOh: nat, k: nat)
    requires Inv(work, ls, cap, numOh, k) && Expansion(ls, cap, numOh, |ls|) == Ok([])
    ensures |ls| == 0 || k >= cap
  {
    ExpansionWidth(work, ls, cap, numOh, k);
    if |ls| >= 1 {
      WidthZero(|ls|, cap, k);
    }
  }

  /** A run that ends with NoAvailability names a TA row with an INVALID working cell. */
  lemma RoundNoAvailability(work: Matrix, ls: seq<seq<nat>>, cap: nat, numOh: nat, solve: Solver, tags: seq<nat>)
    requires Shaped(work, ls, numOh) && SolverContract(solve)
    requires Expansion(ls, cap, numOh, |ls|) == Ok(tags) && tags != []
    requires Round(work, ls, cap, numOh, solve).Err?
    ensures var e := Round(work, ls, cap, numOh, solve).error;
      e.NoAvailability? && e.ta < |ls| && exists s :: 0 <= s < numOh && work[e.ta][s] == INVALID
  {
    ExpansionInRange(ls, cap, numOh, |ls|);
    var m := Expanded(work, tags);
    var pairs := solve(m);
    assert Width(m) == |tags|;
    assert Round(work, ls, cap, numOh, solve) == Record(ls, tags, m, pairs);
    RecordFails(work, ls, tags, pairs);
    var r := Record(ls, tags, m, pairs);
    var i :| && 0 <= i < |pairs| && r.error == NoAvailability(pairs[i].0)
             && work[pairs[i].0][tags[pairs[i].1]] == INVALID;
    assert tags[pairs[i].1] < numOh;
  }

  /** How one round from a state satisfying the invariant can end. */
  lemma RoundOutcome(work: Matrix, ls: seq<seq<nat>>, cap: nat, numOh: nat, solve: Solver, k: nat)
    requires Shaped(work, ls, numOh) && SolverContract(solve) && Inv(work, ls, cap, numOh, k)
    ensures var r := Round(work, ls, cap, numOh, solve);
      && (r.Err? && r.error.SlotOutOfRange? ==> k == 0 && cap >= 1 && r.error.slot == numOh < |ls|)
      && (r == Err(EmptyCapacity) ==> |ls| == 0 || k >= cap)
      && (r.Err? && r.error.NoAvailability? ==>
            r.error.ta < |ls| && exists s :: 0 <= s < numOh && work[r.error.ta][s] == INVALID)
  {
    var ex := Expansion(ls, cap, numOh, |ls|);
    if ex.Err? {
      RoundSlotError(work, ls, cap, numOh, solve, k);
    } else if ex.value == [] {
      RoundEmpty(work, ls, cap, numOh, k);
    } else if Round(work, ls, cap, numOh, solve).Err? {
      RoundNoAvailability(work, ls, cap, numOh, solve, ex.value);
    }
  }

  /** No cell of the working copy is INVALID. */
  ghost predicate NoInvalid(work: Matrix, numOh: nat) {
    forall t, s :: 0 <= t < |work| && 0 <= s < numOh && s < |work[t]| ==> work[t][s] != INVALID
  }

  /** With every cell available, a round after k < cap successful rounds succeeds. */
  lemma RoundAvailable(work: Matrix, ls: seq<seq<nat>>, cap: nat, numOh: nat, solve: Solver, k: nat)
    requires Shaped(work, ls, numOh) && SolverContract(solve) && Inv(work, ls, cap, numOh, k)
    requires 1 <= |ls| <= numOh && k < cap && NoInvalid(work, numOh)
    ensures Round(work, ls, cap, numOh, solve).Ok?
  {
    var n := |ls|;
    ExpansionFails(ls, cap, numOh, n);
    ExpansionInRange(ls, cap, numOh, n);
    var tags := Expansion(ls, cap, numOh, n).value;
    ExpansionWidth(work, ls, cap, numOh, k);
    WidthPositive(n, cap, k, |tags|);
    var m := Expanded(work, tags);
    var pairs := solve(m);
    assert Width(m) == |tags|;
    assert Round(work, ls, cap, numOh, solve) == Record(ls, tags, m, pairs);
    RecordFails(work, ls, tags, pairs);
  }

  /** Once a run has failed, further rounds report the same error. */
  lemma {:induction false} RunErrSticks(work: Matrix, lists: seq<seq<nat>>, cap: nat, numOh: nat, solve: Solver, j: nat, k: nat)
    requires Shaped(work, lists, numOh) && SolverContract(solve)
    requires j <= k && Run(work, lists, cap, numOh, solve, j).Err?
    ensures Run(work, lists, cap, numOh, solve, k) == Run(work, lists, cap, numOh, solve, j)
    decreases k - j
  {
    if j < k {
      assert Run(work, lists, cap, numOh, solve, j + 1) == Run(work, lists, cap, numOh, solve, j);
      RunErrSticks(work, lists, cap, numOh, solve, j + 1, k);
    }
  }

  /** After k rounds from empty lists: the invariant on success, and the cause of every failure. */
  ghost predicate Outcome(work: Matrix, cap: nat, numOh: nat, solve: Solver, k: nat)
    requires Shaped(work, EmptyLists(|work|), numOh) && SolverContract(solve)
  {
    var r := Run(work, EmptyLists(|work|), cap, numOh, solve, k);
    && (r.Ok? ==> Inv(work, r.value, cap, numOh, k))
    && (r.Err? && r.error.SlotOutOfRange? ==> cap >= 1 && r.error.slot == numOh < |work|)
    && (r == Err(EmptyCapacity) ==> k >= 1 && (|work| == 0 || cap < k))
    && (r.Err? && r.error.NoAvailability? ==>
          r.error.ta < |work| && exists s :: 0 <= s < numOh && work[r.error.ta][s] == INVALID)
    && (1 <= |work| <= numOh && k <= cap && NoInvalid(work, numOh) ==> r.Ok?)
  }

  /** One more round keeps `Outcome`. */
  lemma RunStep(work: Matrix, cap: nat, numOh: nat, solve: Solver, k: nat)
    requires Shaped(work, EmptyLists(|work|), numOh) && SolverContract(solve)
    requires Outcome(work, cap, numOh, solve, k)
    ensures Outcome(work, cap, numOh, solve, k + 1)
  {
    var prev := Run(work, EmptyLists(|work|), cap, numOh, solve, k);
    if prev.Ok? {
      RoundOutcome(work, prev.value, cap, numOh, solve, k);
      if Round(work, prev.value, cap, numOh, solve).Ok? {
        RoundKeeps(work, prev.value, cap, numOh, solve, k);
      }
      if 1 <= |work| <= numOh && k < cap && NoInvalid(work, numOh) {
        RoundAvailable(work, prev.value, cap, numOh, solve, k);
      }
    }
  }

  /** From round j on, `Outcome` holds up to round k. */
  lemma {:induction false} RunOutcomeFrom(work: Matrix, cap: nat, numOh: nat, solve: Solver, j: nat, k: nat)
    requires Shaped(work, EmptyLists(|work|), numOh) && SolverContract(solve)
    requires j <= k && Outcome(work, cap, numOh, solve, j)
    ensures Outcome(work, cap, numOh, solve, k)
    decreases k - j
  {
    if j < k {
      RunStep(work, cap, numOh, solve, j);
      RunOutcomeFrom(work, cap, numOh, solve, j + 1, k);
    }
  }

  /** k rounds from empty lists: the invariant on success, and the cause of every failure. */
  lemma RunOutcome(work: Matrix, cap: nat, numOh: nat, solve: Solver, k: nat)
    requires Shaped(work, EmptyLists(|work|), numOh) && SolverContract(solve)
    ensures Outcome(work, cap, numOh, solve, k)
  {
    FlattenEmpties(|work|);
    assert CountsEach(Flatten(EmptyLists(|work|)), |work|, 0);
    assert Outcome(work, cap, numOh, solve, 0);
    RunOutcomeFrom(work, cap, numOh, solve, 0, k);
  }

  /**
   * The whole of `match`: a successful result satisfies `Assigned`, SlotOutOfRange names
   * slot num_oh with num_oh < num_ta, EmptyCapacity means there were no TAs or more rounds
   * than places per slot, and NoAvailability names a TA with an unavailable cell.
   */
  lemma MatchOutcome(prefs: seq<seq<Pref>>, numOh: nat, ohPerTa: nat, cap: nat, solve: Solver)
    requires IsRect(prefs, numOh) && SolverContract(solve)
    ensures var r := MatchRun(prefs, numOh, ohPerTa, cap, solve);
      && (r.Ok? ==> Assigned(prefs, numOh, ohPerTa, cap, r.value))
      && (r.Err? && r.error.SlotOutOfRange? ==> cap >= 1 && r.error.slot == numOh < |prefs|)
      && (r == Err(EmptyCapacity) ==> ohPerTa >= 1 && (|prefs| == 0 || cap < ohPerTa))
      && (r.Err? && r.error.NoAvailability? ==>
            r.error.ta < |prefs| && exists s :: 0 <= s < numOh && Blocked(prefs[r.error.ta][s]))
  {
    var work := WorkingCopy(prefs);
    RunOutcome(work, cap, numOh, solve, ohPerTa);
    var r := MatchRun(prefs, numOh, ohPerTa, cap, solve);
    if r.Ok? {
      InvAssigned(prefs, numOh, ohPerTa, cap, r.value);
    } else if r.error.NoAvailability? {
      BlockedCell(prefs, numOh, r.error.ta);
    }
  }

  /** The success half of `MatchOutcome`. */
  lemma MatchAssigned(prefs: seq<seq<Pref>>, numOh: nat, ohPerTa: nat, cap: nat, solve: Solver, ls: seq<seq<nat>>)
    requires IsRect(prefs, numOh) && SolverContract(solve)
    requires MatchRun(prefs, numOh, ohPerTa, cap, solve) == Ok(ls)
    ensures Assigned(prefs, numOh, ohPerTa, cap, ls)
  {
    MatchOutcome(prefs, numOh, ohPerTa, cap, solve);
  }

  /** The run invariant over the working copy, read back on the caller's matrix. */
  lemma InvAssigned(prefs: seq<seq<Pref>>, numOh: nat, k: nat, cap: nat, ls: seq<seq<nat>>)
    requires IsRect(prefs, numOh) && Inv(WorkingCopy(prefs), ls, cap, numOh, k)
    ensures Assigned(prefs, numOh, k, cap, ls)
  {
    var work := WorkingCopy(prefs);
    forall s, i | 0 <= s < |ls| && 0 <= i < |ls[s]|
      ensures prefs[ls[s][i]][s].Score? && !Blocked(prefs[ls[s][i]][s])
    {
      assert work[ls[s][i]][s] == Cell(prefs[ls[s][i]][s]);
    }
  }

  /** An INVALID working cell stands for a blocked cell of the caller's matrix. */
  lemma BlockedCell(prefs: seq<seq<Pref>>, numOh: nat, ta: nat)
    requires IsRect(prefs, numOh) && ta < |prefs|
    requires exists s :: 0 <= s < numOh && WorkingCopy(prefs)[ta][s] == INVALID
    ensures exists s :: 0 <= s < numOh && Blocked(prefs[ta][s])
  {
    var s :| 0 <= s < numOh && WorkingCopy(prefs)[ta][s] == INVALID;
    assert Blocked(prefs[ta][s]);
  }

  /** With no TAs, or no place in any slot, the first round already fails. */
  lemma MatchEmptyCapacity(prefs: seq<seq<Pref>>, numOh: nat, ohPerTa: nat, cap: nat, solve: Solver)
    requires IsRect(prefs, numOh) && SolverContract(solve)
    requires ohPerTa >= 1 && (|prefs| == 0 || cap == 0)
    ensures MatchRun(prefs, numOh, ohPerTa, cap, solve) == Err(EmptyCapacity)
  {
    var work := WorkingCopy(prefs);
    var lists := EmptyLists(|prefs|);
    RunOutcome(work, cap, numOh, solve, 0);
    ExpansionFails(lists, cap, numOh, |lists|);
    ExpansionWidth(work, lists, cap, numOh, 0);
    assert Run(work, lists, cap, numOh, solve, 1) == Err(EmptyCapacity);
    RunErrSticks(work, lists, cap, numOh, solve, 1, ohPerTa);
  }

  /** With fewer slots than TAs and a free place per slot, the first round names slot num_oh. */
  lemma MatchSlotOutOfRange(prefs: seq<seq<Pref>>, numOh: nat, ohPerTa: nat, cap: nat, solve: Solver)
    requires IsRect(prefs, numOh) && SolverContract(solve)
    requires ohPerTa >= 1 && cap >= 1 && numOh < |prefs|
    ensures MatchRun(prefs, numOh, ohPerTa, cap, solve) == Err(SlotOutOfRange(numOh))
  {
    var work := WorkingCopy(prefs);
    var lists := EmptyLists(|prefs|);
    RunOutcome(work, cap, numOh, solve, 0);
    ExpansionFails(lists, cap, numOh, |lists|);
    assert Spots(lists[numOh], cap) > 0;
    RoundOutcome(work, lists, cap, numOh, solve, 0);
    assert Run(work, lists, cap, numOh, solve, 1) == Round(work, lists, cap, numOh, solve);
    RunErrSticks(work, lists, cap, numOh, solve, 1, ohPerTa);
  }

  /** With every cell available and 1 <= num_ta <= num_oh, `match` succeeds iff oh_per_ta <= cap. */
  lemma MatchAvailable(prefs: seq<seq<Pref>>, numOh: nat, ohPerTa: nat, cap: nat, solve: Solver)
    requires IsRect(prefs, numOh) && SolverContract(solve)
    requires 1 <= |prefs| <= numOh
    requires forall t, s :: 0 <= t < |prefs| && 0 <= s < numOh ==> !Blocked(prefs[t][s])
    ensures MatchRun(prefs, numOh, ohPerTa, cap, solve).Ok? <==> ohPerTa <= cap
    ensures ohPerTa > cap ==> MatchRun(prefs, numOh, ohPerTa, cap, solve) == Err(EmptyCapacity)
  {
    var work := WorkingCopy(prefs);
    MatchOutcome(prefs, numOh, ohPerTa, cap, solve);
    RunOutcome(work, cap, numOh, solve, ohPerTa);
  }
}
