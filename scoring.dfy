/**
 * `get_perc_max` of oh_sched/match.py: for every TA that holds a slot, the score it
 * achieved over the best score its own preference row allows for that many slots.
 *
 * The slot table `oh_ta_dict` is a sequence of (slot name, occupant names) items in the
 * dictionary's order. The row that an occupant's achieved score is read from is a
 * parameter: `SlotPosition` is the lookup the source performs (the occupant's position
 * inside the slot's own list, because the loop variable shadows the TA list), and
 * `TaListPosition` is the lookup into the TA list the computation evidently means.
 */
module Scoring {
  import opened Wrappers
  import opened Seqs

  /** One item of `oh_ta_dict`: a slot name and the names of its occupants. */
  datatype Occupancy<N> = Occupancy(slot: N, tas: seq<N>)

  type Table<N> = seq<Occupancy<N>>

  /** How an occupant's row of the preference matrix is found in the achieved-score loop. */
  datatype RowLookup = SlotPosition | TaListPosition

  /** `ach / max` in floating point: a quotient, or inf/nan when the max score is 0. */
  datatype Ratio = Quotient(value: real) | NonFinite

  datatype MetricError<N> =
    | UnknownTa(ta: N)      // ValueError from list.index on the TA list
    | UnknownSlot(slot: N)  // ValueError from list.index on the slot list
    | IndexOutOfRange            // IndexError from indexing the preference matrix

  /** `xs.index(x)`: the first position holding x, or None where Python raises ValueError. */
  function IndexOf<T(==)>(xs: seq<T>, x: T): (r: Option<nat>) {
    if xs == [] then None
    else if xs[0] == x then Some(0)
    else match IndexOf(xs[1..], x)
      case None => None
      case Some(i) => Some(i + 1)
  }

  /** IndexOf finds the first position holding x, and fails exactly when x is absent. */
  lemma {:induction false} IndexOfFacts<T>(xs: seq<T>, x: T)
    ensures IndexOf(xs, x).None? <==> x !in xs
    ensures IndexOf(xs, x).Some? ==> IndexOf(xs, x).value < |xs| && xs[IndexOf(xs, x).value] == x
    ensures IndexOf(xs, x).Some? ==> forall i :: 0 <= i < IndexOf(xs, x).value ==> xs[i] != x
  {
    if xs != [] && xs[0] != x {
      IndexOfFacts(xs[1..], x);
      assert forall i :: 0 < i < |xs| ==> xs[i] == xs[1..][i - 1];
      assert x in xs <==> x in xs[1..];
    }
  }

  /** Every occupant name, slot by slot (`chain(*oh_ta_dict.values())`). */
  function Occupants<N(==,!new)>(d: Table<N>, n: nat): seq<N>
    requires n <= |d|
  {
    if n == 0 then [] else Occupants(d, n - 1) + d[n - 1].tas
  }

  /** The distinct names of xs in order of first occurrence (the key order of a Counter). */
  function Dedup<N(==,!new)>(xs: seq<N>): seq<N> {
    if xs == [] then []
    else
      var rest := Dedup(xs[..|xs| - 1]);
      if xs[|xs| - 1] in rest then rest else rest + [xs[|xs| - 1]]
  }

  lemma {:induction false} DedupFacts<N(!new)>(xs: seq<N>)
    ensures Distinct(Dedup(xs))
    ensures forall x :: x in Dedup(xs) <==> x in xs
  {
    if xs != [] {
      var n := |xs| - 1;
      DedupFacts(xs[..n]);
      assert xs == xs[..n] + [xs[n]];
    }
  }

  /** The sum of a sequence of scores, added left to right. */
  function Sum(s: seq<real>): real {
    if s == [] then 0.0 else Sum(s[..|s| - 1]) + s[|s| - 1]
  }

  predicate Descending(s: seq<real>) {
    forall i, j :: 0 <= i < j < |s| ==> s[i] >= s[j]
  }

  /** Inserting x into a sequence before the first entry it is not below. */
  function Insert(x: real, s: seq<real>): (r: seq<real>)
    ensures |r| == |s| + 1
  {
    if s == [] then [x]
    else if x >= s[0] then [x] + s
    else [s[0]] + Insert(x, s[1..])
  }

  /** Insertion adds x to the contents; its head is x or the old head. */
  lemma {:induction false} InsertContents(x: real, s: seq<real>)
    ensures multiset(Insert(x, s)) == multiset(s) + multiset{x}
    ensures Insert(x, s)[0] == x || (s != [] && Insert(x, s)[0] == s[0])
  {
    if s != [] && x < s[0] {
      InsertContents(x, s[1..]);
      assert s == [s[0]] + s[1..];
    }
  }

  /** Insertion keeps a descending sequence descending. */
  lemma {:induction false} InsertDescending(x: real, s: seq<real>)
    requires Descending(s)
    ensures Descending(Insert(x, s))
  {
    if s != [] && x < s[0] {
      var t := Insert(x, s[1..]);
      InsertDescending(x, s[1..]);
      InsertContents(x, s[1..]);
      assert t[0] == x || t[0] == s[1];
      assert forall j :: 0 <= j < |t| ==> s[0] >= t[0] >= t[j];
      var r := [s[0]] + t;
      forall i, j | 0 <= i < j < |r| ensures r[i] >= r[j] {
        if i > 0 {
          assert r[i] == t[i - 1] && r[j] == t[j - 1];
        } else {
          assert r[j] == t[j - 1];
        }
      }
    }
  }

  /** `sorted(row, reverse=True)`, by insertion. */
  function SortDesc(s: seq<real>): (r: seq<real>)
    ensures |r| == |s|
  {
    if s == [] then [] else Insert(s[0], SortDesc(s[1..]))
  }

  /** The sorted row is descending and holds the same scores. */
  lemma {:induction false} SortDescFacts(s: seq<real>)
    ensures Descending(SortDesc(s)) && multiset(SortDesc(s)) == multiset(s) && |SortDesc(s)| == |s|
  {
    if s != [] {
      assert s == [s[0]] + s[1..];
      SortDescFacts(s[1..]);
      InsertContents(s[0], SortDesc(s[1..]));
      InsertDescending(s[0], SortDesc(s[1..]));
    }
  }

  /** `sum(sorted(row, reverse=True)[:k])`: the k best scores of a row, or all of them. */
  function MaxScore(row: seq<real>, k: nat): real {
    Sum(SortDesc(row)[..if k <= |row| then k else |row|])
  }

  lemma {:induction false} SumCons(h: real, t: seq<real>)
    ensures Sum([h] + t) == h + Sum(t)
  {
    if t != [] {
      var n := |t| - 1;
      assert ([h] + t)[..|t|] == [h] + t[..n];
      SumCons(h, t[..n]);
    }
  }

  /** The sum is the entry at i plus the sum of the others. */
  lemma {:induction false} SumRemove(v: seq<real>, i: nat)
    requires i < |v|
    ensures Sum(v) == v[i] + Sum(v[..i] + v[i + 1..])
  {
    var n := |v| - 1;
    if i == n {
      assert v[..i] + v[i + 1..] == v[..n];
    } else {
      var w := v[..n];
      SumRemove(w, i);
      assert v[..i] + v[i + 1..] == (w[..i] + w[i + 1..]) + [v[n]];
      assert w[i] == v[i];
    }
  }

  lemma SubmultisetSize(a: seq<real>, b: seq<real>)
    requires multiset(a) <= multiset(b)
    ensures |a| <= |b|
  {
    var d := multiset(b) - multiset(a);
    assert multiset(b) == multiset(a) + d;
    assert |multiset(b)| == |multiset(a)| + |d|;
    assert |multiset(a)| == |a| && |multiset(b)| == |b|;
  }

  /** Any |v| entries drawn from a descending sequence sum to at most its first |v| entries. */
  lemma {:induction false} TopSum(s: seq<real>, v: seq<real>)
    requires Descending(s) && multiset(v) <= multiset(s)
    ensures |v| <= |s| && Sum(v) <= Sum(s[..|v|])
    decreases |s|, 1
  {
    SubmultisetSize(v, s);
    if v != [] {
      if s[0] in v {
        TopSumWithHead(s, v);
      } else {
        TopSumWithoutHead(s, v);
      }
    }
  }

  lemma DescendingTail(s: seq<real>)
    requires Descending(s) && s != []
    ensures Descending(s[1..])
  {
  }

  /** The first k entries are the head and the first k - 1 entries of the tail. */
  lemma SplitHead(s: seq<real>, k: nat)
    requires 0 < k <= |s|
    ensures Sum(s[..k]) == s[0] + Sum(s[1..][..k - 1])
  {
    assert s[..k] == [s[0]] + s[1..][..k - 1];
    SumCons(s[0], s[1..][..k - 1]);
  }

  lemma SubmultisetTail(v: seq<real>, s: seq<real>)
    requires multiset(v) <= multiset(s) && s != [] && s[0] !in v
    ensures multiset(v) <= multiset(s[1..])
  {
    assert s == [s[0]] + s[1..];
    assert multiset(s) == multiset{s[0]} + multiset(s[1..]);
    forall y ensures multiset(v)[y] <= multiset(s[1..])[y] {
      if y != s[0] {
        assert multiset(s)[y] == multiset(s[1..])[y];
      }
    }
  }

  lemma SubmultisetRemove(v: seq<real>, s: seq<real>, i: nat)
    requires multiset(v) <= multiset(s) && s != [] && i < |v| && v[i] == s[0]
    ensures multiset(v[..i] + v[i + 1..]) <= multiset(s[1..])
  {
    assert s == [s[0]] + s[1..];
    assert multiset(s) == multiset{s[0]} + multiset(s[1..]);
    assert v == v[..i] + [v[i]] + v[i + 1..];
    assert multiset(v[..i] + v[i + 1..]) == multiset(v) - multiset{s[0]};
  }

  /** The head of s is among the drawn entries: it pairs off with the head. */
  lemma {:induction false} TopSumWithHead(s: seq<real>, v: seq<real>)
    requires Descending(s) && multiset(v) <= multiset(s) && v != [] && s != [] && s[0] in v
    ensures |v| <= |s| && Sum(v) <= Sum(s[..|v|])
    decreases |s|, 0
  {
    SubmultisetSize(v, s);
    DescendingTail(s);
    var i :| 0 <= i < |v| && v[i] == s[0];
    var rest := v[..i] + v[i + 1..];
    SubmultisetRemove(v, s, i);
    TopSum(s[1..], rest);
    SumRemove(v, i);
    SplitHead(s, |v|);
  }

  /** The head of s is not drawn: the drawn entries come from the tail, all at most the head. */
  lemma {:induction false} TopSumWithoutHead(s: seq<real>, v: seq<real>)
    requires Descending(s) && multiset(v) <= multiset(s) && v != [] && s != [] && s[0] !in v
    ensures |v| <= |s| && Sum(v) <= Sum(s[..|v|])
    decreases |s|, 0
  {
    var k := |v|;
    var t := s[1..];
    DescendingTail(s);
    SubmultisetTail(v, s);
    TopSum(t, v);
    SplitHead(s, k);
    assert t[..k][..k - 1] == t[..k - 1];
    assert t[k - 1] == s[k] && s[0] >= s[k];
  }

  /**
   * A row's max score for k slots is at least the sum of any k of its entries taken at
   * distinct positions.
   */
  lemma MaxScoreBound(row: seq<real>, ds: seq<nat>)
    requires InRange(ds, |row|) && Distinct(ds)
    ensures |ds| <= |row|
    ensures Sum(Picks(row, ds)) <= MaxScore(row, |ds|)
  {
    PicksSubmultiset(row, ds);
    SortDescFacts(row);
    TopSum(SortDesc(row), Picks(row, ds));
  }

  /** Occurrences of each name: `Counter(xs)`. */
  function Tally<N(==,!new)>(xs: seq<N>): (c: map<N, nat>)
    ensures forall x :: x in c <==> x in xs
    ensures forall x :: x in c ==> c[x] == multiset(xs)[x]
  {
    if xs == [] then map[]
    else
      var n := |xs| - 1;
      var c := Tally(xs[..n]);
      var x := xs[n];
      assert xs == xs[..n] + [x];
      c[x := (if x in c then c[x] else 0) + 1]
  }

  type Scores = seq<seq<real>>

  /**
   * The max-score loop over the first n keys of the Counter: each key is looked up in the
   * TA list and its row's best `count` scores are summed.
   */
  function MaxScores<N(==,!new)>(keys: seq<N>, n: nat, counts: map<N, nat>, taList: seq<N>, prefs: Scores): Result<map<N, real>, MetricError<N>>
    requires n <= |keys| && forall i :: 0 <= i < |keys| ==> keys[i] in counts
  {
    if n == 0 then Ok(map[])
    else
      match MaxScores(keys, n - 1, counts, taList, prefs)
      case Err(e) => Err(e)
      case Ok(mx) =>
        var ta := keys[n - 1];
        match IndexOf(taList, ta)
        case None => Err(UnknownTa(ta))
        case Some(row) =>
          if row < |prefs| then Ok(mx[ta := MaxScore(prefs[row], counts[ta])]) else Err(IndexOutOfRange)
  }

  lemma {:induction false} MaxScoresErrSticks<N(!new)>(keys: seq<N>, n: nat, m: nat, counts: map<N, nat>, taList: seq<N>, prefs: Scores)
    requires n <= m <= |keys| && forall i :: 0 <= i < |keys| ==> keys[i] in counts
    requires MaxScores(keys, n, counts, taList, prefs).Err?
    ensures MaxScores(keys, m, counts, taList, prefs) == MaxScores(keys, n, counts, taList, prefs)
    decreases m - n
  {
    if n < m {
      MaxScoresErrSticks(keys, n + 1, m, counts, taList, prefs);
    }
  }

  /** A key the max-score loop can look up: it is in the TA list and its row is in the matrix. */
  predicate Known<N(==,!new)>(taList: seq<N>, prefs: Scores, ta: N) {
    IndexOf(taList, ta).Some? && IndexOf(taList, ta).value < |prefs|
  }

  /**
   * On success the max-score dict has exactly the keys looked up, and each holds the
   * key's row's best `count` scores.
   */
  lemma {:induction false} MaxScoresValues<N(!new)>(keys: seq<N>, n: nat, counts: map<N, nat>, taList: seq<N>, prefs: Scores)
    requires n <= |keys| && forall i :: 0 <= i < |keys| ==> keys[i] in counts
    requires MaxScores(keys, n, counts, taList, prefs).Ok?
    ensures forall ta :: ta in MaxScores(keys, n, counts, taList, prefs).value ==> ta in keys[..n]
    ensures forall i :: 0 <= i < n ==>
      && Known(taList, prefs, keys[i])
      && keys[i] in MaxScores(keys, n, counts, taList, prefs).value
      && MaxScores(keys, n, counts, taList, prefs).value[keys[i]] == MaxScore(prefs[IndexOf(taList, keys[i]).value], counts[keys[i]])
  {
    if n > 0 {
      MaxScoresValues(keys, n - 1, counts, taList, prefs);
      var before := MaxScores(keys, n - 1, counts, taList, prefs).value;
      var ta := keys[n - 1];
      var row := IndexOf(taList, ta).value;
      var after := before[ta := MaxScore(prefs[row], counts[ta])];
      assert MaxScores(keys, n, counts, taList, prefs).value == after;
      assert keys[..n] == keys[..n - 1] + [ta];
      forall i | 0 <= i < n
        ensures Known(taList, prefs, keys[i]) && keys[i] in after
        ensures after[keys[i]] == MaxScore(prefs[IndexOf(taList, keys[i]).value], counts[keys[i]])
      {
        if keys[i] != ta {
          assert after[keys[i]] == before[keys[i]];
        }
      }
    }
  }

  /** The max-score loop succeeds exactly when every key is known. */
  lemma {:induction false} MaxScoresFails<N(!new)>(keys: seq<N>, n: nat, counts: map<N, nat>, taList: seq<N>, prefs: Scores)
    requires n <= |keys| && forall i :: 0 <= i < |keys| ==> keys[i] in counts
    ensures MaxScores(keys, n, counts, taList, prefs).Ok? <==>
      forall i :: 0 <= i < n ==> Known(taList, prefs, keys[i])
  {
    if n > 0 {
      MaxScoresFails(keys, n - 1, counts, taList, prefs);
    }
  }

  lemma MaxScoresStep<N(!new)>(keys: seq<N>, n: nat, counts: map<N, nat>, taList: seq<N>, prefs: Scores)
    requires n < |keys| && forall i :: 0 <= i < |keys| ==> keys[i] in counts
    requires MaxScores(keys, n, counts, taList, prefs).Ok?
    requires IndexOf(taList, keys[n]).Some? && IndexOf(taList, keys[n]).value < |prefs|
    ensures MaxScores(keys, n + 1, counts, taList, prefs) ==
      Ok(MaxScores(keys, n, counts, taList, prefs).value[keys[n] := MaxScore(prefs[IndexOf(taList, keys[n]).value], counts[keys[n]])])
  {
  }

  /** A key that is not in the TA list, or whose row is past the matrix, ends the loop. */
  lemma MaxScoresStops<N(!new)>(keys: seq<N>, n: nat, counts: map<N, nat>, taList: seq<N>, prefs: Scores)
    requires n < |keys| && forall i :: 0 <= i < |keys| ==> keys[i] in counts
    requires MaxScores(keys, n, counts, taList, prefs).Ok?
    ensures IndexOf(taList, keys[n]).None? ==> MaxScores(keys, |keys|, counts, taList, prefs) == Err(UnknownTa(keys[n]))
    ensures IndexOf(taList, keys[n]).Some? && IndexOf(taList, keys[n]).value >= |prefs| ==>
      MaxScores(keys, |keys|, counts, taList, prefs) == Err(IndexOutOfRange)
  {
    if IndexOf(taList, keys[n]).None? || IndexOf(taList, keys[n]).value >= |prefs| {
      MaxScoresErrSticks(keys, n + 1, |keys|, counts, taList, prefs);
    }
  }

  /** The max-score loop (`for ta, num_oh in ta_num_oh_dict.items()`). */
  method BestScores<N(==,!new)>(keys: seq<N>, counts: map<N, nat>, taList: seq<N>, prefs: Scores)
    returns (r: Result<map<N, real>, MetricError<N>>)
    requires forall i :: 0 <= i < |keys| ==> keys[i] in counts
    ensures r == MaxScores(keys, |keys|, counts, taList, prefs)
  {
    var mx: map<N, real> := map[];
    var i := 0;
    while i < |keys|
      invariant 0 <= i <= |keys| && MaxScores(keys, i, counts, taList, prefs) == Ok(mx)
    {
      var ta := keys[i];
      var row := IndexOf(taList, ta);
      if row.None? {
        MaxScoresStops(keys, i, counts, taList, prefs);
        return Err(UnknownTa(ta));
      }
      var t := row.value;
      if t >= |prefs| {
        MaxScoresStops(keys, i, counts, taList, prefs);
        return Err(IndexOutOfRange);
      }
      MaxScoresStep(keys, i, counts, taList, prefs);
      mx := mx[ta := MaxScore(prefs[t], counts[ta])];
      i := i + 1;
    }
    return Ok(mx);
  }

  /** `defaultdict(lambda: 0)` read. */
  function Get<N(==,!new)>(acc: map<N, real>, ta: N): real {
    if ta in acc then acc[ta] else 0.0
  }

  /** The row an occupant's achieved score is read from. */
  function RowOf<N(==,!new)>(lookup: RowLookup, taList: seq<N>, slotTas: seq<N>, ta: N): Option<nat> {
    match lookup
    case SlotPosition => IndexOf(slotTas, ta)
    case TaListPosition => IndexOf(taList, ta)
  }

  /**
   * The achieved-score loop over the first n occupants of one slot whose column is `col`:
   * each adds its row's entry in that column to its running total.
   */
  function AddSlot<N(==,!new)>(acc: map<N, real>, tas: seq<N>, n: nat, col: nat, taList: seq<N>, prefs: Scores, lookup: RowLookup): Result<map<N, real>, MetricError<N>>
    requires n <= |tas|
  {
    if n == 0 then Ok(acc)
    else
      match AddSlot(acc, tas, n - 1, col, taList, prefs, lookup)
      case Err(e) => Err(e)
      case Ok(a) =>
        var ta := tas[n - 1];
        match RowOf(lookup, taList, tas, ta)
        case None => Err(UnknownTa(ta))
        case Some(row) =>
          if row < |prefs| && col < |prefs[row]| then Ok(a[ta := Get(a, ta) + prefs[row][col]])
          else Err(IndexOutOfRange)
  }

  /** The achieved-score loop over the first n items of the slot table. */
  function Achieve<N(==,!new)>(d: Table<N>, n: nat, ohList: seq<N>, taList: seq<N>, prefs: Scores, lookup: RowLookup): Result<map<N, real>, MetricError<N>>
    requires n <= |d|
  {
    if n == 0 then Ok(map[])
    else
      match Achieve(d, n - 1, ohList, taList, prefs, lookup)
      case Err(e) => Err(e)
      case Ok(acc) =>
        match IndexOf(ohList, d[n - 1].slot)
        case None => Err(UnknownSlot(d[n - 1].slot))
        case Some(col) => AddSlot(acc, d[n - 1].tas, |d[n - 1].tas|, col, taList, prefs, lookup)
  }

  lemma {:induction false} AddSlotErrSticks<N(!new)>(acc: map<N, real>, tas: seq<N>, n: nat, m: nat, col: nat, taList: seq<N>, prefs: Scores, lookup: RowLookup)
    requires n <= m <= |tas| && AddSlot(acc, tas, n, col, taList, prefs, lookup).Err?
    ensures AddSlot(acc, tas, m, col, taList, prefs, lookup) == AddSlot(acc, tas, n, col, taList, prefs, lookup)
    decreases m - n
  {
    if n < m {
      AddSlotErrSticks(acc, tas, n + 1, m, col, taList, prefs, lookup);
    }
  }

  lemma {:induction false} AchieveErrSticks<N(!new)>(d: Table<N>, n: nat, m: nat, ohList: seq<N>, taList: seq<N>, prefs: Scores, lookup: RowLookup)
    requires n <= m <= |d| && Achieve(d, n, ohList, taList, prefs, lookup).Err?
    ensures Achieve(d, m, ohList, taList, prefs, lookup) == Achieve(d, n, ohList, taList, prefs, lookup)
    decreases m - n
  {
    if n < m {
      AchieveErrSticks(d, n + 1, m, ohList, taList, prefs, lookup);
    }
  }

  /** One more occupant of a slot: its row is looked up and its cell added to its total. */
  lemma AddSlotStep<N(!new)>(acc: map<N, real>, tas: seq<N>, n: nat, col: nat, taList: seq<N>, prefs: Scores, lookup: RowLookup)
    requires n < |tas| && AddSlot(acc, tas, n, col, taList, prefs, lookup).Ok?
    ensures RowOf(lookup, taList, tas, tas[n]).None? ==>
      AddSlot(acc, tas, |tas|, col, taList, prefs, lookup) == Err(UnknownTa(tas[n]))
    ensures RowOf(lookup, taList, tas, tas[n]).Some? ==>
      var row := RowOf(lookup, taList, tas, tas[n]).value;
      var a := AddSlot(acc, tas, n, col, taList, prefs, lookup).value;
      if row < |prefs| && col < |prefs[row]| then
        AddSlot(acc, tas, n + 1, col, taList, prefs, lookup) == Ok(a[tas[n] := Get(a, tas[n]) + prefs[row][col]])
      else
        AddSlot(acc, tas, |tas|, col, taList, prefs, lookup) == Err(IndexOutOfRange)
  {
    if AddSlot(acc, tas, n + 1, col, taList, prefs, lookup).Err? {
      AddSlotErrSticks(acc, tas, n + 1, |tas|, col, taList, prefs, lookup);
    }
  }

  /** The inner achieved-score loop over one slot's occupants. */
  method AddOccupants<N(==,!new)>(acc: map<N, real>, tas: seq<N>, col: nat, taList: seq<N>, prefs: Scores, lookup: RowLookup)
    returns (r: Result<map<N, real>, MetricError<N>>)
    ensures r == AddSlot(acc, tas, |tas|, col, taList, prefs, lookup)
  {
    var ach := acc;
    var j := 0;
    while j < |tas|
      invariant 0 <= j <= |tas| && AddSlot(acc, tas, j, col, taList, prefs, lookup) == Ok(ach)
    {
      var ta := tas[j];
      var row := RowOf(lookup, taList, tas, ta);
      AddSlotStep(acc, tas, j, col, taList, prefs, lookup);
      if row.None? {
        return Err(UnknownTa(ta));
      }
      if !(row.value < |prefs| && col < |prefs[row.value]|) {
        return Err(IndexOutOfRange);
      }
      ach := ach[ta := Get(ach, ta) + prefs[row.value][col]];
      j := j + 1;
    }
    return Ok(ach);
  }

  /** One more slot of the table: its column is looked up and its occupants added. */
  lemma AchieveStep<N(!new)>(d: Table<N>, n: nat, ohList: seq<N>, taList: seq<N>, prefs: Scores, lookup: RowLookup)
    requires n < |d| && Achieve(d, n, ohList, taList, prefs, lookup).Ok?
    ensures IndexOf(ohList, d[n].slot).None? ==>
      Achieve(d, |d|, ohList, taList, prefs, lookup) == Err(UnknownSlot(d[n].slot))
    ensures IndexOf(ohList, d[n].slot).Some? ==>
      Achieve(d, n + 1, ohList, taList, prefs, lookup) ==
      AddSlot(Achieve(d, n, ohList, taList, prefs, lookup).value, d[n].tas, |d[n].tas|, IndexOf(ohList, d[n].slot).value, taList, prefs, lookup)
  {
    if IndexOf(ohList, d[n].slot).None? {
      AchieveErrSticks(d, n + 1, |d|, ohList, taList, prefs, lookup);
    }
  }

  /** The achieved-score loop (`for oh, ta_list in oh_ta_dict.items()`). */
  method AchievedScores<N(==,!new)>(d: Table<N>, ohList: seq<N>, taList: seq<N>, prefs: Scores, lookup: RowLookup)
    returns (r: Result<map<N, real>, MetricError<N>>)
    ensures r == Achieve(d, |d|, ohList, taList, prefs, lookup)
  {
    var ach: map<N, real> := map[];
    var i := 0;
    while i < |d|
      invariant 0 <= i <= |d| && Achieve(d, i, ohList, taList, prefs, lookup) == Ok(ach)
    {
      var col := IndexOf(ohList, d[i].slot);
      AchieveStep(d, i, ohList, taList, prefs, lookup);
      if col.None? {
        return Err(UnknownSlot(d[i].slot));
      }
      var next := AddOccupants(ach, d[i].tas, col.value, taList, prefs, lookup);
      if next.Err? {
        AchieveErrSticks(d, i + 1, |d|, ohList, taList, prefs, lookup);
        return next;
      }
      ach := next.value;
      i := i + 1;
    }
    return Ok(ach);
  }

  lemma {:induction false} AddSlotKeys<N(!new)>(acc: map<N, real>, tas: seq<N>, n: nat, col: nat, taList: seq<N>, prefs: Scores, lookup: RowLookup)
    requires n <= |tas| && AddSlot(acc, tas, n, col, taList, prefs, lookup).Ok?
    ensures forall x :: x in AddSlot(acc, tas, n, col, taList, prefs, lookup).value <==> x in acc || x in tas[..n]
  {
    if n > 0 {
      AddSlotKeys(acc, tas, n - 1, col, taList, prefs, lookup);
      assert tas[..n] == tas[..n - 1] + [tas[n - 1]];
    }
  }

  /** On success the achieved dict holds exactly the occupants of the table. */
  lemma {:induction false} AchieveKeys<N(!new)>(d: Table<N>, n: nat, ohList: seq<N>, taList: seq<N>, prefs: Scores, lookup: RowLookup)
    requires n <= |d| && Achieve(d, n, ohList, taList, prefs, lookup).Ok?
    ensures forall x :: x in Achieve(d, n, ohList, taList, prefs, lookup).value <==> x in Occupants(d, n)
    ensures forall i :: 0 <= i < n ==> IndexOf(ohList, d[i].slot).Some?
  {
    if n > 0 {
      AchieveKeys(d, n - 1, ohList, taList, prefs, lookup);
      var tas := d[n - 1].tas;
      var col := IndexOf(ohList, d[n - 1].slot).value;
      AddSlotKeys(Achieve(d, n - 1, ohList, taList, prefs, lookup).value, tas, |tas|, col, taList, prefs, lookup);
      assert tas[..|tas|] == tas;
    }
  }

  /** The per-TA ratios (`{ta: ach / ta_max_dict[ta] for ...}`). */
  function Divide<N(==,!new)>(ach: map<N, real>, mx: map<N, real>): (perc: map<N, Ratio>)
    requires forall ta :: ta in ach ==> ta in mx
  {
    map ta | ta in ach :: if mx[ta] == 0.0 then NonFinite else Quotient(ach[ta] / mx[ta])
  }

  /** The whole of `get_perc_max`: the per-TA ratios and the per-TA slot counts. */
  function PercMax<N(==,!new)>(d: Table<N>, ohList: seq<N>, taList: seq<N>, prefs: Scores, lookup: RowLookup): Result<(map<N, Ratio>, map<N, nat>), MetricError<N>>
  {
    var occ := Occupants(d, |d|);
    var counts := Tally(occ);
    var keys := Dedup(occ);
    DedupFacts(occ);
    match MaxScores(keys, |keys|, counts, taList, prefs)
    case Err(e) => Err(e)
    case Ok(mx) =>
      match Achieve(d, |d|, ohList, taList, prefs, lookup)
      case Err(e) => Err(e)
      case Ok(ach) =>
        MaxScoresValues(keys, |keys|, counts, taList, prefs);
        AchieveKeys(d, |d|, ohList, taList, prefs, lookup);
        assert forall ta :: ta in ach ==> ta in mx by {
          forall ta | ta in ach ensures ta in mx {
            var i :| 0 <= i < |keys| && keys[i] == ta;
          }
        }
        Ok((Divide(ach, mx), counts))
  }

  /**
   * `get_perc_max(oh_ta_dict, oh_list, ta_list, prefs)`: count, then max scores, then
   * achieved scores, then divide.
   */
  method GetPercMax<N(==,!new)>(d: Table<N>, ohList: seq<N>, taList: seq<N>, prefs: Scores, lookup: RowLookup)
    returns (r: Result<(map<N, Ratio>, map<N, nat>), MetricError<N>>)
    ensures r == PercMax(d, ohList, taList, prefs, lookup)
  {
    var occ := Occupants(d, |d|);
    var counts := Tally(occ);
    var keys := Dedup(occ);
    DedupFacts(occ);
    var mx := BestScores(keys, counts, taList, prefs);
    if mx.Err? {
      return Err(mx.error);
    }
    var ach := AchievedScores(d, ohList, taList, prefs, lookup);
    if ach.Err? {
      return Err(ach.error);
    }
    MaxScoresValues(keys, |keys|, counts, taList, prefs);
    AchieveKeys(d, |d|, ohList, taList, prefs, lookup);
    assert forall ta :: ta in ach.value ==> ta in mx.value by {
      forall ta | ta in ach.value ensures ta in mx.value {
        var i :| 0 <= i < |keys| && keys[i] == ta;
      }
    }
    return Ok((Divide(ach.value, mx.value), counts));
  }

  /**
   * On success the ratio dict, the count dict and the occupants of the table have the same
   * names, and each count is the number of the name's occurrences, whichever row lookup
   * is used.
   */
  lemma PercMaxKeys<N(!new)>(d: Table<N>, ohList: seq<N>, taList: seq<N>, prefs: Scores, lookup: RowLookup)
    requires PercMax(d, ohList, taList, prefs, lookup).Ok?
    ensures var (perc, counts) := PercMax(d, ohList, taList, prefs, lookup).value;
      && (forall ta :: ta in perc <==> ta in Occupants(d, |d|))
      && (forall ta :: ta in counts <==> ta in Occupants(d, |d|))
      && (forall ta :: ta in counts ==> counts[ta] == multiset(Occupants(d, |d|))[ta] >= 1)
  {
    AchieveKeys(d, |d|, ohList, taList, prefs, lookup);
  }

  /**
   * The lookup as written reads a TA's achieved score from the row at its position inside
   * the slot's list. TA "b" (row 1) alone in slot "s0" is scored on row 0: 9 achieved
   * against a best of 2, a ratio of 4.5 from non-negative preferences.
   */
  lemma SlotPositionRatioAboveOne()
    ensures PercMax([Occupancy("s0", ["b"])], ["s0", "s1"], ["a", "b"], [[9.0, 0.0], [1.0, 2.0]], SlotPosition)
      == Ok((map["b" := Quotient(4.5)], map["b" := 1]))
  {
    var d := [Occupancy("s0", ["b"])];
    var prefs := [[9.0, 0.0], [1.0, 2.0]];
    assert Occupants(d, 1) == ["b"];
    assert Dedup(["b"]) == ["b"];
    assert Tally(["b"]) == map["b" := 1];
    assert IndexOf(["a", "b"], "b") == Some(1);
    assert IndexOf(["s0", "s1"], "s0") == Some(0);
    assert IndexOf(["b"], "b") == Some(0);
    assert SortDesc([2.0]) == [2.0];
    assert SortDesc([1.0, 2.0]) == [2.0, 1.0];
    assert MaxScore([1.0, 2.0], 1) == 2.0 by {
      assert [2.0, 1.0][..1] == [2.0];
    }
    assert MaxScores(["b"], 1, map["b" := 1], ["a", "b"], prefs) == Ok(map["b" := 2.0]);
    assert AddSlot(map[], ["b"], 1, 0, ["a", "b"], prefs, SlotPosition) == Ok(map["b" := 9.0]);
    assert Achieve(d, 1, ["s0", "s1"], ["a", "b"], prefs, SlotPosition) == Ok(map["b" := 9.0]);
    assert Divide(map["b" := 9.0], map["b" := 2.0]) == map["b" := Quotient(4.5)];
  }

  /** The best two scores of the row [2, 1] sum to 3. */
  lemma RepeatMaxScore(prefs: Scores)
    requires prefs == [[2.0, 1.0]]
    ensures MaxScores(["a"], 1, map["a" := 2], ["a"], prefs) == Ok(map["a" := 3.0])
  {
    assert IndexOf(["a"], "a") == Some(0);
    assert SortDesc([1.0]) == [1.0];
    assert [2.0, 1.0][1..] == [1.0];
    assert SortDesc([2.0, 1.0]) == [2.0, 1.0];
    assert MaxScore([2.0, 1.0], 2) == 3.0 by {
      assert [2.0, 1.0][..2] == [2.0, 1.0];
      assert [2.0, 1.0][..1] == [2.0];
      assert [2.0][..0] == [];
      assert Sum([2.0]) == 2.0;
    }
  }

  /** "a" listed twice in slot "s0" (column 0) achieves 2 + 2 with the TA-list lookup. */
  lemma RepeatAchieved(d: Table<string>, prefs: Scores)
    requires d == [Occupancy("s0", ["a", "a"])] && prefs == [[2.0, 1.0]]
    ensures Achieve(d, 1, ["s0"], ["a"], prefs, TaListPosition) == Ok(map["a" := 4.0])
  {
    assert IndexOf(["a"], "a") == Some(0);
    assert IndexOf(["s0"], "s0") == Some(0);
    assert AddSlot(map[], ["a", "a"], 1, 0, ["a"], prefs, TaListPosition) == Ok(map["a" := 2.0]);
    assert Get(map["a" := 2.0], "a") == 2.0;
    assert map["a" := 2.0]["a" := 4.0] == map["a" := 4.0];
    assert AddSlot(map[], ["a", "a"], 2, 0, ["a"], prefs, TaListPosition) == Ok(map["a" := 4.0]);
  }

  /** 4 achieved against a best of 3. */
  lemma RepeatRatio(ach: map<string, real>, mx: map<string, real>)
    requires ach == map["a" := 4.0] && mx == map["a" := 3.0]
    ensures Divide(ach, mx) == map["a" := Quotient(4.0 / 3.0)]
  {
  }

  /**
   * Even the TA-list lookup exceeds ratio 1 once a slot lists a TA twice, which `match` can
   * produce (a TA placed in the same slot in two rounds): "a" twice in "s0" achieves 2 + 2
   * against a best of 2 + 1 over distinct positions of its row.
   */
  lemma RepeatedPlacementRatioAboveOne(d: Table<string>, prefs: Scores)
    requires d == [Occupancy("s0", ["a", "a"])] && prefs == [[2.0, 1.0]]
    ensures DistinctSlots(d) && !NoRepeats(d) && NonNegative(prefs)
    ensures PercMax(d, ["s0"], ["a"], prefs, TaListPosition)
      == Ok((map["a" := Quotient(4.0 / 3.0)], map["a" := 2]))
  {
    RepeatTable(d, prefs);
    RepeatOccupants(d);
    RepeatMaxScore(prefs);
    RepeatAchieved(d, prefs);
    RepeatRatio(map["a" := 4.0], map["a" := 3.0]);
  }

  /** The table of the repeat example breaks only the no-repeats condition. */
  lemma RepeatTable(d: Table<string>, prefs: Scores)
    requires d == [Occupancy("s0", ["a", "a"])] && prefs == [[2.0, 1.0]]
    ensures DistinctSlots(d) && !NoRepeats(d) && NonNegative(prefs)
  {
    assert d[0].tas[0] == d[0].tas[1];
    assert !Distinct(d[0].tas);
  }

  /** The occupants of the repeat example, their distinct names and their counts. */
  lemma RepeatOccupants(d: Table<string>)
    requires d == [Occupancy("s0", ["a", "a"])]
    ensures Occupants(d, |d|) == ["a", "a"]
    ensures Dedup(Occupants(d, |d|)) == ["a"]
    ensures Tally(Occupants(d, |d|)) == map["a" := 2]
  {
    assert Occupants(d, 1) == ["a", "a"];
    assert Dedup(["a"]) == ["a"];
    assert Dedup(["a", "a"]) == ["a"] by {
      assert ["a", "a"][..1] == ["a"];
    }
    assert multiset(["a", "a"])["a"] == 2;
  }

  /** One copy of `col` for every occurrence of `ta` among the first n occupants of a slot. */
  function Hits<N(==,!new)>(tas: seq<N>, n: nat, ta: N, col: nat): seq<nat>
    requires n <= |tas|
  {
    if n == 0 then [] else Hits(tas, n - 1, ta, col) + (if tas[n - 1] == ta then [col] else [])
  }

  /** The columns of every slot `ta` occupies among the first n items of the table, in order. */
  function Cols<N(==,!new)>(d: Table<N>, n: nat, ohList: seq<N>, ta: N): seq<nat>
    requires n <= |d|
  {
    if n == 0 then []
    else
      Cols(d, n - 1, ohList, ta) +
        match IndexOf(ohList, d[n - 1].slot)
        case None => []
        case Some(c) => Hits(d[n - 1].tas, |d[n - 1].tas|, ta, c)
  }

  lemma SumAppend(s: seq<real>, v: real)
    ensures Sum(s + [v]) == Sum(s) + v
  {
    assert (s + [v])[..|s|] == s;
  }

  lemma {:induction false} SumConcat(a: seq<real>, b: seq<real>)
    ensures Sum(a + b) == Sum(a) + Sum(b)
  {
    if b == [] {
      assert a + b == a;
    } else {
      var n := |b| - 1;
      assert a + b == (a + b[..n]) + [b[n]];
      SumConcat(a, b[..n]);
      SumAppend(a + b[..n], b[n]);
      SumAppend(b[..n], b[n]);
      assert b == b[..n] + [b[n]];
    }
  }

  lemma {:induction false} SumNonNegative(s: seq<real>)
    requires forall i :: 0 <= i < |s| ==> s[i] >= 0.0
    ensures Sum(s) >= 0.0
  {
    if s != [] {
      SumNonNegative(s[..|s| - 1]);
    }
  }

  lemma PicksConcat(row: seq<real>, a: seq<nat>, b: seq<nat>)
    requires InRange(a, |row|) && InRange(b, |row|)
    ensures InRange(a + b, |row|) && Picks(row, a + b) == Picks(row, a) + Picks(row, b)
  {
    assert forall i :: 0 <= i < |a + b| ==> (a + b)[i] == if i < |a| then a[i] else b[i - |a|];
  }

  /** With the TA-list lookup, the n-th occupant of a slot adds its cell to x's total iff it is x. */
  lemma AddSlotGet<N(!new)>(acc: map<N, real>, tas: seq<N>, n: nat, col: nat, taList: seq<N>, prefs: Scores, x: N, r: nat)
    requires 0 < n <= |tas| && IndexOf(taList, x) == Some(r) && r < |prefs|
    requires AddSlot(acc, tas, n, col, taList, prefs, TaListPosition).Ok?
    ensures AddSlot(acc, tas, n - 1, col, taList, prefs, TaListPosition).Ok?
    ensures tas[n - 1] == x ==> (
      && col < |prefs[r]|
      && Get(AddSlot(acc, tas, n, col, taList, prefs, TaListPosition).value, x) ==
         Get(AddSlot(acc, tas, n - 1, col, taList, prefs, TaListPosition).value, x) + prefs[r][col])
    ensures tas[n - 1] != x ==>
      Get(AddSlot(acc, tas, n, col, taList, prefs, TaListPosition).value, x) ==
      Get(AddSlot(acc, tas, n - 1, col, taList, prefs, TaListPosition).value, x)
  {
    var prev := AddSlot(acc, tas, n - 1, col, taList, prefs, TaListPosition);
    assert prev.Ok?;
    var a, ta := prev.value, tas[n - 1];
    var row := IndexOf(taList, ta).value;
    var next := a[ta := Get(a, ta) + prefs[row][col]];
    assert AddSlot(acc, tas, n, col, taList, prefs, TaListPosition) == Ok(next);
  }

  /**
   * With the TA-list lookup, the total a slot adds for TA x (row r) is the sum of x's row
   * at that slot's column, once per occurrence of x.
   */
  lemma {:induction false} AddSlotTotal<N(!new)>(acc: map<N, real>, tas: seq<N>, n: nat, col: nat, taList: seq<N>, prefs: Scores, x: N, r: nat)
    requires n <= |tas| && IndexOf(taList, x) == Some(r) && r < |prefs|
    requires AddSlot(acc, tas, n, col, taList, prefs, TaListPosition).Ok?
    ensures InRange(Hits(tas, n, x, col), |prefs[r]|)
    ensures Get(AddSlot(acc, tas, n, col, taList, prefs, TaListPosition).value, x) ==
      Get(acc, x) + Sum(Picks(prefs[r], Hits(tas, n, x, col)))
  {
    if n > 0 {
      AddSlotGet(acc, tas, n, col, taList, prefs, x, r);
      AddSlotTotal(acc, tas, n - 1, col, taList, prefs, x, r);
      var h := Hits(tas, n - 1, x, col);
      if tas[n - 1] == x {
        assert Hits(tas, n, x, col) == h + [col];
        assert Picks(prefs[r], h + [col]) == Picks(prefs[r], h) + [prefs[r][col]];
        SumAppend(Picks(prefs[r], h), prefs[r][col]);
      } else {
        assert Hits(tas, n, x, col) == h;
      }
    }
  }

  /** With the TA-list lookup, x's achieved score is the sum of its row at its slots' columns. */
  lemma {:induction false} AchieveTotal<N(!new)>(d: Table<N>, n: nat, ohList: seq<N>, taList: seq<N>, prefs: Scores, x: N, r: nat)
    requires n <= |d| && IndexOf(taList, x) == Some(r) && r < |prefs|
    requires Achieve(d, n, ohList, taList, prefs, TaListPosition).Ok?
    ensures InRange(Cols(d, n, ohList, x), |prefs[r]|)
    ensures Get(Achieve(d, n, ohList, taList, prefs, TaListPosition).value, x) ==
      Sum(Picks(prefs[r], Cols(d, n, ohList, x)))
  {
    if n > 0 {
      AchieveTotal(d, n - 1, ohList, taList, prefs, x, r);
      var tas := d[n - 1].tas;
      var c := IndexOf(ohList, d[n - 1].slot).value;
      var before := Achieve(d, n - 1, ohList, taList, prefs, TaListPosition).value;
      AddSlotTotal(before, tas, |tas|, c, taList, prefs, x, r);
      var a, b := Cols(d, n - 1, ohList, x), Hits(tas, |tas|, x, c);
      assert Cols(d, n, ohList, x) == a + b;
      PicksConcat(prefs[r], a, b);
      SumConcat(Picks(prefs[r], a), Picks(prefs[r], b));
    }
  }

  lemma {:induction false} HitsCount<N(!new)>(tas: seq<N>, n: nat, x: N, col: nat)
    requires n <= |tas|
    ensures |Hits(tas, n, x, col)| == multiset(tas[..n])[x]
  {
    if n > 0 {
      HitsCount(tas, n - 1, x, col);
      assert tas[..n] == tas[..n - 1] + [tas[n - 1]];
      assert multiset(tas[..n]) == multiset(tas[..n - 1]) + multiset{tas[n - 1]};
    }
  }

  lemma {:induction false} HitsConstant<N(!new)>(tas: seq<N>, n: nat, x: N, col: nat)
    requires n <= |tas|
    ensures forall i :: 0 <= i < |Hits(tas, n, x, col)| ==> Hits(tas, n, x, col)[i] == col
  {
    if n > 0 {
      HitsConstant(tas, n - 1, x, col);
    }
  }

  lemma HitsShape<N(!new)>(tas: seq<N>, n: nat, x: N, col: nat)
    requires n <= |tas|
    ensures |Hits(tas, n, x, col)| == multiset(tas[..n])[x]
    ensures forall i :: 0 <= i < |Hits(tas, n, x, col)| ==> Hits(tas, n, x, col)[i] == col
  {
    HitsCount(tas, n, x, col);
    HitsConstant(tas, n, x, col);
  }

  /** A name occurs at most once in a list without repeats. */
  lemma {:induction false} DistinctOnce<N(!new)>(xs: seq<N>, x: N)
    requires Distinct(xs)
    ensures multiset(xs)[x] <= 1
  {
    if xs != [] {
      var n := |xs| - 1;
      assert xs == xs[..n] + [xs[n]];
      assert Distinct(xs[..n]);
      DistinctOnce(xs[..n], x);
      if xs[n] == x {
        assert x !in xs[..n];
      }
    }
  }

  lemma CountConcat<T>(a: seq<T>, b: seq<T>, x: T)
    ensures multiset(a + b)[x] == multiset(a)[x] + multiset(b)[x]
  {
  }

  /** When every slot of the table is found, x has one column per occurrence. */
  /** Every one of the first n slot names of the table is in the slot list. */
  predicate SlotsFound<N(==)>(d: Table<N>, n: nat, ohList: seq<N>)
    requires n <= |d|
  {
    forall i :: 0 <= i < n ==> d[i].slot in ohList
  }

  lemma {:induction false} ColsCount<N(!new)>(d: Table<N>, n: nat, ohList: seq<N>, x: N)
    requires n <= |d| && SlotsFound(d, n, ohList)
    ensures |Cols(d, n, ohList, x)| == multiset(Occupants(d, n))[x]
  {
    if n > 0 {
      assert SlotsFound(d, n - 1, ohList) && d[n - 1].slot in ohList;
      ColsCount(d, n - 1, ohList, x);
      ColsCountStep(d, n, ohList, x);
    }
  }

  lemma ColsCountStep<N(!new)>(d: Table<N>, n: nat, ohList: seq<N>, x: N)
    requires 0 < n <= |d| && d[n - 1].slot in ohList
    requires |Cols(d, n - 1, ohList, x)| == multiset(Occupants(d, n - 1))[x]
    ensures |Cols(d, n, ohList, x)| == multiset(Occupants(d, n))[x]
  {
    IndexOfFacts(ohList, d[n - 1].slot);
    var tas := d[n - 1].tas;
    var c := IndexOf(ohList, d[n - 1].slot).value;
    var h := Hits(tas, |tas|, x, c);
    assert |h| == multiset(tas)[x] by {
      HitsShape(tas, |tas|, x, c);
      assert tas[..|tas|] == tas;
    }
    assert Cols(d, n, ohList, x) == Cols(d, n - 1, ohList, x) + h;
    CountConcat(Occupants(d, n - 1), tas, x);
    assert Occupants(d, n) == Occupants(d, n - 1) + tas;
  }

  /** The table's slot names are distinct, as the keys of a dict are. */
  predicate DistinctSlots<N(==,!new)>(d: Table<N>) {
    forall i, j :: 0 <= i < j < |d| ==> d[i].slot != d[j].slot
  }

  /** No slot lists the same TA twice. */
  predicate NoRepeats<N(==,!new)>(d: Table<N>) {
    forall i :: 0 <= i < |d| ==> Distinct(d[i].tas)
  }

  /** Every column in `cols` is the slot-list position of one of the first n slot names. */
  predicate FromSlots<N(==,!new)>(cols: seq<nat>, d: Table<N>, n: nat, ohList: seq<N>)
    requires n <= |d|
  {
    forall j :: 0 <= j < |cols| ==> cols[j] < |ohList| && exists i :: 0 <= i < n && ohList[cols[j]] == d[i].slot
  }

  /** With distinct slot names and no repeats inside a slot, x's columns are distinct. */
  lemma {:induction false} ColsDistinct<N(!new)>(d: Table<N>, n: nat, ohList: seq<N>, x: N)
    requires n <= |d| && DistinctSlots(d) && NoRepeats(d)
    ensures Distinct(Cols(d, n, ohList, x)) && FromSlots(Cols(d, n, ohList, x), d, n, ohList)
  {
    if n > 0 {
      ColsDistinct(d, n - 1, ohList, x);
      ColsDistinctStep(d, n, ohList, x);
    }
  }

  lemma ColsDistinctStep<N(!new)>(d: Table<N>, n: nat, ohList: seq<N>, x: N)
    requires 0 < n <= |d| && DistinctSlots(d) && NoRepeats(d)
    requires Distinct(Cols(d, n - 1, ohList, x)) && FromSlots(Cols(d, n - 1, ohList, x), d, n - 1, ohList)
    ensures Distinct(Cols(d, n, ohList, x)) && FromSlots(Cols(d, n, ohList, x), d, n, ohList)
  {
    var a := Cols(d, n - 1, ohList, x);
    assert FromSlots(a, d, n, ohList) by {
      forall j | 0 <= j < |a| ensures exists i :: 0 <= i < n && ohList[a[j]] == d[i].slot {
        var i :| 0 <= i < n - 1 && ohList[a[j]] == d[i].slot;
      }
    }
    if IndexOf(ohList, d[n - 1].slot).Some? {
      IndexOfFacts(ohList, d[n - 1].slot);
      var tas := d[n - 1].tas;
      var c := IndexOf(ohList, d[n - 1].slot).value;
      var b := Hits(tas, |tas|, x, c);
      assert |b| <= 1 && forall j :: 0 <= j < |b| ==> b[j] == c by {
        HitsShape(tas, |tas|, x, c);
        assert tas[..|tas|] == tas;
        DistinctOnce(tas, x);
      }
      assert Cols(d, n, ohList, x) == a + b;
      if b != [] {
        assert b == [c];
        assert ohList[c] == d[n - 1].slot;
        forall j | 0 <= j < |a| ensures a[j] != c {
          var i :| 0 <= i < n - 1 && ohList[a[j]] == d[i].slot;
          assert d[i].slot != d[n - 1].slot;
        }
        var all := a + b;
        forall p, q | 0 <= p < q < |all| ensures all[p] != all[q] {
          if q == |a| {
            assert all[p] == a[p] && all[q] == c;
          } else {
            assert all[p] == a[p] && all[q] == a[q];
          }
        }
      } else {
        assert a + b == a;
      }
    } else {
      assert Cols(d, n, ohList, x) == a;
    }
  }

  /** Every cell of the preference matrix is non-negative (the survey's 0 to 4 scale). */
  predicate NonNegative(prefs: Scores) {
    forall t, c :: 0 <= t < |prefs| && 0 <= c < |prefs[t]| ==> prefs[t][c] >= 0.0
  }

  lemma RatioBounds(a: real, b: real)
    requires 0.0 <= a <= b && b != 0.0
    ensures 0.0 <= a / b <= 1.0
  {
    assert b > 0.0;
    assert (a / b) * b == a;
  }

  /** Under the TA-list lookup, an occupant's achieved score lies between 0 and its max score. */
  lemma AchievedWithinMax<N(!new)>(d: Table<N>, ohList: seq<N>, taList: seq<N>, prefs: Scores, ta: N, r: nat)
    requires DistinctSlots(d) && NoRepeats(d) && NonNegative(prefs)
    requires IndexOf(taList, ta) == Some(r) && r < |prefs|
    requires Achieve(d, |d|, ohList, taList, prefs, TaListPosition).Ok?
    requires ta in Achieve(d, |d|, ohList, taList, prefs, TaListPosition).value
    ensures 0.0 <= Achieve(d, |d|, ohList, taList, prefs, TaListPosition).value[ta]
      <= MaxScore(prefs[r], multiset(Occupants(d, |d|))[ta])
  {
    var cols := Cols(d, |d|, ohList, ta);
    AchieveKeys(d, |d|, ohList, taList, prefs, TaListPosition);
    assert SlotsFound(d, |d|, ohList) by {
      forall i | 0 <= i < |d| ensures d[i].slot in ohList {
        IndexOfFacts(ohList, d[i].slot);
      }
    }
    ColsCount(d, |d|, ohList, ta);
    ColsDistinct(d, |d|, ohList, ta);
    AchieveTotal(d, |d|, ohList, taList, prefs, ta, r);
    MaxScoreBound(prefs[r], cols);
    SumNonNegative(Picks(prefs[r], cols));
  }

  /** One TA's ratio under the TA-list lookup. */
  lemma RatioOfOne<N(!new)>(d: Table<N>, ohList: seq<N>, taList: seq<N>, prefs: Scores, ta: N)
    requires DistinctSlots(d) && NoRepeats(d) && NonNegative(prefs)
    requires PercMax(d, ohList, taList, prefs, TaListPosition).Ok?
    requires ta in PercMax(d, ohList, taList, prefs, TaListPosition).value.0
    ensures PercMax(d, ohList, taList, prefs, TaListPosition).value.0[ta] == NonFinite ||
      0.0 <= PercMax(d, ohList, taList, prefs, TaListPosition).value.0[ta].value <= 1.0
  {
    var occ := Occupants(d, |d|);
    var counts := Tally(occ);
    var keys := Dedup(occ);
    DedupFacts(occ);
    var mx := MaxScores(keys, |keys|, counts, taList, prefs).value;
    var ach := Achieve(d, |d|, ohList, taList, prefs, TaListPosition).value;
    AchieveKeys(d, |d|, ohList, taList, prefs, TaListPosition);
    var i :| 0 <= i < |keys| && keys[i] == ta;
    MaxScoresValues(keys, |keys|, counts, taList, prefs);
    var r := IndexOf(taList, ta).value;
    AchievedWithinMax(d, ohList, taList, prefs, ta, r);
    var ratio := if mx[ta] == 0.0 then NonFinite else Quotient(ach[ta] / mx[ta]);
    assert PercMax(d, ohList, taList, prefs, TaListPosition).value.0[ta] == ratio;
    if mx[ta] != 0.0 {
      RatioBounds(ach[ta], mx[ta]);
    }
  }

  /**
   * Looked up in the TA list, as intended, every ratio is at most 1 (or non-finite for a
   * max score of 0) when slot names are distinct, no slot lists a TA twice and no
   * preference is negative.
   */
  lemma RatioAtMostOne<N(!new)>(d: Table<N>, ohList: seq<N>, taList: seq<N>, prefs: Scores)
    requires DistinctSlots(d) && NoRepeats(d) && NonNegative(prefs)
    requires PercMax(d, ohList, taList, prefs, TaListPosition).Ok?
    ensures forall ta :: ta in PercMax(d, ohList, taList, prefs, TaListPosition).value.0 ==>
      PercMax(d, ohList, taList, prefs, TaListPosition).value.0[ta] == NonFinite ||
      0.0 <= PercMax(d, ohList, taList, prefs, TaListPosition).value.0[ta].value <= 1.0
  {
    forall ta | ta in PercMax(d, ohList, taList, prefs, TaListPosition).value.0
      ensures PercMax(d, ohList, taList, prefs, TaListPosition).value.0[ta] == NonFinite ||
        0.0 <= PercMax(d, ohList, taList, prefs, TaListPosition).value.0[ta].value <= 1.0
    {
      RatioOfOne(d, ohList, taList, prefs, ta);
    }
  }
}
