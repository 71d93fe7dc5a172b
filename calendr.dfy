/**
 * oh_sched/calendr.py: the day-of-week of a slot string, the weekly recurrence of a slot
 * between two dates, and the calendar of all slots with their TA titles.
 *
 * Dates are day ordinals as Python's `date.toordinal()` counts them (day 1 is 1 January of
 * year 1, a Monday). Times of day are values of an opaque type `T`; `to_timedelta` is the
 * parameter `parse`, which gives None where `strptime` raises.
 */
module Calendar {
  import opened Wrappers
  import opened Text

  /** The patterns of `normalize_day_of_week`, in the order of `date.weekday()`. */
  const DAYS: seq<string> := ["mon", "tues", "wed", "thurs", "fri", "sat", "sun"]

  /** The start of every event title. */
  const TITLE_PREFIX: string := "Online OH- "

  /** What ends `start_stop_iter` (and with it `build_calendar`) before any event. */
  datatype CalendarError =
    | NonUniqueDay(text: string)  // first assertion of normalize_day_of_week
    | NoDay(text: string)         // second assertion of normalize_day_of_week
    | BadFormat(text: string)     // a split that does not unpack into two parts
    | BadTime(text: string)       // to_timedelta cannot read the time

  /** The comprehension `match_list`: which of the patterns occur in `s`. */
  function Found(s: string, pats: seq<string>): seq<bool> {
    if pats == [] then [] else [Occurs(s, pats[0])] + Found(s, pats[1..])
  }

  lemma {:induction false} FoundFacts(s: string, pats: seq<string>)
    ensures |Found(s, pats)| == |pats|
    ensures forall i :: 0 <= i < |pats| ==> Found(s, pats)[i] == Occurs(s, pats[i])
  {
    if pats != [] {
      FoundFacts(s, pats[1..]);
    }
  }

  /** `sum(match_list)`. */
  function CountTrue(bs: seq<bool>): nat {
    if bs == [] then 0 else (if bs[0] then 1 else 0) + CountTrue(bs[1..])
  }

  /** The index the scan `for idx, b in enumerate(...)` returns at (|bs| if none). */
  function FirstTrue(bs: seq<bool>): nat {
    if bs == [] || bs[0] then 0 else 1 + FirstTrue(bs[1..])
  }

  lemma {:induction false} CountNone(bs: seq<bool>)
    ensures CountTrue(bs) == 0 <==> forall i :: 0 <= i < |bs| ==> !bs[i]
  {
    if bs != [] {
      CountNone(bs[1..]);
      assert forall i :: 0 < i < |bs| ==> bs[i] == bs[1..][i - 1];
    }
  }

  lemma {:induction false} CountOne(bs: seq<bool>)
    requires CountTrue(bs) == 1
    ensures FirstTrue(bs) < |bs| && bs[FirstTrue(bs)]
    ensures forall j :: 0 <= j < |bs| && j != FirstTrue(bs) ==> !bs[j]
  {
    assert forall i :: 0 < i < |bs| ==> bs[i] == bs[1..][i - 1];
    if bs[0] {
      CountNone(bs[1..]);
    } else {
      CountOne(bs[1..]);
    }
  }

  lemma {:induction false} CountSingle(bs: seq<bool>, k: nat)
    requires k < |bs| && bs[k] && forall j :: 0 <= j < |bs| && j != k ==> !bs[j]
    ensures CountTrue(bs) == 1 && FirstTrue(bs) == k
  {
    assert forall i :: 0 < i < |bs| ==> bs[i] == bs[1..][i - 1];
    if k == 0 {
      CountNone(bs[1..]);
    } else {
      CountSingle(bs[1..], k - 1);
    }
  }

  lemma {:induction false} CountTwo(bs: seq<bool>)
    ensures CountTrue(bs) >= 2 <==> exists j, k :: 0 <= j < k < |bs| && bs[j] && bs[k]
  {
    if bs != [] {
      CountTwo(bs[1..]);
      CountNone(bs[1..]);
      assert forall i :: 0 < i < |bs| ==> bs[i] == bs[1..][i - 1];
      if exists j, k :: 0 <= j < k < |bs| && bs[j] && bs[k] {
        var j, k :| 0 <= j < k < |bs| && bs[j] && bs[k];
        if j > 0 {
          assert bs[1..][j - 1] && bs[1..][k - 1];
        } else {
          assert bs[1..][k - 1];
        }
      }
      if CountTrue(bs) >= 2 && bs[0] {
        var k :| 0 <= k < |bs[1..]| && bs[1..][k];
        assert bs[0] && bs[k + 1];
      }
      if CountTrue(bs) >= 2 && !bs[0] {
        var j, k :| 0 <= j < k < |bs[1..]| && bs[1..][j] && bs[1..][k];
        assert bs[j + 1] && bs[k + 1];
      }
    }
  }

  /**
   * `normalize_day_of_week(s)`: the index of the first pattern found in `s`, ignoring case,
   * once two or more patterns and then no pattern have been ruled out.
   */
  function NormalizeDayOfWeek(s: string): Result<nat, CalendarError> {
    var hits := Found(s, DAYS);
    if CountTrue(hits) >= 2 then Err(NonUniqueDay(s))
    else if CountTrue(hits) == 0 then Err(NoDay(s))
    else Ok(FirstTrue(hits))
  }

  /**
   * The day of a slot string is the one pattern found in it; two or more patterns and no
   * pattern are the two assertion failures, checked in that order.
   */
  lemma DayOfWeekCases(s: string)
    ensures NormalizeDayOfWeek(s).Ok? || NormalizeDayOfWeek(s) == Err(NoDay(s)) ||
      NormalizeDayOfWeek(s) == Err(NonUniqueDay(s))
    ensures NormalizeDayOfWeek(s).Ok? ==>
      && NormalizeDayOfWeek(s).value < 7 && Occurs(s, DAYS[NormalizeDayOfWeek(s).value])
      && (forall j :: 0 <= j < 7 && j != NormalizeDayOfWeek(s).value ==> !Occurs(s, DAYS[j]))
    ensures NormalizeDayOfWeek(s) == Err(NoDay(s)) <==> forall j :: 0 <= j < 7 ==> !Occurs(s, DAYS[j])
    ensures NormalizeDayOfWeek(s) == Err(NonUniqueDay(s)) <==>
      exists j, k :: 0 <= j < k < 7 && Occurs(s, DAYS[j]) && Occurs(s, DAYS[k])
  {
    var hits := Found(s, DAYS);
    FoundFacts(s, DAYS);
    CountNone(hits);
    CountTwo(hits);
    if CountTrue(hits) == 1 {
      CountOne(hits);
    }
  }

  /** Naming two days, in any case, is the first assertion failure. */
  lemma TwoDaysExample()
    ensures NormalizeDayOfWeek("Mon/Wed") == Err(NonUniqueDay("Mon/Wed"))
  {
    var t := "Mon/Wed";
    FoundFacts(t, DAYS);
    CountTwo(Found(t, DAYS));
    assert MatchesAt(t, DAYS[0], 0) && MatchesAt(t, DAYS[2], 4);
  }

  /** No place where `pat` could start in `s` holds its first letter. */
  lemma Absent(s: string, pat: string)
    requires pat != [] && forall i :: 0 <= i <= |s| - |pat| ==> Lower(s[i]) != Lower(pat[0])
    ensures !Occurs(s, pat)
  {
    forall i | 0 <= i <= |s| - |pat| ensures !MatchesAt(s, pat, i) {
      assert Lower(s[i + 0]) != Lower(pat[0]);
    }
  }

  /** No place where `pat` could start in `s` holds its first two letters. */
  lemma AbsentPair(s: string, pat: string)
    requires |pat| >= 2
    requires forall i :: 0 <= i <= |s| - |pat| ==> Lower(s[i]) != Lower(pat[0]) || Lower(s[i + 1]) != Lower(pat[1])
    ensures !Occurs(s, pat)
  {
    forall i | 0 <= i <= |s| - |pat| ensures !MatchesAt(s, pat, i) {
      assert Lower(s[i + 0]) != Lower(pat[0]) || Lower(s[i + 1]) != Lower(pat[1]);
    }
  }

  /** A day named in any case is found, with its index in Monday-first order. */
  lemma OneDayExample()
    ensures NormalizeDayOfWeek("Thurs") == Ok(3)
  {
    var s := "Thurs";
    FoundFacts(s, DAYS);
    assert MatchesAt(s, DAYS[3], 0);
    Absent(s, DAYS[0]);
    Absent(s, DAYS[2]);
    Absent(s, DAYS[4]);
    Absent(s, DAYS[5]);
    Absent(s, DAYS[6]);
    AbsentPair(s, DAYS[1]);
    CountSingle(Found(s, DAYS), 3);
  }

  /** `date.weekday()` of a day ordinal: 0 for Monday to 6 for Sunday. */
  function Weekday(d: int): nat {
    (d + 6) % 7
  }

  /** The first day on or after `start` whose weekday is `idx`, in closed form. */
  function FirstOnOrAfter(start: int, idx: nat): int {
    start + (idx - Weekday(start)) % 7
  }

  /** The remainder of `x` by 7, from a quotient and remainder of it. */
  lemma ModSeven(x: int, q: int, r: int)
    requires x == 7 * q + r && 0 <= r < 7
    ensures x % 7 == r
  {
  }

  /** FirstOnOrAfter is the earliest day from `start` on with weekday `idx`, within a week. */
  lemma FirstOnOrAfterFacts(start: int, idx: nat)
    requires idx < 7
    ensures start <= FirstOnOrAfter(start, idx) < start + 7
    ensures Weekday(FirstOnOrAfter(start, idx)) == idx
    ensures forall d :: start <= d < FirstOnOrAfter(start, idx) ==> Weekday(d) != idx
  {
    var w, q := Weekday(start), (start + 6) / 7;
    assert start + 6 == 7 * q + w;
    var delta, q2 := (idx - w) % 7, (idx - w) / 7;
    assert idx - w == 7 * q2 + delta;
    assert q2 == 0 || q2 == -1;
    ModSeven(start + delta + 6, q - q2, idx);
    forall d | start <= d < start + delta ensures Weekday(d) != idx {
      var e := d - start;
      if w + e < 7 {
        ModSeven(d + 6, q, w + e);
      } else {
        ModSeven(d + 6, q + 1, w + e - 7);
      }
    }
  }

  /** Two days share a weekday exactly when they are a whole number of weeks apart. */
  lemma SameWeekday(a: int, b: int)
    ensures Weekday(a) == Weekday(b) <==> (a - b) % 7 == 0
  {
  }

  /** The alignment loop: step one day at a time until the weekday is `idx`. */
  method AlignTo(start: int, idx: nat) returns (date: int)
    requires idx < 7
    ensures date == FirstOnOrAfter(start, idx)
  {
    FirstOnOrAfterFacts(start, idx);
    date := start;
    while Weekday(date) != idx
      invariant start <= date <= FirstOnOrAfter(start, idx)
      decreases FirstOnOrAfter(start, idx) - date
    {
      date := date + 1;
    }
  }

  /** How many weekly dates from `first` are on or before `end`. */
  function WeeklyCount(first: int, end: int): nat {
    if first > end then 0 else (end - first) / 7 + 1
  }

  /** `first`, `first + 7`, ... up to `end`, in closed form. */
  function WeeklyDates(first: int, end: int): seq<int> {
    seq(WeeklyCount(first, end), i requires 0 <= i => first + 7 * i)
  }

  lemma WeeklyCountBounds(first: int, end: int, n: nat)
    requires n == 0 ==> first > end
    requires n > 0 ==> first + 7 * (n - 1) <= end < first + 7 * n
    ensures n == WeeklyCount(first, end)
  {
    if n > 0 {
      assert 0 <= (end - first) - 7 * (n - 1) < 7;
    }
  }

  /**
   * The weekly dates are a week apart, none is past `end`, the next one would be, and they
   * are exactly the days from `first` to `end` a whole number of weeks after `first`.
   */
  lemma WeeklyDatesFacts(first: int, end: int)
    ensures WeeklyDates(first, end) != [] ==> WeeklyDates(first, end)[0] == first
    ensures forall i :: 0 < i < |WeeklyDates(first, end)| ==>
      WeeklyDates(first, end)[i] == WeeklyDates(first, end)[i - 1] + 7
    ensures forall i :: 0 <= i < |WeeklyDates(first, end)| ==> WeeklyDates(first, end)[i] <= end
    ensures first + 7 * |WeeklyDates(first, end)| > end
    ensures forall d :: d in WeeklyDates(first, end) <==> first <= d <= end && (d - first) % 7 == 0
  {
    var r := WeeklyDates(first, end);
    forall d | first <= d <= end && (d - first) % 7 == 0 ensures d in r {
      var i := (d - first) / 7;
      assert r[i] == d;
    }
  }

  /** `datetime.combine(date, time)`. */
  datatype Moment<T> = Moment(date: int, time: T)

  /** One yielded pair per date, every one with the same start and end time. */
  function Combine<T>(dates: seq<int>, ts: T, te: T): seq<(Moment<T>, Moment<T>)> {
    seq(|dates|, i requires 0 <= i < |dates| => (Moment(dates[i], ts), Moment(dates[i], te)))
  }

  /** The recurrence loop: yield the pair for `date`, then move a week on, until past `end`. */
  method Recur<T>(first: int, end: int, ts: T, te: T) returns (pairs: seq<(Moment<T>, Moment<T>)>)
    ensures pairs == Combine(WeeklyDates(first, end), ts, te)
  {
    pairs := [];
    var date := first;
    while date <= end
      invariant date == first + 7 * |pairs|
      invariant |pairs| > 0 ==> date - 7 <= end
      invariant forall i :: 0 <= i < |pairs| ==> pairs[i] == (Moment(first + 7 * i, ts), Moment(first + 7 * i, te))
      decreases end - date
    {
      pairs := pairs + [(Moment(date, ts), Moment(date, te))];
      date := date + 7;
    }
    WeeklyCountBounds(first, end, |pairs|);
  }

  /** Everything `start_stop_iter(date_start, date_end, time_str)` yields, or what stops it. */
  function Occurrences<T>(start: int, end: int, timeStr: string, parse: string -> Option<T>)
    : Result<seq<(Moment<T>, Moment<T>)>, CalendarError>
  {
    var parts := Split(timeStr, '@');
    if |parts| != 2 then Err(BadFormat(timeStr))
    else
      match NormalizeDayOfWeek(parts[0])
      case Err(e) => Err(e)
      case Ok(idx) =>
        var times := Split(parts[1], '-');
        if |times| != 2 then Err(BadFormat(parts[1]))
        else
          match parse(times[0])
          case None => Err(BadTime(times[0]))
          case Some(ts) =>
            match parse(times[1])
            case None => Err(BadTime(times[1]))
            case Some(te) => Ok(Combine(WeeklyDates(FirstOnOrAfter(start, idx), end), ts, te))
  }

  /**
   * `start_stop_iter`: split off the day, align the start to it, split the times, read
   * them once, then recur weekly.
   */
  method StartStopIter<T>(start: int, end: int, timeStr: string, parse: string -> Option<T>)
    returns (r: Result<seq<(Moment<T>, Moment<T>)>, CalendarError>)
    ensures r == Occurrences(start, end, timeStr, parse)
  {
    var parts := Split(timeStr, '@');
    if |parts| != 2 {
      return Err(BadFormat(timeStr));
    }
    var day := NormalizeDayOfWeek(parts[0]);
    if day.Err? {
      return Err(day.error);
    }
    DayOfWeekCases(parts[0]);
    var date := AlignTo(start, day.value);
    var times := Split(parts[1], '-');
    if |times| != 2 {
      return Err(BadFormat(parts[1]));
    }
    var ts := parse(times[0]);
    if ts.None? {
      return Err(BadTime(times[0]));
    }
    var te := parse(times[1]);
    if te.None? {
      return Err(BadTime(times[1]));
    }
    var pairs := Recur(date, end, ts.value, te.value);
    return Ok(pairs);
  }

  /**
   * A slot string reads only with exactly one '@', and with exactly one '-' after it; any
   * other count is the unpacking error.
   */
  lemma OccurrencesFormat<T>(start: int, end: int, timeStr: string, parse: string -> Option<T>)
    ensures multiset(timeStr)['@'] != 1 ==> Occurrences(start, end, timeStr, parse) == Err(BadFormat(timeStr))
    ensures Occurrences(start, end, timeStr, parse).Ok? ==>
      multiset(timeStr)['@'] == 1 && multiset(Split(timeStr, '@')[1])['-'] == 1
  {
    SplitPieces(timeStr, '@');
    if |Split(timeStr, '@')| == 2 {
      SplitPieces(Split(timeStr, '@')[1], '-');
    }
  }

  /**
   * What the recurrence from `start` to `end` on weekday `idx` yields: pairs on one day
   * each, every day between `start` and `end` with that weekday, a week apart, the first
   * within a week of `start`, and every pair with the same two times.
   */
  lemma RecurrenceFacts<T>(start: int, end: int, idx: nat, ts: T, te: T)
    requires idx < 7
    ensures var r := Combine(WeeklyDates(FirstOnOrAfter(start, idx), end), ts, te);
      && (forall i :: 0 <= i < |r| ==>
            && r[i].0.date == r[i].1.date && start <= r[i].0.date <= end
            && Weekday(r[i].0.date) == idx && r[i].0.time == ts && r[i].1.time == te)
      && (forall i :: 0 < i < |r| ==> r[i].0.date == r[i - 1].0.date + 7)
      && (r != [] ==> r[0].0.date < start + 7)
      && (forall d :: start <= d <= end && Weekday(d) == idx ==>
            exists i :: 0 <= i < |r| && r[i].0.date == d)
  {
    var first := FirstOnOrAfter(start, idx);
    var dates := WeeklyDates(first, end);
    var r := Combine(dates, ts, te);
    FirstOnOrAfterFacts(start, idx);
    WeeklyDatesFacts(first, end);
    forall i | 0 <= i < |r| ensures Weekday(r[i].0.date) == idx {
      SameWeekday(dates[i], first);
    }
    forall d | start <= d <= end && Weekday(d) == idx ensures exists i :: 0 <= i < |r| && r[i].0.date == d {
      SameWeekday(d, first);
      assert d in dates;
      var i :| 0 <= i < |dates| && dates[i] == d;
      assert r[i].0.date == d;
    }
  }

  /**
   * A successful `start_stop_iter` recurs on the weekday its slot string names, with the
   * two times read from it.
   */
  lemma OccurrencesFacts<T>(start: int, end: int, timeStr: string, parse: string -> Option<T>)
    requires Occurrences(start, end, timeStr, parse).Ok?
    ensures var parts := Split(timeStr, '@');
      var times := Split(parts[1], '-');
      var idx := NormalizeDayOfWeek(parts[0]).value;
      && |parts| == 2 && |times| == 2 && idx < 7 && Occurs(parts[0], DAYS[idx])
      && parse(times[0]).Some? && parse(times[1]).Some?
      && Occurrences(start, end, timeStr, parse).value ==
         Combine(WeeklyDates(FirstOnOrAfter(start, idx), end), parse(times[0]).value, parse(times[1]).value)
  {
    DayOfWeekCases(Split(timeStr, '@')[0]);
  }

  /** The event title `build_calendar` gives a slot's TA names. */
  function Title(tas: seq<string>): string {
    TITLE_PREFIX + Join(Sort(Caps(Sort(tas))), ", ")
  }

  /**
   * The title lists the capitalized names, each once per occurrence, in order; sorting
   * before capitalizing changes nothing.
   */
  lemma TitleShape(tas: seq<string>)
    ensures Title(tas) == TITLE_PREFIX + Join(Sort(Caps(tas)), ", ")
    ensures Ordered(Sort(Caps(tas))) && multiset(Sort(Caps(tas))) == multiset(Caps(tas))
  {
    SortFacts(tas);
    MapPermutation(Capitalize, Sort(tas), tas);
    SortOrderFree(Caps(Sort(tas)), Caps(tas));
    SortFacts(Caps(tas));
  }

  /** The title depends only on which names a slot has, not on their order. */
  lemma TitleOrderFree(a: seq<string>, b: seq<string>)
    requires multiset(a) == multiset(b)
    ensures Title(a) == Title(b)
  {
    SortOrderFree(a, b);
  }

  /** `ics.Event(name=..., begin=..., end=...)`. */
  datatype Event<T> = Event(name: string, begin: Moment<T>, end: Moment<T>)

  /** The events `start_stop_iter_event` makes of the pairs. */
  function EventsOf<T>(name: string, pairs: seq<(Moment<T>, Moment<T>)>): seq<Event<T>> {
    seq(|pairs|, i requires 0 <= i < |pairs| => Event(name, pairs[i].0, pairs[i].1))
  }

  /** One slot of `oh_ta_dict.items()`: its slot string and its TA names. */
  type Entry = (string, seq<string>)

  /** What the recurrence of a slot string gives. */
  type Recurrence<T> = string -> Result<seq<(Moment<T>, Moment<T>)>, CalendarError>

  /** `start_stop_iter` between two dates, as a function of the slot string. */
  function Between<T>(start: int, end: int, parse: string -> Option<T>): Recurrence<T> {
    s => Occurrences(start, end, s, parse)
  }

  /**
   * The calendar's events after the first `n` slots, or the error of the first slot whose
   * recurrence fails. Every `ics.Event` has its own uid, so none is merged with another:
   * the calendar is a multiset.
   */
  function CalendarOf<T(==)>(d: seq<Entry>, n: nat, recur: Recurrence<T>): Result<multiset<Event<T>>, CalendarError>
    requires n <= |d|
  {
    if n == 0 then Ok(multiset{})
    else
      match CalendarOf(d, n - 1, recur)
      case Err(e) => Err(e)
      case Ok(cal) =>
        match recur(d[n - 1].0)
        case Err(e) => Err(e)
        case Ok(pairs) => Ok(cal + multiset(EventsOf(Title(d[n - 1].1), pairs)))
  }

  lemma {:induction false} CalendarErrSticks<T>(d: seq<Entry>, n: nat, m: nat, recur: Recurrence<T>)
    requires n <= m <= |d| && CalendarOf(d, n, recur).Err?
    ensures CalendarOf(d, m, recur) == CalendarOf(d, n, recur)
    decreases m - n
  {
    if n < m {
      CalendarErrSticks(d, n + 1, m, recur);
    }
  }

  /** `cal.events.add(event)` for every event of one slot. */
  method AddEvents<T(==)>(cal: multiset<Event<T>>, name: string, pairs: seq<(Moment<T>, Moment<T>)>)
    returns (r: multiset<Event<T>>)
    ensures r == cal + multiset(EventsOf(name, pairs))
  {
    r := cal;
    var j := 0;
    while j < |pairs|
      invariant 0 <= j <= |pairs|
      invariant r == cal + multiset(EventsOf(name, pairs[..j]))
    {
      assert EventsOf(name, pairs[..j + 1]) == EventsOf(name, pairs[..j]) + [Event(name, pairs[j].0, pairs[j].1)];
      r := r + multiset{Event(name, pairs[j].0, pairs[j].1)};
      j := j + 1;
    }
    assert pairs[..j] == pairs;
  }

  /** `recur` is the recurrence between `start` and `end`. */
  ghost predicate Recurs<T>(recur: Recurrence<T>, start: int, end: int, parse: string -> Option<T>) {
    forall s {:trigger Occurrences(start, end, s, parse)} :: recur(s) == Occurrences(start, end, s, parse)
  }

  /** One pass of the slot loop: the title, the recurrence, and its events added. */
  method AddSlotEvents<T(==)>(d: seq<Entry>, i: nat, cal: multiset<Event<T>>, start: int, end: int,
                              parse: string -> Option<T>, ghost recur: Recurrence<T>)
    returns (r: Result<multiset<Event<T>>, CalendarError>)
    requires i < |d| && Recurs(recur, start, end, parse) && CalendarOf(d, i, recur) == Ok(cal)
    ensures r == CalendarOf(d, i + 1, recur)
  {
    var (oh, tas) := d[i];
    var name := Title(tas);
    var pairs := StartStopIter(start, end, oh, parse);
    assert pairs == recur(d[i].0);
    if pairs.Err? {
      return Err(pairs.error);
    }
    var added := AddEvents(cal, name, pairs.value);
    return Ok(added);
  }

  /** The slot loop of `build_calendar`, against any `recur` that is the recurrence. */
  method BuildLoop<T(==)>(d: seq<Entry>, start: int, end: int, parse: string -> Option<T>, ghost recur: Recurrence<T>)
    returns (r: Result<multiset<Event<T>>, CalendarError>)
    requires Recurs(recur, start, end, parse)
    ensures r == CalendarOf(d, |d|, recur)
  {
    var cal: multiset<Event<T>> := multiset{};
    var i := 0;
    while i < |d|
      invariant 0 <= i <= |d|
      invariant CalendarOf(d, i, recur) == Ok(cal)
    {
      var step := AddSlotEvents(d, i, cal, start, end, parse, recur);
      if step.Err? {
        CalendarErrSticks(d, i + 1, |d|, recur);
        return step;
      }
      cal := step.value;
      i := i + 1;
    }
    return Ok(cal);
  }

  /**
   * `build_calendar(oh_ta_dict, date_start, date_end)`: for every slot in order, its title
   * and the events of its recurrence; the first slot that fails ends the build.
   */
  method BuildCalendar<T(==)>(d: seq<Entry>, start: int, end: int, parse: string -> Option<T>)
    returns (r: Result<multiset<Event<T>>, CalendarError>)
    ensures r == CalendarOf(d, |d|, Between(start, end, parse))
  {
    r := BuildLoop(d, start, end, parse, Between(start, end, parse));
  }

  /** The build succeeds exactly when every slot's recurrence does. */
  lemma {:induction false} CalendarOutcome<T>(d: seq<Entry>, n: nat, recur: Recurrence<T>)
    requires n <= |d|
    ensures CalendarOf(d, n, recur).Ok? <==> forall i :: 0 <= i < n ==> recur(d[i].0).Ok?
  {
    if n > 0 {
      CalendarOutcome(d, n - 1, recur);
    }
  }

  /** A failed build reports the error of the first slot that fails. */
  lemma {:induction false} CalendarFirstError<T>(d: seq<Entry>, n: nat, recur: Recurrence<T>)
    requires n <= |d| && CalendarOf(d, n, recur).Err?
    ensures exists i ::
      && 0 <= i < n
      && recur(d[i].0) == Err(CalendarOf(d, n, recur).error)
      && forall j :: 0 <= j < i ==> recur(d[j].0).Ok?
  {
    if CalendarOf(d, n - 1, recur).Err? {
      CalendarFirstError(d, n - 1, recur);
    } else {
      CalendarOutcome(d, n - 1, recur);
      assert recur(d[n - 1].0) == Err(CalendarOf(d, n, recur).error);
    }
  }

  /**
   * A built calendar holds, for every slot and every pair its recurrence yields, an event
   * with the slot's title and that pair's times, and nothing else.
   */
  lemma {:induction false} CalendarMembers<T>(d: seq<Entry>, n: nat, recur: Recurrence<T>)
    requires n <= |d| && CalendarOf(d, n, recur).Ok?
    ensures forall i :: 0 <= i < n ==> recur(d[i].0).Ok?
    ensures forall ev :: ev in CalendarOf(d, n, recur).value <==>
      exists i :: 0 <= i < n && ev in EventsOf(Title(d[i].1), recur(d[i].0).value)
  {
    CalendarOutcome(d, n, recur);
    if n > 0 {
      CalendarMembers(d, n - 1, recur);
      CalendarMembersStep(d, n, recur, CalendarOf(d, n - 1, recur).value);
    }
  }

  lemma CalendarMembersStep<T>(d: seq<Entry>, n: nat, recur: Recurrence<T>, before: multiset<Event<T>>)
    requires 0 < n <= |d| && CalendarOf(d, n - 1, recur) == Ok(before) && CalendarOf(d, n, recur).Ok?
    requires forall i :: 0 <= i < n ==> recur(d[i].0).Ok?
    requires forall ev :: ev in before <==>
      exists i :: 0 <= i < n - 1 && ev in EventsOf(Title(d[i].1), recur(d[i].0).value)
    ensures forall ev :: ev in CalendarOf(d, n, recur).value <==>
      exists i :: 0 <= i < n && ev in EventsOf(Title(d[i].1), recur(d[i].0).value)
  {
    var added := EventsOf(Title(d[n - 1].1), recur(d[n - 1].0).value);
    assert CalendarOf(d, n, recur).value == before + multiset(added);
    forall ev | exists i :: 0 <= i < n && ev in EventsOf(Title(d[i].1), recur(d[i].0).value)
      ensures ev in CalendarOf(d, n, recur).value
    {
      var i :| 0 <= i < n && ev in EventsOf(Title(d[i].1), recur(d[i].0).value);
      if i < n - 1 {
        assert ev in before;
      } else {
        assert ev in multiset(added);
      }
    }
  }
}
