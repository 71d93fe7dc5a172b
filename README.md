# oh_sched in Dafny

oh_sched assigns teaching assistants (TAs) to office-hour (OH) slots. This project models
the parts of it that make decisions:

- the round-based capacitated matcher `match` (oh_sched/match.py), with the optimal
  assignment solver as a parameter;
- the scoring helpers `get_scale` and `get_perc_max` (oh_sched/match.py);
- the calendar logic of oh_sched/calendr.py: the day of week of a slot string, the weekly
  recurrence of a slot between two dates, and the event titles and event loop of
  `build_calendar`.

Modules:

| module | file | contents |
|---|---|---|
| `Wrappers` | wrappers.dfy | `Option`, `Result` |
| `Seqs` | seqs.dfy | `Distinct`, `InRange`, `Picks`, `Flatten` and their facts |
| `MatchSpec` | match_spec.dfy | the matcher as functions: working copy, expansion, round, run |
| `MatchLemmas` | match_lemmas.dfy | expansion and recording facts; the run invariant `Inv` |
| `MatchTheorems` | match_theorems.dfy | what a run returns: `Assigned` on success, each error's cause |
| `MatchExamples` | match_examples.dfy | a run of `match` that places one TA in one slot twice |
| `MatchMethod` | match_method.dfy | the matcher as methods over an `array` of slot lists |
| `Scaling` | scaling.dfy | `get_scale` |
| `Scoring` | scoring.dfy | `get_perc_max` |
| `Text` | text.dfy | ASCII case, `capitalize`, string order, sort, join, split |
| `Calendar` | calendr.dfy | day of week, weekly recurrence, titles, calendar |

## The matcher

The matcher works on a working copy of the preference matrix. In that copy an unavailable
cell (NaN) is `INVALID = -1`. It keeps one list per slot index and the lists are appended to
in place, as the source does. `MatchSpec.Run` is the reference definition, one round at a
time. `MatchMethod.Match` is proved equal to it. The main theorem is
`MatchTheorems.MatchOutcome`. On success the result is `Assigned`:

- there is one list per TA row;
- no list holds more than `max_ta_per_oh` entries;
- every TA occurs exactly `oh_per_ta` times across all lists;
- every entry is a TA row placed on a slot whose original preference was an available score
  other than -1.

Each error is tied to its cause.

The aliasing of `_oh_ta_match` is modelled by a tag sequence. Entry `j` of the tags is the slot
index whose list column `j` of the expanded matrix stands for.

The code and its docstring disagree in one place, and the model follows the code: the
docstring promises one list per office-hour slot (match.py:24), but the result is sized by
the number of TAs (match.py:32). Only slots `0 .. num_ta - 1` are considered. A free place
in a slot index at or past `num_oh` is the `IndexError` of match.py:44: `SlotOutOfRange`.

Two further behaviours of the code are worth noting:

- A run never under-assigns on success. When no free place is left anywhere, `np.stack` of
  an empty list fails (match.py:46): `EmptyCapacity`. `MatchTheorems.MatchAvailable` shows
  that, with every cell available and `1 <= num_ta <= num_oh`, a run succeeds exactly when
  `oh_per_ta <= max_ta_per_oh`.
- There is no decay, noise or invalidation of a matched pair, so a TA may land in the same
  slot in two rounds. `MatchExamples.RepeatedPlacement` gives such a run: one TA, two
  slots, two rounds and two places per slot give the list `[0, 0]` for slot 0.

`MatchMethod.Match` has the defaults of the source, `oh_per_ta = 3` and
`max_ta_per_oh = 4`.

The caller's preferences are a value (`seq`), so the working copy cannot change them.

## Scoring

In `get_perc_max`, line 84 rebinds `ta_list` to the current slot's occupants. Line 87 then
looks each TA up in that list instead of in the TA list. The model makes the lookup a
parameter, `RowLookup`:

- `SlotPosition`, the lookup as written;
- `TaListPosition`, the one the computation evidently means.

The properties that hold either way are proved for both. The ratio bound is proved for
`TaListPosition`, and a concrete input shows it failing for `SlotPosition` (see Findings).
The bound needs three conditions on its inputs: preferences are non-negative
(`NonNegative`), no two table items share a slot name (`DistinctSlots`) and no slot lists a
TA twice (`NoRepeats`). `match` does not guarantee the last one, and
`Scoring.RepeatedPlacementRatioAboveOne` shows a TA listed twice in one slot getting ratio
4/3 even with the TA-list lookup.

## Model

| member | source | states |
|---|---|---|
| MatchSpec.SolverContract | oh_sched/match.py:49-50 | defined by its body: for every rectangular matrix the solver returns `min(rows, cols)` pairs with distinct in-range rows and distinct in-range columns; it stands for `linear_sum_assignment`, whose optimality is not used |
| MatchSpec.WorkingCopy | oh_sched/match.py:27-28 | the working copy has the shape of the preferences and holds `Cell` of each preference |
| MatchSpec.Cell | oh_sched/match.py:10-28 | a working cell is INVALID exactly when the preference is unavailable or is the score -1, and is the score otherwise |
| MatchSpec.EmptyLists | oh_sched/match.py:32 | the initial state is `num_ta` empty lists |
| MatchSpec.Spots | oh_sched/match.py:41-43 | defined by its body: the free places of a slot, `max_ta_per_oh - len(list)` or 0; `MatchLemmas.ExpansionCounts` gives each slot that many columns |
| MatchSpec.Column | oh_sched/match.py:44 | the column has one entry per TA row, entry t being working cell (t, s) |
| MatchSpec.Columns | oh_sched/match.py:44 | one column per tag, column j being the working column of slot tag j |
| MatchSpec.Stack | oh_sched/match.py:46 | `np.stack(..., axis=1)`: a rows x columns grid whose cell (t, j) is entry t of column j |
| MatchSpec.Expanded | oh_sched/match.py:44-46 | the stacked matrix is rows x columns, and its cell (t, j) is working cell (t, tag j) |
| MatchSpec.ExpansionInRange | oh_sched/match.py:40-45 | every tag of a successful expansion is a considered slot index below `num_oh` |
| MatchSpec.Round | oh_sched/match.py:38-56 | a successful round keeps one list per slot index |
| MatchSpec.Expansion | oh_sched/match.py:40-45 | defined by its body: the slot index of each free place, or the first slot out of range |
| MatchSpec.Record | oh_sched/match.py:53-56 | defined by its body: each matched pair appends its TA row to its slot's list, or the first INVALID cell is the error |
| MatchSpec.MatchRun | oh_sched/match.py:13-58 | defined by its body: `oh_per_ta` rounds from empty lists on the working copy |
| MatchSpec.Run | oh_sched/match.py:34 | a successful run keeps one list per slot index |
| MatchLemmas.ExpansionCounts | oh_sched/match.py:40-45 | slot s gets exactly `max(0, cap - len(list s))` columns; the expansion's width is the total of the free places |
| MatchLemmas.ExpansionFails | oh_sched/match.py:40-45 | expansion succeeds iff every slot with a free place is below `num_oh`; on failure the error names the first such slot |
| MatchLemmas.ExpansionErrSticks | oh_sched/match.py:40-45 | once the column scan raises, later slots do not change the error |
| MatchLemmas.RecordGrows | oh_sched/match.py:53-56 | recording appends to each slot list once per matched column of that slot and keeps the old entries as a prefix |
| MatchLemmas.RecordAdds | oh_sched/match.py:53-56 | recording adds exactly the matched TA rows to the multiset of all entries |
| MatchLemmas.RecordValid | oh_sched/match.py:54-56 | every entry recorded is a TA row on a slot whose working cell is not INVALID |
| MatchLemmas.RecordFails | oh_sched/match.py:53-55 | recording fails iff some matched cell is INVALID, with the error carrying the row of such a pair |
| MatchLemmas.RecordErrSticks | oh_sched/match.py:53-55 | the first INVALID match ends the recording, and later pairs do not change the error |
| MatchLemmas.RecordKeepsCapacity | oh_sched/match.py:41-56 | no slot list grows past `max_ta_per_oh`, because the solver uses each column once and a slot has one column per free place |
| MatchLemmas.RecordKeepsValid | oh_sched/match.py:53-56 | recording keeps every entry valid and only appends |
| MatchLemmas.CountsOnce | oh_sched/match.py:53-56 | a round that matches every TA row once raises each TA's total by exactly one |
| MatchLemmas.RoundKeeps | oh_sched/match.py:34-56 | a successful round after k rounds keeps the run invariant for k + 1 rounds: capacity, valid entries, each TA k + 1 times, old entries kept |
| MatchTheorems.RoundSlotError | oh_sched/match.py:44 | an out-of-range slot can only fail the first round, and only at slot `num_oh < num_ta` |
| MatchTheorems.RoundEmpty | oh_sched/match.py:46 | an empty expansion happens only with no TA rows or after `max_ta_per_oh` rounds |
| MatchTheorems.RoundNoAvailability | oh_sched/match.py:54-55 | a round that fails while recording names a TA row with an INVALID working cell |
| MatchTheorems.RoundOutcome | oh_sched/match.py:38-56 | each possible error of a round, against its cause |
| MatchTheorems.RoundAvailable | oh_sched/match.py:38-56 | with every cell available, `1 <= num_ta <= num_oh` and fewer than `max_ta_per_oh` rounds played, a round succeeds |
| MatchTheorems.RunErrSticks | oh_sched/match.py:34-55 | an error stops the run: later rounds return the same error |
| MatchTheorems.RunStep | oh_sched/match.py:34 | the invariant-or-cause outcome of k rounds carries over to k + 1 rounds |
| MatchTheorems.RunOutcome | oh_sched/match.py:34 | after any number of rounds, the lists satisfy the run invariant or the error has its cause |
| MatchTheorems.MatchOutcome | oh_sched/match.py:13-58 | on success the result is `Assigned`; SlotOutOfRange, EmptyCapacity and NoAvailability each hold only under their cause |
| MatchTheorems.MatchAssigned | oh_sched/match.py:13-58 | a successful run's lists are `Assigned` |
| MatchTheorems.InvAssigned | oh_sched/match.py:27-56 | the run invariant on the working copy gives `Assigned` on the caller's preferences |
| MatchTheorems.BlockedCell | oh_sched/match.py:27-28 | an INVALID working cell comes from an unavailable or -1 preference |
| MatchTheorems.MatchEmptyCapacity | oh_sched/match.py:46 | with at least one round and no TA rows or no capacity, the run fails with EmptyCapacity |
| MatchTheorems.MatchSlotOutOfRange | oh_sched/match.py:32-44 | with at least one round, capacity at least one and more TAs than slots, the run fails at slot `num_oh` |
| MatchExamples.RepeatedPlacement | oh_sched/match.py:34-56 | with one TA, two slots, two rounds and two places per slot, `match` puts the TA in slot 0 twice |
| MatchTheorems.MatchAvailable | oh_sched/match.py:13-58 | with all cells available and `1 <= num_ta <= num_oh`, success iff `oh_per_ta <= max_ta_per_oh`, else EmptyCapacity |
| MatchMethod.ExpandCapacity | oh_sched/match.py:38-46 | the loops build the expansion's tags and the matching working columns, or raise its error |
| MatchMethod.RecordMatches | oh_sched/match.py:53-56 | appending into the array of lists leaves them equal to `Record`, or returns its error |
| MatchMethod.PlayRound | oh_sched/match.py:38-56 | one round in place equals `Round` |
| MatchMethod.NextRound | oh_sched/match.py:34 | in-place lists equal to k rounds become k + 1 rounds, or the run's error |
| MatchMethod.RunStops | oh_sched/match.py:34-55 | an error at round k is the error of the whole run |
| MatchMethod.NewLists | oh_sched/match.py:32 | a fresh array of `num_ta` empty lists |
| MatchMethod.PlayRounds | oh_sched/match.py:34-56 | the round loop returns exactly `Run` for `oh_per_ta` rounds |
| MatchMethod.Match | oh_sched/match.py:13-58 | `match` returns `MatchRun`, and on success its lists are `Assigned` |
| Scaling.MatchingMembers | oh_sched/match.py:63-66 | the rules applied to a name are exactly those whose pattern is found in it |
| Scaling.MatchingStep | oh_sched/match.py:63-66 | one more rule adds itself to the applied rules exactly when it matches |
| Scaling.FactorStepHit | oh_sched/match.py:65-66 | a matching rule multiplies the name's factor by its multiplier |
| Scaling.FactorStepMiss | oh_sched/match.py:65 | a rule that does not match leaves the factor unchanged |
| Scaling.FactorNoMatch | oh_sched/match.py:62 | a name no rule matches keeps the factor 1 |
| Scaling.Factor | oh_sched/match.py:61-67 | defined by its body: the product of the multipliers of the matching rules |
| Scaling.GetScale | oh_sched/match.py:61-67 | one factor per name; factor i is the product, in rule order, of the multipliers of the rules matching name i |
| Scoring.IndexOfFacts | oh_sched/match.py:78-87 | `list.index` finds the first position holding the value, and fails exactly when it is absent |
| Scoring.Tally | oh_sched/match.py:73 | the counter's keys are the occupants and each count is the number of occurrences |
| Scoring.DedupFacts | oh_sched/match.py:77 | the counter's items visit each occupant once |
| Scoring.SortDescFacts | oh_sched/match.py:79 | the sorted row is descending and a permutation of the row |
| Scoring.InsertContents | oh_sched/match.py:79 | insertion adds one element to the multiset |
| Scoring.InsertDescending | oh_sched/match.py:79 | insertion keeps a row descending |
| Scoring.TopSum | oh_sched/match.py:79-80 | any sub-multiset of a descending row sums to at most its prefix of the same length |
| Scoring.MaxScore | oh_sched/match.py:79-80 | defined by its body: the sum of the `count` best scores of the row, or of all of them; `Scoring.MaxScoreBound` shows no `count` entries at distinct positions sum to more |
| Scoring.MaxScoreBound | oh_sched/match.py:79-80 | the max score for k slots is at least the sum of any k entries at distinct positions of the row |
| Scoring.MaxScoresValues | oh_sched/match.py:76-80 | the max dict has exactly the counted TAs, each with its row's best count-many scores |
| Scoring.MaxScoresFails | oh_sched/match.py:77-79 | the max loop succeeds iff every counted TA is in the TA list and has a row |
| Scoring.MaxScoresStops | oh_sched/match.py:78-79 | a TA missing from the TA list, or without a row, is the loop's error |
| Scoring.MaxScoresErrSticks | oh_sched/match.py:77-80 | the first failing lookup ends the max loop |
| Scoring.BestScores | oh_sched/match.py:76-80 | the max loop returns `MaxScores` |
| Scoring.RowOf | oh_sched/match.py:84-87 | defined by its body: `SlotPosition` looks the TA up in the slot's own occupant list, as the code does, and `TaListPosition` in the TA list, as intended; `Scoring.SlotPositionRatioAboveOne` and `Scoring.RatioAtMostOne` tell them apart |
| Scoring.AddSlotStep | oh_sched/match.py:86-88 | one occupant adds its row's entry in the slot's column, or its missing lookup is the error |
| Scoring.AddOccupants | oh_sched/match.py:86-88 | the inner loop returns `AddSlot` |
| Scoring.AchieveStep | oh_sched/match.py:84-88 | one table item adds its occupants in its slot's column, or its missing slot is the error |
| Scoring.AchievedScores | oh_sched/match.py:83-88 | the achieved-score loops return `Achieve` |
| Scoring.AddSlotKeys | oh_sched/match.py:86-88 | the achieved dict gains exactly the occupants of the slot |
| Scoring.AchieveKeys | oh_sched/match.py:83-88 | the achieved dict's keys are exactly the occupants, and every slot was found |
| Scoring.GetPercMax | oh_sched/match.py:70-94 | `get_perc_max` returns `PercMax` under either row lookup |
| Scoring.PercMaxKeys | oh_sched/match.py:73-94 | the ratio dict and the count dict both have exactly the occupants as keys; each count is the occurrence count, at least 1 |
| Scoring.SlotPositionRatioAboveOne | oh_sched/match.py:84-88 | as written, a TA alone in a slot is scored on row 0 and gets ratio 4.5 from non-negative preferences |
| Scoring.AddSlotTotal | oh_sched/match.py:86-88 | with the TA-list lookup, a slot adds to a TA's total its row's entry once per occurrence |
| Scoring.AchieveTotal | oh_sched/match.py:83-88 | with the TA-list lookup, a TA's achieved score is the sum of its row at the columns of its slots |
| Scoring.ColsCount | oh_sched/match.py:83-88 | the columns a TA is scored at number its occurrences |
| Scoring.ColsDistinct | oh_sched/match.py:83-88 | with distinct slot names and no repeated occupants, those columns are distinct |
| Scoring.AchievedWithinMax | oh_sched/match.py:80-88 | with the TA-list lookup, non-negative preferences, distinct slot names and no TA listed twice in a slot, achieved is between 0 and the max score |
| Scoring.RatioOfOne | oh_sched/match.py:91-92 | under the same three conditions, a TA's ratio is between 0 and 1 or is non-finite (max 0) |
| Scoring.RatioAtMostOne | oh_sched/match.py:70-94 | with the TA-list lookup, non-negative preferences, distinct slot names and no TA listed twice in a slot, every ratio is between 0 and 1 or is non-finite |
| Scoring.RepeatedPlacementRatioAboveOne | oh_sched/match.py:73-92 | with the TA-list lookup, slot "s0" listing "a" twice and prefs [[2, 1]] give achieved 4 against a max of 3, ratio 4/3 |
| Scoring.MaxScores | oh_sched/match.py:76-80 | defined by its body: each counted TA's best count-many scores, or the first failing lookup |
| Scoring.AddSlot | oh_sched/match.py:86-88 | defined by its body: the occupants of one slot add their entries in its column |
| Scoring.Achieve | oh_sched/match.py:83-88 | defined by its body: the achieved scores of every table item, or the first failing lookup |
| Scoring.Divide | oh_sched/match.py:91-92 | defined by its body: each achieved TA's score divided by its max, non-finite when the max is 0; `Scoring.RatioOfOne` bounds it |
| Scoring.PercMax | oh_sched/match.py:70-94 | defined by its body: the ratio of achieved to max per TA, with the counts |
| Text.CapitalizeCaseOnly | oh_sched/calendr.py:72 | capitalizing changes letter case only |
| Text.BelowTotal | oh_sched/calendr.py:72-73 | string order is total |
| Text.BelowAntisymmetric | oh_sched/calendr.py:72-73 | string order is antisymmetric |
| Text.BelowTransitive | oh_sched/calendr.py:72-73 | string order is transitive |
| Text.InsertPermutation | oh_sched/calendr.py:72-73 | insertion adds one name to the multiset |
| Text.InsertOrdered | oh_sched/calendr.py:72-73 | insertion keeps names sorted |
| Text.SortFacts | oh_sched/calendr.py:72-73 | `sorted` gives a sorted permutation |
| Text.OrderedUnique | oh_sched/calendr.py:72-73 | two sorted permutations of each other are equal |
| Text.SortOrderFree | oh_sched/calendr.py:72-73 | sorting depends only on the multiset of names |
| Text.MapPermutation | oh_sched/calendr.py:72 | mapping over permutations gives permutations |
| Text.Capitalize | oh_sched/calendr.py:72 | defined by its body: first character upper case, the rest lower case |
| Text.Sort | oh_sched/calendr.py:72-73 | defined by its body: insertion sort by code point |
| Text.Split | oh_sched/calendr.py:45-51 | defined by its body: the pieces between occurrences of the separator |
| Text.Join | oh_sched/calendr.py:72-73 | defined by its body: the pieces with the separator between them |
| Text.SplitJoin | oh_sched/calendr.py:45-51 | joining the pieces of a split with the separator gives back the string |
| Text.SplitPieces | oh_sched/calendr.py:45-51 | a split has one more piece than separators, and no piece holds the separator |
| Calendar.NormalizeDayOfWeek | oh_sched/calendr.py:8-19 | defined by its body: the index of the one day pattern found, or NoDay or NonUniqueDay |
| Calendar.Found | oh_sched/calendr.py:10-11 | defined by its body: whether each pattern occurs in the string; `Calendar.FoundFacts` is its partner |
| Calendar.FoundFacts | oh_sched/calendr.py:10-11 | the match list has one entry per pattern, true where the pattern occurs ignoring case |
| Calendar.CountNone | oh_sched/calendr.py:14 | no hit iff every entry is false |
| Calendar.CountOne | oh_sched/calendr.py:17-19 | with one hit the scan returns its position, and every other entry is false |
| Calendar.CountTwo | oh_sched/calendr.py:13 | two or more hits iff two distinct patterns occur |
| Calendar.DayOfWeekCases | oh_sched/calendr.py:8-19 | the result is a day index below 7 whose pattern alone occurs, or NoDay, or NonUniqueDay, each exactly under its condition |
| Calendar.TwoDaysExample | oh_sched/calendr.py:13 | "Mon/Wed" fails the uniqueness assertion |
| Calendar.OneDayExample | oh_sched/calendr.py:8-19 | "Thurs" is day 3 |
| Calendar.Weekday | oh_sched/calendr.py:47 | defined by its body: `date.weekday()` of a day ordinal, Monday 0 to Sunday 6 |
| Calendar.FirstOnOrAfter | oh_sched/calendr.py:47-48 | defined by its body: the date the aligning loop stops at; `Calendar.FirstOnOrAfterFacts` and `Calendar.AlignTo` are its partners |
| Calendar.FirstOnOrAfterFacts | oh_sched/calendr.py:47-48 | the aligned date is the first day on or after the start with the target weekday, fewer than 7 days on |
| Calendar.SameWeekday | oh_sched/calendr.py:47 | two days share a weekday iff they are a multiple of 7 apart |
| Calendar.AlignTo | oh_sched/calendr.py:47-48 | the day-by-day loop stops at the first day with the target weekday |
| Calendar.WeeklyCountBounds | oh_sched/calendr.py:55-59 | the number of weekly dates is the one that stops at the first date past the end |
| Calendar.WeeklyDates | oh_sched/calendr.py:55-59 | defined by its body: the dates the weekly loop visits; `Calendar.WeeklyDatesFacts` and `Calendar.Recur` are its partners |
| Calendar.WeeklyDatesFacts | oh_sched/calendr.py:55-59 | the dates start at the first date, are 7 apart, all on or before the end; the next is past it; they are every such date |
| Calendar.Recur | oh_sched/calendr.py:55-59 | the weekly loop yields each weekly date with the same two times |
| Calendar.Occurrences | oh_sched/calendr.py:39-59 | defined by its body: split the string, find the day, parse both times, yield the weekly pairs |
| Calendar.StartStopIter | oh_sched/calendr.py:39-59 | the generator yields `Occurrences` or stops with its error |
| Calendar.OccurrencesFormat | oh_sched/calendr.py:45-51 | unless the string has exactly one '@' the unpacking fails, and a success had one '@' and one '-' after it |
| Calendar.RecurrenceFacts | oh_sched/calendr.py:46-59 | every pair shares one date between start and end on the target weekday with the parsed times; dates are 7 apart; the first is within 7 days of the start; every such day is covered |
| Calendar.OccurrencesFacts | oh_sched/calendr.py:39-59 | a success means two parts, two times, a day found in the day part, both times parsed once, and the weekly pairs from the aligned date |
| Calendar.EventsOf | oh_sched/calendr.py:62-66 | defined by its body: `start_stop_iter_event` makes one event named `name` per pair, with the pair's begin and end; `Calendar.AddEvents` adds exactly these events |
| Calendar.Title | oh_sched/calendr.py:72-73 | defined by its body: the prefix and the sorted capitalized names joined by ", " |
| Calendar.TitleShape | oh_sched/calendr.py:72-73 | the title is the prefix and the sorted capitalized names joined by ", ", a sorted permutation of them |
| Calendar.TitleOrderFree | oh_sched/calendr.py:72-73 | the title depends only on the multiset of TA names |
| Calendar.CalendarErrSticks | oh_sched/calendr.py:71-78 | the first failing slot ends the calendar |
| Calendar.AddEvents | oh_sched/calendr.py:74-78 | adding a slot's events adds exactly the events of its pairs |
| Calendar.AddSlotEvents | oh_sched/calendr.py:72-78 | one slot's title and events extend the calendar by one item |
| Calendar.BuildLoop | oh_sched/calendr.py:71-78 | the loop over the slots returns `CalendarOf` |
| Calendar.CalendarOf | oh_sched/calendr.py:69-80 | defined by its body: every slot's titled events, or the first slot's error |
| Calendar.BuildCalendar | oh_sched/calendr.py:69-80 | `build_calendar` returns `CalendarOf` for the recurrence between the two dates |
| Calendar.CalendarOutcome | oh_sched/calendr.py:71-78 | the calendar is built iff every slot's recurrence succeeds |
| Calendar.CalendarFirstError | oh_sched/calendr.py:71-78 | a failed calendar carries the error of the first failing slot |
| Calendar.CalendarMembers | oh_sched/calendr.py:69-80 | a built calendar holds exactly the events of each slot, titled by its TAs |

## Left out

- The optimal assignment solver (scipy `linear_sum_assignment`, match.py:49-50) is a
  parameter. The model assumes only that it returns `min(rows, cols)` pairs whose rows are
  distinct and in range and whose columns are too. Its optimality is not stated or used.
- Decay, tie-breaking noise and invalidation of matched pairs do not exist in `match`, so they
  are not modelled. oh_sched/main.py (the script, with its stale call to `match`) and
  oh_sched/load.py (CSV reading through pandas) are not part of this model.
- The regular expression engine of `get_scale` (match.py:65) is the parameter `search`.
- The day patterns of `normalize_day_of_week` are literal, so they are searched as
  substrings ignoring case. Case folding is ASCII only, in `re.IGNORECASE` and in
  `str.capitalize` alike.
- `to_timedelta` (`strptime`) is the parameter `parse`, and `pd.to_datetime` is left out:
  dates are day ordinals (day 1 is Monday 1 January of year 1). `ics.Event` is a value, and
  `ics.Calendar` is a multiset of events, because every event has its own identifier.
- Scaling.GetScale: factors are exact products in rule order. Floating-point rounding is
  not modelled.
- Scoring.RatioAtMostOne: preferences are exact reals and never NaN. A max score of 0 gives
  the non-finite ratio that NumPy's float division returns, instead of a value.
- Scoring.RatioAtMostOne: requires `DistinctSlots`, `NoRepeats` and `NonNegative`. Without
  them the bound is false: a repeated slot name or a TA listed twice in a slot scores a column
  more often than the max counts it, and `match` can list a TA twice
  (`MatchExamples.RepeatedPlacement`, `Scoring.RepeatedPlacementRatioAboveOne`).
- Scoring.RatioOfOne: requires `DistinctSlots`, `NoRepeats` and `NonNegative`, for the same
  reason.
- Scoring.AchievedWithinMax: requires `DistinctSlots`, `NoRepeats` and `NonNegative`, for the
  same reason; negative preferences also break the lower bound 0.
- MatchTheorems.RoundNoAvailability: the solver contract leaves out that scipy returns the
  rows in increasing order. The TA named is therefore some matched row with an INVALID
  cell, not necessarily the lowest such row as in the source.
- Scoring.Insert and Text.Insert are two insertion sorts, each on its own element type and
  order (reals descending for `sorted(reverse=True)`, strings ascending by code point).
- Dates are unbounded day ordinals. Python's `date` stops at 9999-12-31, and the day and week
  steps of `start_stop_iter` (calendr.py:48, 59) raise `OverflowError` past it. The model
  yields every pair there and never raises.
- MatchMethod.Match: `oh_per_ta` and `max_ta_per_oh` are `nat`. Python also accepts negative
  values, which act like 0: `range` of a negative count is empty, and a negative cap leaves
  no free places.
- Scaling.GetScale: `search` is total, so the `re.error` that a malformed pattern raises
  (match.py:65) is not modelled.
- Calendar.NormalizeDayOfWeek: under `python -O` the asserts vanish, and the aligning loop
  (calendr.py:47-48) never ends when no day is found. The model keeps the asserts and always
  returns NoDay or NonUniqueDay.
- Dictionaries are sequences in insertion order (`Table`) or maps.
- Generators are modelled as the whole sequence they yield. For `start_stop_iter` the
  errors happen before the first pair, as they do when `build_calendar` starts iterating.
- The `__main__` block of calendr.py.

## Findings

| source | as written | input that shows it | evidently intended | confidence | as-written member | corrected member |
|---|---|---|---|---|---|---|
| oh_sched/match.py:84-87 | the loop variable `ta_list` shadows the TA list, so `ta_list.index(ta)` gives the TA's position in the slot's own occupant list and the achieved score is read from that row | slot "s0" holding only "b", slots ["s0", "s1"], TAs ["a", "b"], prefs [[9, 0], [1, 2]]: "b" is scored on row 0 (9 achieved against a best of 2), ratio 4.5 | look the TA up in the TA list, so that each ratio is at most 1 for non-negative preferences, distinct slot names and no TA listed twice in a slot (a repeated placement, which `match` can produce, still exceeds 1) | not executed | Scoring.SlotPositionRatioAboveOne | Scoring.RatioAtMostOne |
