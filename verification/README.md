# Habit tracker — a verified model of its habit store and progress engine

The habit tracker is a terminal program. A user registers up to five habits, each with a
weekly target of 0–7 days. The user marks days 1–7 of the current week as done or not done
and reads a weekly report. That report shows the completed-day count, a 0–5 star badge and
whether the target was met. "Reset week" archives the week into two cumulative counters
(weeks tracked, weeks the target was met) and clears the days.

The model has two modules:

- `Habits` (`habit.dfy`): a habit record as a value, plus the pure progress engine.
  - The record is a name, a target, seven day values and two counters.
  - Completed days are the day values added up.
  - The star rating, the badge width, target met, the single-day update of mark-progress
    and end-of-week archival are all functions.
  - `HabitOk` collects the record invariants: target in [0,7], day flags in {0,1} and
    0 ≤ weeks met ≤ weeks tracked. The lemmas state what the report and the
    archival promise.
- `Tracker` (`tracker.dfy`): the store, a class `HabitStore`.
  - It holds an `array<Habit>` of `MAX_HABITS` = 5 slots and a separate `count`. Records
    are copied into slots by value, as C structs are.
  - `Add`, `Mark` and `ResetWeek` update the array in place. Each one states the whole new
    array in terms of the old one, the error it reports for each rejected input, and that
    it preserves `WellFormed()` (every habit in use satisfies `HabitOk`).
  - `Report` and `ResetWeek` add up the days with a loop, `CountCompleted`, proved equal to
    `Sum`.
  - The module also holds the count-clamping rule applied when the data file is loaded.

Console answers are method parameters. A number that `scanf` could not parse is `None` and
rejects the command with `InvalidInput`, leaving the store unchanged. The name is given as
the raw console line. `EnteredName` models what `fgets` and the newline stripping keep of
that line: at most 39 characters, ending at the first newline or NUL.

Further points about the program that the model follows:
- The completed count adds up the stored day values. On 0/1 flags this equals the number of
  days done (`SumOfFlags`).
- The name is cut at the first newline (or NUL) and is not otherwise trimmed.
- A successful add reports no index; it only reports success.
- Mark-progress rejects an empty store and an out-of-range habit index before it reads the
  day.

The star rating is computed in single-precision floats at `main.c:114-116`. The model uses
the exact integer form `(10 * completed + 7) / 14` with C's truncating division, capped at 5.
`StarsMatchPercent` proves this equals the exact real value of the source's expression. For
0–7 completed days the value (10c + 7)/14 is always at least 1/14 away from an integer, so the float
rounding cannot change the result.

## Model

| member | source | states |
|---|---|---|
| `Habits.SumOfFlags` | main.c:112-113 | on 0/1 day flags the completed count equals the number of days marked done, so it lies in [0,7] |
| `Habits.SumOfFlagsExtremes` | main.c:112-113 | on 0/1 flags the completed count is 7 exactly when every day is done and 0 exactly when none is |
| `Habits.SumUpdate` | main.c:102 | rewriting one day value changes the completed count by the difference between the new and the old value |
| `Habits.StarsMatchPercent` | main.c:114-116 | the integer star formula equals the source's truncated `percent / 20 + 0.5` capped at 5, for every completed count |
| `Habits.StarsTable` | main.c:114-116 | 0..7 completed days rate 0,1,1,2,3,4,4,5 stars |
| `Habits.StarsBounded` | main.c:115-116 | a non-negative completed count rates between 0 and 5 stars |
| `Habits.StarsMonotone` | main.c:115-116 | more completed days never give fewer stars |
| `Habits.BadgeNeverEmpty` | main.c:121-124 | the badge always shows between one and five markers: exactly one for zero stars, otherwise one per star |
| `Habits.SummaryInRange` | main.c:110-127 | for a well-formed habit the report shows completed in [0,7], stars in [0,5], a non-empty badge, met exactly when completed ≥ target, and a full week is met with five stars |
| `Habits.ZeroTargetAlwaysMet` | main.c:125 | a habit with target 0 meets its target even with no day done |
| `Habits.ClampTarget` | main.c:72-73 | the stored target is in [0,7] and is the point of [0,7] nearest to the typed target |
| `Habits.EnteredName` | main.c:66-68 | the stored name is a prefix of the input line of at most 39 characters, holds no newline or NUL, and stops only at the length limit, at a newline or NUL, or at the end of the input |
| `Habits.NewHabitOk` | main.c:72-77 | a new habit satisfies the record invariants, has nothing done, and keeps a target already in [0,7] |
| `Habits.SetDayOk` | main.c:102 | marking sets the chosen day to 1 or 0, leaves every other day, the name, the target and the counters unchanged, and keeps the record invariants |
| `Habits.SetDayIdempotent` | main.c:102 | repeating the same mark has no further effect |
| `Habits.MarkDoneNeverLowers` | main.c:102 | marking a day done adds one completed day unless it was already done, and never lowers the stars or un-meets the target |
| `Habits.ArchiveOk` | main.c:134-140 | archival keeps the record invariants (so weeks met ≤ weeks tracked), empties the week, and widens the gap between tracked and met weeks by one exactly when the target was missed |
| `Habits.ArchiveTwice` | main.c:134-140 | archiving twice counts two weeks tracked; the second, empty week counts as met only when the target is 0 |
| `Habits.ExerciseWeek` | main.c:102-140 | "Exercise" with target 5 and days 1, 3, 5 done has 3 completed days, 2 stars and the target not met; archiving gives 1 week tracked, 0 met and an empty week |
| `Tracker.LoadedCountAsWritten` | main.c:19-21 | the count kept at load time, as written, is never above MAX_HABITS and is 0 when the file or count cannot be read |
| `Tracker.NegativeCountSurvivesLoad` | main.c:21 | a stored count of -1 survives loading, so add_habit's full-check passes with a slot index outside the array |
| `Tracker.LoadedCount` | main.c:19-21 | the corrected load count always lies in [0, MAX_HABITS] and is the stored count whenever that is valid |
| `Tracker.LoadedCountFixOnlyNegative` | main.c:21 | the corrected and the as-written load counts differ only for a negative stored count |
| `Tracker.CountCompleted` | main.c:112-113 | the day-by-day accumulation loop computes the completed count `Sum(days)` |
| `Tracker.HabitStore.constructor` | main.c:146-147 | a store with no data starts with an empty, well-formed collection |
| `Tracker.HabitStore.Load` | main.c:17-24 | a loaded store holds the slots read from the file and the corrected clamped count (`LoadedCount`: a negative stored count loads as 0) |
| `Tracker.HabitStore.Add` | main.c:58-82 | a full store gives StoreFull, an empty name EmptyName and an unparsed target InvalidInput, each leaving everything unchanged; otherwise the new habit (clamped target, empty week, zero counters) is written at index old count, count grows by one, no other slot changes, and well-formedness is kept |
| `Tracker.HabitStore.Mark` | main.c:84-104 | an empty store, an unparsed answer, an index outside [1,count] or a day outside [1,7] gives the matching error and changes nothing; otherwise exactly `habits[idx-1].days[day-1]` becomes 1 if the answer is non-zero, else 0, and well-formedness is kept |
| `Tracker.HabitStore.Report` | main.c:106-130 | one summary per habit in use, in order, each with the completed count, stars, badge, target status and counters of that habit |
| `Tracker.HabitStore.ResetWeek` | main.c:132-143 | an empty store gives NoHabits; every habit in use is archived (tracked + 1, met + 1 exactly when completed ≥ target, days cleared, name and target kept), unused slots are untouched, and well-formedness is kept |

## Left out

- Record persistence (`main.c:17-32`) is not modelled. `load_data` and `save_data` dump and
  read raw structs, whose layout depends on the compiler's padding. `Load` takes the read
  slots as a parameter, and saving is not modelled. The save/load round trip is therefore
  not stated.
- `fopen`/`fread` failures are not modelled separately. They are folded into "no stored
  count" (`None`).
- All console output is left out: `print_header`, `print_menu`, the printing in
  `list_habits` and the `printf` lines of the report. `list_habits` only prints, so it has
  no counterpart.
- The `getchar` that discards the character left by the menu prompt is I/O and is left out.
- An `fgets` at end of input is not modelled. It leaves the name buffer uninitialised,
  which is undefined behaviour in the source.
- The floating-point `percent` and its `%.1f` display are left out, because they are
  floating point. The report carries the completed count from which it is derived.
- `Habits.StarsMatchPercent`: relates the star formula to the exact real value of the
  float expression, not to single-precision rounding. The two can differ only for
  completed counts far outside 0–7, which come only from corrupted data files.
- Tracker.HabitStore.Load: uses the corrected count `LoadedCount`, so a negative stored
  count loads as an empty store, where `main.c:21` keeps it negative. The as-written negative
  count leads to out-of-bounds accesses, which `Valid()` cannot represent; the discrepancy is
  stated by `LoadedCountAsWritten` and `NegativeCountSurvivesLoad` (see Findings).
- The `main` menu loop (`main.c:145-164`) is left out. It is dispatch over console input,
  and malformed input at the menu ends the process.
- 32-bit `int` overflow is not modelled: of the weeks counters after 2^31 archivals, of
  `scanf("%d")` on out-of-range numbers, and of the day sum for corrupted day values.
  Integers are unbounded in the model.
- Names are sequences of characters, not bytes. Multi-byte input counts one character per
  code point rather than one per byte against the 39-character limit.

## Findings

| source | as written | input that shows it | evidently intended | confidence | as-written member | corrected member |
|---|---|---|---|---|---|---|
| main.c:21 | only a stored count above MAX_HABITS is clamped; a negative count is kept, so `add_habit` passes its full-check and writes `habits[-1]` (and `fread` reads a huge record count into the five-slot array) | a `habits.dat` whose first four bytes encode -1 | the loaded count always lies in [0, MAX_HABITS] | high, not executed | `Tracker.LoadedCountAsWritten`, `Tracker.NegativeCountSurvivesLoad` | `Tracker.LoadedCount` |
