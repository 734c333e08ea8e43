/**
 * One tracked habit of the weekly habit tracker, as a value: its name, its
 * weekly target, the seven day flags of the open week and the two cumulative
 * counters. The progress engine (completed days, star rating, badge, target
 * met, end-of-week archival) and the single-day update of mark-progress are
 * pure functions over that value; the store that holds habits in place is in
 * module Tracker.
 */
module Habits {

  /** Capacity of the habit array. */
  const MAX_HABITS: int := 5
  /** Size of the name buffer, terminating NUL included. */
  const MAX_NAME: int := 40
  /** Length of a tracked week. */
  const WEEK_DAYS: int := 7
  /** Largest star rating a badge shows. */
  const MAX_STARS: int := 5

  /** A numeric answer read from the console: None when it did not parse. */
  datatype Option<T> = None | Some(value: T)

  /**
   * A habit record. `days[d]` is the flag of day d + 1 (1 = Monday); the
   * counters are cumulative over archived weeks.
   */
  datatype Habit = Habit(
    name: string,
    target: int,
    days: seq<int>,
    weeksTracked: int,
    weeksMetTarget: int)

  /** The fixed layout of a record: seven day slots and a name that fits the buffer. */
  predicate Shaped(h: Habit) {
    |h.days| == WEEK_DAYS && |h.name| < MAX_NAME
  }

  predicate IsFlag(x: int) {
    x == 0 || x == 1
  }

  predicate FlagsOk(days: seq<int>) {
    forall d :: 0 <= d < |days| ==> IsFlag(days[d])
  }

  /**
   * The record invariants every operation keeps: a target in [0,7], day
   * flags in {0,1} and no more weeks met than weeks tracked.
   */
  predicate HabitOk(h: Habit) {
    && Shaped(h)
    && 0 <= h.target <= WEEK_DAYS
    && FlagsOk(h.days)
    && 0 <= h.weeksMetTarget <= h.weeksTracked
  }

  /** The flags of a week with nothing done. */
  function EmptyWeek(): seq<int> {
    seq(WEEK_DAYS, _ => 0)
  }

  // ---------------------------------------------------------------------
  // Completed days

  /** Sum of the day values, accumulated from the first day to the last. */
  function Sum(s: seq<int>): int {
    if s == [] then 0 else Sum(s[..|s| - 1]) + s[|s| - 1]
  }

  /** The week's completed-day count: the day values added up. */
  function Completed(h: Habit): int {
    Sum(h.days)
  }

  /** On 0/1 flags the sum is the number of days done, so it lies in [0, |days|]. */
  lemma {:induction false} SumOfFlags(s: seq<int>)
    requires FlagsOk(s)
    ensures Sum(s) == multiset(s)[1]
    ensures 0 <= Sum(s) <= |s|
  {
    if s != [] {
      var init := s[..|s| - 1];
      SumOfFlags(init);
      assert s == init + [s[|s| - 1]];
      assert multiset(s) == multiset(init) + multiset{s[|s| - 1]};
    }
  }

  /** All seven days done is exactly the full count; none done is exactly zero. */
  lemma {:induction false} SumOfFlagsExtremes(s: seq<int>)
    requires FlagsOk(s)
    ensures Sum(s) == |s| <==> forall d :: 0 <= d < |s| ==> s[d] == 1
    ensures Sum(s) == 0 <==> forall d :: 0 <= d < |s| ==> s[d] == 0
  {
    if s != [] {
      var init := s[..|s| - 1];
      SumOfFlagsExtremes(init);
      SumOfFlags(init);
      assert forall d :: 0 <= d < |init| ==> init[d] == s[d];
    }
  }

  /** Rewriting one day changes the sum by the difference of the two values. */
  lemma {:induction false} SumUpdate(s: seq<int>, i: int, x: int)
    requires 0 <= i < |s|
    ensures Sum(s[i := x]) == Sum(s) - s[i] + x
  {
    var n := |s| - 1;
    if i == n {
      assert s[i := x][..n] == s[..n];
    } else {
      SumUpdate(s[..n], i, x);
      assert s[i := x][..n] == s[..n][i := x];
    }
  }

  // ---------------------------------------------------------------------
  // Star rating and badge

  /** C's integer division, which truncates toward zero. */
  function TruncDiv(a: int, b: int): int
    requires b > 0
  {
    if a >= 0 then a / b else -((-a) / b)
  }

  /** C's conversion of a floating-point value to int, which truncates toward zero. */
  function TruncToInt(x: real): int {
    if x >= 0.0 then x.Floor else -((-x).Floor)
  }

  /**
   * The star rating of a week with `completed` days done. The source rounds
   * percent / 20 by adding one half and truncating, then caps at five; with
   * percent = completed / 7 * 100 that value is exactly (10 * completed + 7) / 14.
   */
  function Stars(completed: int): int {
    var raw := TruncDiv(10 * completed + 7, 14);
    if raw > MAX_STARS then MAX_STARS else raw
  }

  /** The star rating the source derives from the exact value of its percent expression. */
  function StarsFromPercent(completed: int): int {
    var percent := (completed as real / 7.0) * 100.0;
    var raw := TruncToInt(percent / 20.0 + 0.5);
    if raw > MAX_STARS then MAX_STARS else raw
  }

  /** Number of '*' the badge shows: one marker for zero stars, else one per star. */
  function BadgeWidth(stars: int): int {
    if stars == 0 then 1 else if stars > 0 then stars else 0
  }

  /** The integer formula is the exact value of the source's percent-based rounding. */
  lemma StarsMatchPercent(completed: int)
    ensures Stars(completed) == StarsFromPercent(completed)
  {
  }

  /** The rating of each possible week: 0,1,1,2,3,4,4,5 stars for 0..7 days. */
  lemma StarsTable()
    ensures Stars(0) == 0 && Stars(1) == 1 && Stars(2) == 1 && Stars(3) == 2
    ensures Stars(4) == 3 && Stars(5) == 4 && Stars(6) == 4 && Stars(7) == 5
  {
  }

  /** Any non-negative count rates between zero and five stars. */
  lemma StarsBounded(completed: int)
    requires completed >= 0
    ensures 0 <= Stars(completed) <= MAX_STARS
  {
  }

  /** More completed days never lower the rating. */
  lemma StarsMonotone(a: int, b: int)
    requires a <= b
    ensures Stars(a) <= Stars(b)
  {
  }

  /**
   * A week with a non-negative count always shows between one and five
   * markers: exactly one at zero stars, otherwise one per star.
   */
  lemma BadgeNeverEmpty(completed: int)
    requires completed >= 0
    ensures 1 <= BadgeWidth(Stars(completed)) <= MAX_STARS
    ensures Stars(completed) == 0 ==> BadgeWidth(Stars(completed)) == 1
    ensures Stars(completed) > 0 ==> BadgeWidth(Stars(completed)) == Stars(completed)
  {
    StarsBounded(completed);
  }

  // ---------------------------------------------------------------------
  // Target and weekly report

  /** The week meets the target when at least `target` days were completed. */
  predicate TargetMet(h: Habit) {
    Completed(h) >= h.target
  }

  /** What the weekly report shows of one habit (percent left out). */
  datatype Summary = Summary(
    name: string,
    target: int,
    completed: int,
    stars: int,
    badge: int,
    met: bool,
    weeksTracked: int,
    weeksMetTarget: int)

  function Summarize(h: Habit): Summary {
    var completed := Completed(h);
    var stars := Stars(completed);
    Summary(h.name, h.target, completed, stars, BadgeWidth(stars),
            completed >= h.target, h.weeksTracked, h.weeksMetTarget)
  }

  /** On a well-formed habit every reported figure lies in its documented range. */
  lemma SummaryInRange(h: Habit)
    requires HabitOk(h)
    ensures var s := Summarize(h);
      && 0 <= s.completed <= WEEK_DAYS
      && 0 <= s.stars <= MAX_STARS
      && 1 <= s.badge <= MAX_STARS
      && (s.met <==> TargetMet(h))
      && (s.completed == WEEK_DAYS ==> s.met && s.stars == MAX_STARS)
      && s.weeksMetTarget <= s.weeksTracked
  {
    SumOfFlags(h.days);
    BadgeNeverEmpty(Completed(h));
    StarsTable();
  }

  /** A target of zero is met by every week, even one with nothing done. */
  lemma ZeroTargetAlwaysMet(h: Habit)
    requires HabitOk(h) && h.target == 0
    ensures TargetMet(h)
  {
    SumOfFlags(h.days);
  }

  // ---------------------------------------------------------------------
  // Adding a habit

  /** The target clamped into [0,7]: the nearest point of that range. */
  function ClampTarget(t: int): (r: int)
    ensures 0 <= r <= WEEK_DAYS
    ensures forall y :: 0 <= y <= WEEK_DAYS ==> Dist(r, t) <= Dist(y, t)
  {
    if t < 0 then 0 else if t > WEEK_DAYS then WEEK_DAYS else t
  }

  function Dist(a: int, b: int): nat {
    if a <= b then b - a else a - b
  }

  /**
   * The name that a line of console input yields: at most `room` characters
   * are read, reading stops after a newline, and the stored string ends at the
   * first newline or NUL.
   */
  function EnteredName(line: string, room: nat): (name: string)
    ensures |name| <= room
    ensures name <= line
    ensures forall i :: 0 <= i < |name| ==> name[i] != '\n' && name[i] != '\0'
    ensures |name| < room && |name| < |line| ==> line[|name|] == '\n' || line[|name|] == '\0'
  {
    if room == 0 || line == [] || line[0] == '\n' || line[0] == '\0' then []
    else [line[0]] + EnteredName(line[1..], room - 1)
  }

  /** A freshly added habit: clamped target, an empty week and zero counters. */
  function NewHabit(name: string, target: int): Habit {
    Habit(name, ClampTarget(target), EmptyWeek(), 0, 0)
  }

  /** A new habit satisfies the record invariants and starts with nothing done. */
  lemma NewHabitOk(name: string, target: int)
    requires |name| < MAX_NAME
    ensures HabitOk(NewHabit(name, target))
    ensures Completed(NewHabit(name, target)) == 0
    ensures 0 <= target <= WEEK_DAYS ==> NewHabit(name, target).target == target
  {
    SumOfFlagsExtremes(EmptyWeek());
  }

  // ---------------------------------------------------------------------
  // Marking a day

  /** The habit with day `day` (1-based) set to 1 if `done`, else to 0. */
  function SetDay(h: Habit, day: int, done: bool): Habit
    requires Shaped(h) && 1 <= day <= WEEK_DAYS
  {
    h.(days := h.days[day - 1 := if done then 1 else 0])
  }

  /** Marking keeps the record invariants and only the chosen day changes. */
  lemma SetDayOk(h: Habit, day: int, done: bool)
    requires HabitOk(h) && 1 <= day <= WEEK_DAYS
    ensures var h' := SetDay(h, day, done);
      && HabitOk(h')
      && h'.name == h.name && h'.target == h.target
      && h'.weeksTracked == h.weeksTracked && h'.weeksMetTarget == h.weeksMetTarget
      && h'.days[day - 1] == (if done then 1 else 0)
      && (forall d :: 0 <= d < WEEK_DAYS && d != day - 1 ==> h'.days[d] == h.days[d])
  {
  }

  /** Repeating the same mark has no further effect. */
  lemma SetDayIdempotent(h: Habit, day: int, done: bool)
    requires Shaped(h) && 1 <= day <= WEEK_DAYS
    ensures SetDay(SetDay(h, day, done), day, done) == SetDay(h, day, done)
  {
  }

  /**
   * Marking a day done adds one completed day unless it was already done;
   * so it never lowers the completed count, the rating or the target status.
   */
  lemma MarkDoneNeverLowers(h: Habit, day: int)
    requires HabitOk(h) && 1 <= day <= WEEK_DAYS
    ensures Completed(SetDay(h, day, true)) == Completed(h) + (1 - h.days[day - 1])
    ensures Stars(Completed(h)) <= Stars(Completed(SetDay(h, day, true)))
    ensures TargetMet(h) ==> TargetMet(SetDay(h, day, true))
  {
    SumUpdate(h.days, day - 1, 1);
    StarsMonotone(Completed(h), Completed(SetDay(h, day, true)));
  }

  // ---------------------------------------------------------------------
  // End-of-week archival

  /**
   * The habit after the week is archived: one more week tracked, one more
   * week met exactly when the target was met, and an empty week.
   */
  function Archive(h: Habit): Habit {
    Habit(h.name, h.target, EmptyWeek(),
          h.weeksTracked + 1,
          h.weeksMetTarget + (if TargetMet(h) then 1 else 0))
  }

  /** Archival keeps the record invariants, in particular met <= tracked. */
  lemma ArchiveOk(h: Habit)
    requires HabitOk(h)
    ensures HabitOk(Archive(h))
    ensures Completed(Archive(h)) == 0
    ensures Archive(h).weeksTracked - Archive(h).weeksMetTarget
         == h.weeksTracked - h.weeksMetTarget + (if TargetMet(h) then 0 else 1)
  {
    SumOfFlagsExtremes(EmptyWeek());
  }

  /**
   * Archiving twice counts two weeks; the second, empty week is met only when
   * the target is zero.
   */
  lemma ArchiveTwice(h: Habit)
    requires HabitOk(h)
    ensures Archive(Archive(h)).weeksTracked == h.weeksTracked + 2
    ensures Archive(Archive(h)).weeksMetTarget
         == Archive(h).weeksMetTarget + (if h.target == 0 then 1 else 0)
    ensures Archive(Archive(h)).days == EmptyWeek()
  {
    SumOfFlagsExtremes(EmptyWeek());
  }

  /**
   * Example week: "Exercise" with target 5, days 1, 3 and 5 done, gives three
   * completed days, two stars, target not met; archiving counts the week as
   * tracked but not met and empties it.
   */
  lemma ExerciseWeek()
    ensures var h := SetDay(SetDay(SetDay(NewHabit("Exercise", 5), 1, true), 3, true), 5, true);
      && Completed(h) == 3 && Stars(Completed(h)) == 2 && !TargetMet(h)
      && Archive(h).weeksTracked == 1 && Archive(h).weeksMetTarget == 0
      && Archive(h).days == EmptyWeek()
  {
    var h := SetDay(SetDay(SetDay(NewHabit("Exercise", 5), 1, true), 3, true), 5, true);
    assert h.days == [1, 0, 1, 0, 1, 0, 0];
    SumOfFlags(h.days);
    assert multiset(h.days)[1] == 3;
  }
}
