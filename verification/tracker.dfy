/**
 * The habit store of the tracker: a fixed array of MAX_HABITS habit records
 * and a separate count of the records in use, updated in place by the
 * add, mark-progress and reset-week commands and read by the weekly report.
 * Console answers are parameters: a number that did not parse is `None`.
 */
module Tracker {
  import opened Habits

  /** Why a command left the store unchanged. */
  datatype Error =
    | StoreFull     // add on a full store
    | EmptyName     // add with an empty name
    | InvalidInput  // a number did not parse
    | NoHabits      // mark or reset on an empty store
    | InvalidIndex  // habit index outside [1, count]
    | InvalidDay    // day outside [1, 7]

  datatype Outcome = Ok | Err(error: Error)

  // ---------------------------------------------------------------------
  // The stored count accepted at load time

  /**
   * The count load_data keeps, as written: 0 when the file or its count
   * cannot be read, the stored count capped at MAX_HABITS otherwise. A
   * negative stored count passes through.
   */
  function LoadedCountAsWritten(header: Option<int>): (n: int)
    ensures n <= MAX_HABITS
    ensures header.None? ==> n == 0
    ensures header.Some? && header.value <= MAX_HABITS ==> n == header.value
  {
    match header
    case None => 0
    case Some(c) => if c > MAX_HABITS then MAX_HABITS else c
  }

  /**
   * A stored count of -1 survives loading; add_habit's full check then passes
   * and the new record would be written at index -1, outside the array.
   */
  lemma NegativeCountSurvivesLoad()
    ensures LoadedCountAsWritten(Some(-1)) == -1
    ensures LoadedCountAsWritten(Some(-1)) < MAX_HABITS
    ensures !(0 <= LoadedCountAsWritten(Some(-1)) < MAX_HABITS)
  {
  }

  /**
   * The count load keeps, with a negative stored count read as an empty
   * store: always a valid count, and the stored one whenever that is valid.
   */
  function LoadedCount(header: Option<int>): (n: int)
    ensures 0 <= n <= MAX_HABITS
    ensures header.Some? && 0 <= header.value <= MAX_HABITS ==> n == header.value
    ensures header.Some? && header.value > MAX_HABITS ==> n == MAX_HABITS
    ensures header.None? ==> n == 0
  {
    match header
    case None => 0
    case Some(c) => if c < 0 then 0 else if c > MAX_HABITS then MAX_HABITS else c
  }

  /** The correction changes the loaded count only for a negative stored count. */
  lemma LoadedCountFixOnlyNegative(header: Option<int>)
    ensures header.Some? && header.value < 0 ==> LoadedCount(header) == 0 != LoadedCountAsWritten(header)
    ensures !(header.Some? && header.value < 0) ==> LoadedCount(header) == LoadedCountAsWritten(header)
  {
  }

  // ---------------------------------------------------------------------
  // Completed days, as the report and the reset compute them

  /** Adds up the seven day values from day 1 to day 7. */
  method CountCompleted(days: seq<int>) returns (completed: int)
    requires |days| == WEEK_DAYS
    ensures completed == Sum(days)
  {
    completed := 0;
    for d := 0 to WEEK_DAYS
      invariant completed == Sum(days[..d])
    {
      assert days[..d + 1][..d] == days[..d];
      completed := completed + days[d];
    }
    assert days[..WEEK_DAYS] == days;
  }

  // ---------------------------------------------------------------------
  // The store

  class HabitStore {
    var habits: array<Habit>
    var count: int

    /** Layout: a MAX_HABITS array, a count in range, shaped records in use. */
    ghost predicate Valid()
      reads this, habits
    {
      && habits.Length == MAX_HABITS
      && 0 <= count <= MAX_HABITS
      && forall i :: 0 <= i < count ==> Shaped(habits[i])
    }

    /** The habits in use, in insertion order. */
    ghost function Contents(): seq<Habit>
      reads this, habits
      requires Valid()
    {
      habits[..count]
    }

    /** Every habit in use keeps the record invariants. */
    ghost predicate WellFormed()
      reads this, habits
      requires Valid()
    {
      forall i :: 0 <= i < count ==> HabitOk(habits[i])
    }

    /** The store when no data file can be read. */
    constructor ()
      ensures Valid() && WellFormed() && fresh(habits)
      ensures count == 0 && Contents() == []
    {
      habits := new Habit[MAX_HABITS];
      count := 0;
    }

    /**
     * The store loaded from a data file: `header` is the stored count (None
     * when the file or the count cannot be read), `records` the array slots
     * as read from the file.
     */
    constructor Load(header: Option<int>, records: seq<Habit>)
      requires |records| == MAX_HABITS
      requires forall i :: 0 <= i < |records| ==> Shaped(records[i])
      ensures Valid() && fresh(habits)
      ensures count == LoadedCount(header)
      ensures habits[..] == records
    {
      habits := new Habit[MAX_HABITS](i requires 0 <= i < MAX_HABITS => records[i]);
      count := LoadedCount(header);
    }

    /**
     * The add command: `line` is the console line holding the name, `target`
     * the weekly target typed after it. Appends a fresh habit with the target
     * clamped into [0,7] unless the store is full, the name is empty or the
     * target did not parse, checked in that order.
     */
    method Add(line: string, target: Option<int>) returns (r: Outcome)
      requires Valid()
      modifies this`count, habits
      ensures Valid()
      ensures old(count) >= MAX_HABITS ==> r == Err(StoreFull)
      ensures old(count) < MAX_HABITS && EnteredName(line, MAX_NAME - 1) == []
        ==> r == Err(EmptyName)
      ensures old(count) < MAX_HABITS && EnteredName(line, MAX_NAME - 1) != [] && target.None?
        ==> r == Err(InvalidInput)
      ensures old(count) < MAX_HABITS && EnteredName(line, MAX_NAME - 1) != [] && target.Some?
        ==> r == Ok
      ensures r.Err? ==> count == old(count) && habits[..] == old(habits[..])
      ensures r.Ok? ==> && count == old(count) + 1
                        && habits[..] == old(habits[..])[old(count) := NewHabit(EnteredName(line, MAX_NAME - 1), target.value)]
                        && Contents() == old(Contents()) + [NewHabit(EnteredName(line, MAX_NAME - 1), target.value)]
      ensures old(WellFormed()) ==> WellFormed()
    {
      if count >= MAX_HABITS {
        return Err(StoreFull);
      }
      var name := EnteredName(line, MAX_NAME - 1);
      if |name| == 0 {
        return Err(EmptyName);
      }
      if target.None? {
        return Err(InvalidInput);
      }
      var h := NewHabit(name, target.value);
      NewHabitOk(name, target.value);
      habits[count] := h;
      count := count + 1;
      r := Ok;
      assert Contents() == old(Contents()) + [h];
    }

    /**
     * The mark-progress command: `idx` the 1-based habit index, `day` the
     * day number 1..7, `val` the answer (non-zero = done). Each answer is
     * checked as soon as it is read; on success only that day of that habit
     * changes.
     */
    method Mark(idx: Option<int>, day: Option<int>, val: Option<int>) returns (r: Outcome)
      requires Valid()
      modifies habits
      ensures Valid()
      ensures count == 0 ==> r == Err(NoHabits)
      ensures count > 0 && idx.None? ==> r == Err(InvalidInput)
      ensures count > 0 && idx.Some? && !(1 <= idx.value <= count) ==> r == Err(InvalidIndex)
      ensures count > 0 && idx.Some? && 1 <= idx.value <= count && day.None?
        ==> r == Err(InvalidInput)
      ensures count > 0 && idx.Some? && 1 <= idx.value <= count && day.Some? && !(1 <= day.value <= WEEK_DAYS)
        ==> r == Err(InvalidDay)
      ensures count > 0 && idx.Some? && 1 <= idx.value <= count && day.Some? && 1 <= day.value <= WEEK_DAYS && val.None?
        ==> r == Err(InvalidInput)
      ensures r.Ok? <==> idx.Some? && 1 <= idx.value <= count && day.Some? && 1 <= day.value <= WEEK_DAYS && val.Some?
      ensures r.Err? ==> habits[..] == old(habits[..])
      ensures r.Ok? ==> habits[..] == old(habits[..])[idx.value - 1 := SetDay(old(habits[idx.value - 1]), day.value, val.value != 0)]
      ensures old(WellFormed()) ==> WellFormed()
    {
      if count == 0 {
        return Err(NoHabits);
      }
      if idx.None? {
        return Err(InvalidInput);
      }
      var i := idx.value;
      if i < 1 || i > count {
        return Err(InvalidIndex);
      }
      if day.None? {
        return Err(InvalidInput);
      }
      var d := day.value;
      if d < 1 || d > WEEK_DAYS {
        return Err(InvalidDay);
      }
      if val.None? {
        return Err(InvalidInput);
      }
      var h := habits[i - 1];
      habits[i - 1] := SetDay(h, d, val.value != 0);
      r := Ok;
      if old(WellFormed()) {
        SetDayOk(h, d, val.value != 0);
      }
    }

    /**
     * The weekly report: one summary per habit in use, in order, with the
     * completed days added up day by day.
     */
    method Report() returns (lines: seq<Summary>)
      requires Valid()
      ensures |lines| == count
      ensures forall i :: 0 <= i < count ==> lines[i] == Summarize(habits[i])
    {
      lines := [];
      for i := 0 to count
        invariant |lines| == i
        invariant forall k :: 0 <= k < i ==> lines[k] == Summarize(habits[k])
      {
        var h := habits[i];
        var completed := CountCompleted(h.days);
        var stars := Stars(completed);
        var badge := BadgeWidth(stars);
        lines := lines + [Summary(h.name, h.target, completed, stars, badge,
                                  completed >= h.target, h.weeksTracked, h.weeksMetTarget)];
      }
    }

    /**
     * The reset-week command: archives every habit in use (one more week
     * tracked, one more week met when the target was met, all days cleared)
     * and leaves the unused slots alone.
     */
    method ResetWeek() returns (r: Outcome)
      requires Valid()
      modifies habits
      ensures Valid()
      ensures r == (if count == 0 then Err(NoHabits) else Ok)
      ensures forall i :: 0 <= i < count ==> habits[i] == Archive(old(habits[i]))
      ensures forall i :: count <= i < habits.Length ==> habits[i] == old(habits[i])
      ensures old(WellFormed()) ==> WellFormed()
    {
      if count == 0 {
        return Err(NoHabits);
      }
      for i := 0 to count
        invariant forall k :: 0 <= k < i ==> habits[k] == Archive(old(habits[k]))
        invariant forall k :: i <= k < habits.Length ==> habits[k] == old(habits[k])
        invariant Valid()
      {
        var h := habits[i];
        var completed := CountCompleted(h.days);
        var met := h.weeksMetTarget + (if completed >= h.target then 1 else 0);
        var days := h.days;
        for d := 0 to WEEK_DAYS
          invariant |days| == WEEK_DAYS
          invariant forall k :: 0 <= k < d ==> days[k] == 0
        {
          days := days[d := 0];
        }
        assert days == EmptyWeek();
        habits[i] := Habit(h.name, h.target, days, h.weeksTracked + 1, met);
      }
      r := Ok;
      if old(WellFormed()) {
        forall i | 0 <= i < count
          ensures HabitOk(habits[i])
        {
          ArchiveOk(old(habits[i]));
        }
      }
    }
  }
}
