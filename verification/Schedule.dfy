/**
  Weekly routines.  The agent asks of one instant whether a routine blocks it;
  the server keeps the week as a list of intervals.  Both are related here to
  one reference meaning, the occurrences of a routine.
*/
module Schedule {
  import opened Calendar

  type Days = d: seq<bool> | |d| == 7 witness [false, false, false, false, false, false, false]

  /** A routine as the agent's policy engine sees it: times since local midnight. */
  datatype Routine = Routine(name: string, days: Days, start: int, end: int)

  /** A routine as both stores keep it: whole seconds, an identifier, a switch. */
  datatype StoredRoutine =
    StoredRoutine(id: string, name: string, days: Days, startSecond: int, endSecond: int, enabled: bool)

  predicate InDay(r: Routine) {
    0 <= r.start < DAY && 0 <= r.end < DAY
  }

  predicate StoredInDay(r: StoredRoutine) {
    0 <= r.startSecond < DAY_SECONDS && 0 <= r.endSecond < DAY_SECONDS
  }

  function ToPolicyRoutine(r: StoredRoutine): Routine {
    Routine(r.name, r.days, r.startSecond * SECOND, r.endSecond * SECOND)
  }

  // ---------------------------------------------------------------- meaning

  /** The occurrence that starts on a date runs from here ... */
  function OccurrenceStart(r: Routine, date: int): int {
    if r.start == r.end then date * DAY else date * DAY + r.start
  }

  /** ... to here, exclusive: the same day, or the next one for an overnight routine. */
  function OccurrenceEnd(r: Routine, date: int): int {
    if r.start == r.end then (date + 1) * DAY
    else if r.start < r.end then date * DAY + r.end
    else (date + 1) * DAY + r.end
  }

  predicate Occurs(r: Routine, date: int, t: int) {
    r.days[WeekdayOfDate(date)] && OccurrenceStart(r, date) <= t < OccurrenceEnd(r, date)
  }

  /** What the decision procedure tests, branch by branch. */
  predicate BlocksAt(r: Routine, now: int) {
    var today := r.days[Weekday(now)];
    if r.start == r.end then
      today
    else if r.start < r.end then
      today && AtLocalTime(now, r.start) <= now < AtLocalTime(now, r.end)
    else
      || (today && AtLocalTime(now, r.start) <= now)
      || (r.days[Weekday(AddDays(now, -1))] && now < AtLocalTime(now, r.end))
  }

  /** The test answers exactly whether some occurrence covers the instant. */
  lemma BlocksAtIsOccurrence(r: Routine, now: int)
    requires InDay(r)
    ensures BlocksAt(r, now) <==> exists date :: Occurs(r, date, now)
  {
    var today := DateOf(now);
    AddDaysKeepsTime(now, -1);
    if BlocksAt(r, now) {
      assert Occurs(r, today, now) || Occurs(r, today - 1, now);
    }
    if date :| Occurs(r, date, now) {
      assert date == today || date == today - 1;
    }
  }

  // -------------------------------------------------- the server's intervals

  datatype Interval = Interval(start: int, end: int)

  /** The pieces of the week that fall on one weekday. */
  function DayIntervals(r: StoredRoutine, day: nat): seq<Interval>
    requires day < 7
  {
    if r.startSecond == r.endSecond then
      if r.days[day] then [Interval(day * DAY_SECONDS, (day + 1) * DAY_SECONDS)] else []
    else if r.startSecond < r.endSecond then
      if r.days[day] then [Interval(day * DAY_SECONDS + r.startSecond, day * DAY_SECONDS + r.endSecond)] else []
    else
      (if r.days[(day + 6) % 7] && r.endSecond > 0
       then [Interval(day * DAY_SECONDS, day * DAY_SECONDS + r.endSecond)] else [])
      + (if r.days[day] then [Interval(day * DAY_SECONDS + r.startSecond, (day + 1) * DAY_SECONDS)] else [])
  }

  function IntervalsUpTo(r: StoredRoutine, days: nat): seq<Interval>
    requires days <= 7
  {
    if days == 0 then [] else IntervalsUpTo(r, days - 1) + DayIntervals(r, days - 1)
  }

  function Intervals(r: StoredRoutine): seq<Interval> {
    IntervalsUpTo(r, 7)
  }

  predicate Covers(i: Interval, weekTime: int) {
    i.start * SECOND <= weekTime < i.end * SECOND
  }

  lemma {:induction false} IntervalsByDay(r: StoredRoutine, days: nat, i: Interval)
    requires days <= 7
    ensures i in IntervalsUpTo(r, days) <==> exists day: nat :: day < days && i in DayIntervals(r, day)
  {
    hide DayIntervals;
    if days > 0 {
      IntervalsByDay(r, days - 1, i);
      if day: nat :| day < days && i in DayIntervals(r, day) {
        assert day == days - 1 || (day < days - 1 && i in DayIntervals(r, day));
      }
    }
  }

  lemma DayIntervalShape(r: StoredRoutine, day: nat, i: Interval)
    requires StoredInDay(r) && day < 7 && i in DayIntervals(r, day)
    ensures day * DAY_SECONDS <= i.start < i.end <= (day + 1) * DAY_SECONDS
  {
  }

  lemma IntervalShape(r: StoredRoutine, i: Interval)
    requires StoredInDay(r) && i in Intervals(r)
    ensures 0 <= i.start < i.end <= 7 * DAY_SECONDS
  {
    IntervalsByDay(r, 7, i);
    var day: nat :| day < 7 && i in DayIntervals(r, day);
    DayIntervalShape(r, day, i);
  }

  lemma {:induction false} DayIntervalsAgree(r: StoredRoutine, now: int)
    requires StoredInDay(r)
    ensures BlocksAt(ToPolicyRoutine(r), now)
       <==> exists i :: i in DayIntervals(r, Weekday(now)) && Covers(i, now % WEEK)
  {
    var p := ToPolicyRoutine(r);
    var day, tod := Weekday(now), TimeOfDay(now);
    WeekTime(now);
    AddDaysKeepsTime(now, -1);
    PreviousWeekday(DateOf(now));
    var early := Interval(day * DAY_SECONDS, day * DAY_SECONDS + r.endSecond);
    var late := Interval(day * DAY_SECONDS + r.startSecond, (day + 1) * DAY_SECONDS);
    var whole := Interval(day * DAY_SECONDS, (day + 1) * DAY_SECONDS);
    var inside := Interval(day * DAY_SECONDS + r.startSecond, day * DAY_SECONDS + r.endSecond);
    assert Covers(whole, now % WEEK);
    assert Covers(inside, now % WEEK) <==> p.start <= tod < p.end;
    assert Covers(early, now % WEEK) <==> tod < p.end;
    assert Covers(late, now % WEEK) <==> p.start <= tod;
    if BlocksAt(p, now) {
      if r.startSecond == r.endSecond {
        assert whole in DayIntervals(r, day);
      } else if r.startSecond < r.endSecond {
        assert inside in DayIntervals(r, day);
      } else if r.days[day] && p.start <= tod {
        assert late in DayIntervals(r, day);
      } else {
        assert early in DayIntervals(r, day);
      }
    }
  }

  /** An interval of the week belongs to the weekday it covers. */
  lemma CoveringDay(r: StoredRoutine, i: Interval, day: nat, tod: int)
    requires StoredInDay(r) && day < 7 && 0 <= tod < DAY
    requires Covers(i, day * DAY + tod)
    ensures i in Intervals(r) <==> i in DayIntervals(r, day)
  {
    hide DayIntervals;
    IntervalsByDay(r, 7, i);
    if i in Intervals(r) {
      var other: nat :| other < 7 && i in DayIntervals(r, other);
      DayIntervalShape(r, other, i);
      assert other == day;
    }
  }

  /** The two representations agree: a routine blocks an instant iff one of its
      week intervals covers the instant's place in the week. */
  lemma SchedulesAgree(r: StoredRoutine, now: int)
    requires StoredInDay(r)
    ensures BlocksAt(ToPolicyRoutine(r), now) <==> exists i :: i in Intervals(r) && Covers(i, now % WEEK)
  {
    DayIntervalsAgree(r, now);
    WeekTime(now);
    forall i | Covers(i, now % WEEK)
      ensures i in Intervals(r) <==> i in DayIntervals(r, Weekday(now))
    {
      CoveringDay(r, i, Weekday(now), TimeOfDay(now));
    }
  }

  // ---------------------------------------------------------------- overlap

  predicate IntervalsMeet(a: Interval, b: Interval) {
    a.start < b.end && b.start < a.end
  }

  predicate RoutinesOverlap(first: StoredRoutine, second: StoredRoutine) {
    exists a, b :: a in Intervals(first) && b in Intervals(second) && IntervalsMeet(a, b)
  }

  predicate SharesInstant(first: StoredRoutine, second: StoredRoutine, t: int) {
    BlocksAt(ToPolicyRoutine(first), t) && BlocksAt(ToPolicyRoutine(second), t)
  }

  lemma MeetingInstant(first: StoredRoutine, second: StoredRoutine, a: Interval, b: Interval) returns (t: int)
    requires StoredInDay(first) && StoredInDay(second)
    requires a in Intervals(first) && b in Intervals(second) && IntervalsMeet(a, b)
    ensures SharesInstant(first, second, t)
  {
    IntervalShape(first, a);
    IntervalShape(second, b);
    t := (if a.start < b.start then b.start else a.start) * SECOND;
    assert t % WEEK == t;
    assert Covers(a, t % WEEK) && Covers(b, t % WEEK);
    SchedulesAgree(first, t);
    SchedulesAgree(second, t);
  }

  lemma SharedInstantMeets(first: StoredRoutine, second: StoredRoutine, t: int)
    requires StoredInDay(first) && StoredInDay(second) && SharesInstant(first, second, t)
    ensures RoutinesOverlap(first, second)
  {
    hide BlocksAt, Intervals;
    SchedulesAgree(first, t);
    SchedulesAgree(second, t);
    var a :| a in Intervals(first) && Covers(a, t % WEEK);
    var b :| b in Intervals(second) && Covers(b, t % WEEK);
    assert IntervalsMeet(a, b);
  }

  /** The server's interval search finds a conflict iff the agent would, at some
      instant, see both routines active. */
  lemma OverlapIffSharedInstant(first: StoredRoutine, second: StoredRoutine)
    requires StoredInDay(first) && StoredInDay(second)
    ensures RoutinesOverlap(first, second) <==> exists t :: SharesInstant(first, second, t)
  {
    hide Intervals, SharesInstant, IntervalsMeet;
    if RoutinesOverlap(first, second) {
      var a, b :| a in Intervals(first) && b in Intervals(second) && IntervalsMeet(a, b);
      var t := MeetingInstant(first, second, a, b);
    }
    if t :| SharesInstant(first, second, t) {
      SharedInstantMeets(first, second, t);
    }
  }

  /** The loop that lists a routine's week. */
  method RoutineIntervals(r: StoredRoutine) returns (intervals: seq<Interval>)
    ensures intervals == Intervals(r)
  {
    intervals := [];
    for day := 0 to 7
      invariant intervals == IntervalsUpTo(r, day)
    {
      ghost var before := intervals;
      var previousDay := (day + 6) % 7;
      if r.startSecond == r.endSecond {
        if r.days[day] {
          intervals := intervals + [Interval(day * DAY_SECONDS, (day + 1) * DAY_SECONDS)];
        }
      } else if r.startSecond < r.endSecond {
        if r.days[day] {
          intervals := intervals + [Interval(day * DAY_SECONDS + r.startSecond, day * DAY_SECONDS + r.endSecond)];
        }
      } else {
        ghost var morning: seq<Interval> := [];
        ghost var evening: seq<Interval> := [];
        if r.days[previousDay] && r.endSecond > 0 {
          morning := [Interval(day * DAY_SECONDS, day * DAY_SECONDS + r.endSecond)];
          intervals := intervals + [Interval(day * DAY_SECONDS, day * DAY_SECONDS + r.endSecond)];
        }
        assert intervals == before + morning;
        if r.days[day] {
          evening := [Interval(day * DAY_SECONDS + r.startSecond, (day + 1) * DAY_SECONDS)];
          intervals := intervals + [Interval(day * DAY_SECONDS + r.startSecond, (day + 1) * DAY_SECONDS)];
        }
        assert intervals == before + (morning + evening);
        assert DayIntervals(r, day) == morning + evening;
      }
      assert intervals == before + DayIntervals(r, day);
    }
  }

  /** The nested search for two intervals that meet. */
  method FindOverlap(first: StoredRoutine, second: StoredRoutine) returns (overlap: bool)
    requires StoredInDay(first) && StoredInDay(second)
    ensures overlap == RoutinesOverlap(first, second)
    ensures overlap <==> exists t :: SharesInstant(first, second, t)
  {
    OverlapIffSharedInstant(first, second);
    var left := RoutineIntervals(first);
    var right := RoutineIntervals(second);
    for i := 0 to |left|
      invariant forall a, b :: a in left[..i] && b in right ==> !IntervalsMeet(a, b)
    {
      for j := 0 to |right|
        invariant forall b :: b in right[..j] ==> !IntervalsMeet(left[i], b)
      {
        if IntervalsMeet(left[i], right[j]) {
          return true;
        }
      }
    }
    return false;
  }
}
