/**
  Local time in a zone of fixed offset.  An instant is a number of nanoseconds
  since the midnight that opens some Sunday, so that weekday 0 is Sunday.
*/
module Calendar {
  const SECOND: int := 1_000_000_000
  const MINUTE: int := 60 * SECOND
  const HOUR: int := 60 * MINUTE
  const DAY: int := 86_400 * SECOND
  const WEEK: int := 7 * DAY
  const DAY_SECONDS: int := 86_400

  /** The calendar date of an instant, as a number of days. */
  function DateOf(t: int): int {
    t / DAY
  }

  function WeekdayOfDate(date: int): (w: nat)
    ensures w < 7
  {
    date % 7
  }

  function Weekday(t: int): (w: nat)
    ensures w < 7
  {
    WeekdayOfDate(DateOf(t))
  }

  function TimeOfDay(t: int): (r: int)
    ensures 0 <= r < DAY
    ensures DateOf(t) * DAY + r == t
  {
    t % DAY
  }

  function Midnight(t: int): (m: int)
    ensures m <= t < m + DAY
  {
    DateOf(t) * DAY
  }

  /** The instant of the date of `day` that lies `sinceMidnight` into it. */
  function AtLocalTime(day: int, sinceMidnight: int): int {
    DateOf(day) * DAY + sinceMidnight
  }

  /** AddDate(0, 0, days) in a zone without clock changes. */
  function AddDays(t: int, days: int): int {
    t + days * DAY
  }

  /** time.Duration divided by whole seconds, for a duration that is not negative. */
  function WholeSeconds(duration: nat): (s: nat)
    ensures s * SECOND <= duration < (s + 1) * SECOND
  {
    duration / SECOND
  }

  lemma DateAndTime(date: int, tod: int)
    requires 0 <= tod < DAY
    ensures DateOf(date * DAY + tod) == date && TimeOfDay(date * DAY + tod) == tod
  {
  }

  lemma AddDaysKeepsTime(t: int, days: int)
    ensures DateOf(AddDays(t, days)) == DateOf(t) + days
    ensures TimeOfDay(AddDays(t, days)) == TimeOfDay(t)
  {
    assert AddDays(t, days) == (DateOf(t) + days) * DAY + TimeOfDay(t);
    DateAndTime(DateOf(t) + days, TimeOfDay(t));
  }

  /** Where an instant lies in its week. */
  lemma WeekTime(t: int)
    ensures t % WEEK == Weekday(t) * DAY + TimeOfDay(t)
  {
    var d, r := DateOf(t), TimeOfDay(t);
    var week := d / 7;
    assert t == week * WEEK + (d % 7 * DAY + r);
    assert 0 <= d % 7 * DAY + r < WEEK;
  }

  lemma PreviousWeekday(date: int)
    ensures WeekdayOfDate(date - 1) == (WeekdayOfDate(date) + 6) % 7
  {
  }
}
