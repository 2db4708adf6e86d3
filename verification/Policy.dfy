/**
  The decision procedure: precedence of the rules, the remaining time and the
  next block that can be predicted.
*/
module Policy {
  import opened Wrappers
  import opened Calendar
  import opened Schedule

  datatype Monitoring = Active | Paused

  datatype Reason =
    | Allowed
    | MonitoringPaused
    | ManualBlock
    | RoutineActive
    | QuotaExhausted
    | AwaitingSynchronization

  type WeeklyQuota = q: seq<int> | |q| == 7 witness [0, 0, 0, 0, 0, 0, 0]

  /** Everything a decision depends on; durations are nanoseconds. */
  datatype Input = Input(
    now: int,
    monitoring: Monitoring,
    manualBlock: bool,
    quota: WeeklyQuota,
    consumed: int,
    bonus: int,
    routines: seq<Routine>)

  datatype Decision = Decision(
    allowed: bool,
    reason: Reason,
    remaining: int,
    shouldCount: bool,
    activeRoutine: Option<string>,
    nextBlockAt: Option<int>,
    nextBlockReason: Option<Reason>)

  datatype InputError = NegativeUsage | NegativeQuota | RoutineOutsideDay

  // ------------------------------------------------------- routine look-ups

  /** The routine the list order selects: the first one that blocks. */
  function FirstBlocking(now: int, routines: seq<Routine>): (found: Option<nat>)
    ensures found.Some? ==>
      && found.value < |routines| && BlocksAt(routines[found.value], now)
      && forall k :: 0 <= k < found.value ==> !BlocksAt(routines[k], now)
    ensures found.None? ==> forall k :: 0 <= k < |routines| ==> !BlocksAt(routines[k], now)
  {
    if routines == [] then None
    else if BlocksAt(routines[0], now) then Some(0)
    else match FirstBlocking(now, routines[1..])
      case None => None
      case Some(k) => Some(k + 1)
  }

  predicate Blocked(now: int, routines: seq<Routine>) {
    exists k :: 0 <= k < |routines| && BlocksAt(routines[k], now)
  }

  method ActiveRoutine(now: int, routines: seq<Routine>) returns (found: Option<nat>)
    ensures found == FirstBlocking(now, routines)
  {
    for k := 0 to |routines|
      invariant forall i :: 0 <= i < k ==> !BlocksAt(routines[i], now)
    {
      var routine := routines[k];
      var startToday := AtLocalTime(now, routine.start);
      if routine.start == routine.end {
        if routine.days[Weekday(now)] {
          return Some(k);
        }
        continue;
      }
      if routine.start < routine.end {
        if routine.days[Weekday(now)] && now >= startToday && now < AtLocalTime(now, routine.end) {
          return Some(k);
        }
        continue;
      }
      if routine.days[Weekday(now)] && now >= startToday {
        return Some(k);
      }
      var previousDay := Weekday(AddDays(now, -1));
      if routine.days[previousDay] && now < AtLocalTime(now, routine.end) {
        return Some(k);
      }
    }
    return None;
  }

  /** A routine of the list starts at this instant. */
  predicate StartsAt(r: Routine, t: int) {
    r.days[Weekday(t)] && TimeOfDay(t) == r.start
  }

  ghost predicate AnyStartsAt(routines: seq<Routine>, t: int) {
    exists r :: r in routines && StartsAt(r, t)
  }

  predicate SelectsADay(routines: seq<Routine>) {
    exists r :: r in routines && exists d: nat :: d < 7 && r.days[d]
  }

  /** The least start strictly after `now`, over the whole future. */
  ghost predicate IsNextStart(now: int, routines: seq<Routine>, t: int) {
    && now < t
    && AnyStartsAt(routines, t)
    && forall u :: now < u && AnyStartsAt(routines, u) ==> t <= u
  }

  ghost function NextStart(now: int, routines: seq<Routine>): (next: Option<int>) {
    if t :| IsNextStart(now, routines, t) then Some(t) else None
  }

  lemma NextStartUnique(now: int, routines: seq<Routine>, t: int)
    requires IsNextStart(now, routines, t)
    ensures NextStart(now, routines) == Some(t)
  {
    var u := NextStart(now, routines).value;
    assert IsNextStart(now, routines, u);
  }

  /** The candidate an offset and a routine contribute to the eight-day scan. */
  predicate Candidate(now: int, offset: int, r: Routine, t: int) {
    && r.days[Weekday(AddDays(now, offset))]
    && t == AtLocalTime(AddDays(now, offset), r.start)
    && now < t
  }

  /** Every later start has a start of the same routine within the scanned eight
      days that is no later: this is why the scan may stop. */
  lemma {:induction false} EightDaysSuffice(now: int, r: Routine, u: int) returns (offset: nat, t: int)
    requires InDay(r) && now < u && StartsAt(r, u)
    ensures offset <= 7 && Candidate(now, offset, r, t) && t <= u
  {
    var gap := DateOf(u) - DateOf(now);
    var weeks;
    offset, weeks := WithinEightDays(gap);
    t := AtLocalTime(AddDays(now, offset), r.start);
    AddDaysKeepsTime(now, offset);
    WeeksLater(DateOf(now) + offset, weeks);
    assert t == (DateOf(now) + offset) * DAY + r.start && u == DateOf(u) * DAY + r.start;
  }

  /** As many days ahead, a whole number of weeks earlier, within the scan. */
  lemma {:induction false} WithinEightDays(gap: nat) returns (offset: nat, weeks: nat)
    ensures gap == offset + 7 * weeks && offset <= 7 && (offset == gap || offset > 0)
  {
    offset := if gap <= 7 then gap else if gap % 7 == 0 then 7 else gap % 7;
    weeks := (gap - offset) / 7;
  }

  lemma WeeksLater(date: int, weeks: nat)
    ensures WeekdayOfDate(date + 7 * weeks) == WeekdayOfDate(date)
  {
  }

  lemma CandidateStarts(now: int, offset: nat, r: Routine, t: int)
    requires InDay(r) && Candidate(now, offset, r, t)
    ensures StartsAt(r, t)
  {
    AddDaysKeepsTime(now, offset);
    DateAndTime(DateOf(AddDays(now, offset)), r.start);
  }

  /** A routine that selects a day has a start within the next eight days. */
  lemma SelectedDayStarts(now: int, r: Routine, d: nat) returns (u: int)
    requires InDay(r) && d < 7 && r.days[d]
    ensures now < u && StartsAt(r, u)
  {
    var ahead := (d + 7 - Weekday(now)) % 7;
    var date := DateOf(now) + ahead + 7;
    assert WeekdayOfDate(date) == d;
    u := date * DAY + r.start;
    DateAndTime(date, r.start);
  }

  method NextRoutineStart(now: int, routines: seq<Routine>) returns (next: Option<int>)
    requires forall r :: r in routines ==> InDay(r)
    ensures next == NextStart(now, routines)
    ensures next.Some? ==> IsNextStart(now, routines, next.value)
    ensures next.None? <==> !SelectsADay(routines)
  {
    next := None;
    for offset := 0 to 8
      invariant next.Some? ==> now < next.value && AnyStartsAt(routines, next.value)
      invariant forall o: nat, r, t | o < offset && r in routines && Candidate(now, o, r, t) ::
                    next.Some? && next.value <= t
    {
      var day := AddDays(now, offset);
      for k := 0 to |routines|
        invariant next.Some? ==> now < next.value && AnyStartsAt(routines, next.value)
        invariant forall o: nat, r, t | o < offset && r in routines && Candidate(now, o, r, t) ::
                      next.Some? && next.value <= t
        invariant forall r, t | r in routines[..k] && Candidate(now, offset, r, t) ::
                      next.Some? && next.value <= t
      {
        var routine := routines[k];
        if !routine.days[Weekday(day)] {
          continue;
        }
        var candidate := AtLocalTime(day, routine.start);
        if candidate <= now {
          continue;
        }
        CandidateStarts(now, offset, routine, candidate);
        if next.None? || candidate < next.value {
          next := Some(candidate);
        }
      }
    }
    forall u | now < u && AnyStartsAt(routines, u)
      ensures next.Some? && next.value <= u
    {
      var r :| r in routines && StartsAt(r, u);
      var o, t := EightDaysSuffice(now, r, u);
    }
    if next.Some? {
      NextStartUnique(now, routines, next.value);
    } else {
      forall t ensures !IsNextStart(now, routines, t) {}
      if SelectsADay(routines) {
        var r :| r in routines && exists d: nat :: d < 7 && r.days[d];
        var d: nat :| d < 7 && r.days[d];
        var u := SelectedDayStarts(now, r, d);
        assert AnyStartsAt(routines, u);
      }
    }
  }

  /** A start in the future means that there is a next one. */
  lemma NextStartExists(now: int, routines: seq<Routine>, u: int)
    requires now < u && AnyStartsAt(routines, u)
    ensures NextStart(now, routines).Some? && NextStart(now, routines).value <= u
    decreases u - now
  {
    if v :| now < v < u && AnyStartsAt(routines, v) {
      NextStartExists(now, routines, v);
      assert IsNextStart(now, routines, NextStart(now, routines).value);
    } else {
      NextStartUnique(now, routines, u);
    }
  }

  // --------------------------------------------------------------- decision

  function Validate(input: Input): (error: Option<InputError>)
    ensures error.None? <==>
      && input.consumed >= 0 && input.bonus >= 0
      && (forall q :: q in input.quota ==> q >= 0)
      && (forall r :: r in input.routines ==> InDay(r))
  {
    if input.consumed < 0 || input.bonus < 0 then Some(NegativeUsage)
    else if exists q :: q in input.quota && q < 0 then Some(NegativeQuota)
    else if exists r :: r in input.routines && !InDay(r) then Some(RoutineOutsideDay)
    else None
  }

  function Remaining(input: Input): int {
    var left := input.quota[Weekday(input.now)] + input.bonus - input.consumed;
    if left < 0 then 0 else left
  }

  function Denied(reason: Reason, remaining: int, active: Option<string>): Decision {
    Decision(false, reason, remaining, false, active, None, None)
  }

  ghost function Decide(input: Input): Decision
  {
    var remaining := Remaining(input);
    if input.monitoring.Paused? then
      Decision(true, MonitoringPaused, remaining, false, None, None, None)
    else if input.manualBlock then
      Denied(ManualBlock, remaining, None)
    else if FirstBlocking(input.now, input.routines).Some? then
      Denied(RoutineActive, remaining,
             Some(input.routines[FirstBlocking(input.now, input.routines).value].name))
    else if remaining == 0 then
      Denied(QuotaExhausted, 0, None)
    else
      var quotaBlock := input.now + remaining;
      var routineBlock := NextStart(input.now, input.routines);
      if routineBlock.Some? && routineBlock.value <= quotaBlock then
        Decision(true, Allowed, remaining, true, None, routineBlock, Some(RoutineActive))
      else
        Decision(true, Allowed, remaining, true, None, Some(quotaBlock), Some(QuotaExhausted))
  }

  method Evaluate(input: Input) returns (result: Result<Decision, InputError>)
    ensures result.Failure? <==> Validate(input).Some?
    ensures result.Failure? ==> Validate(input) == Some(result.error)
    ensures result.Success? ==> result.value == Decide(input)
  {
    var error := Validate(input);
    if error.Some? {
      return Failure(error.value);
    }
    var remaining := input.quota[Weekday(input.now)] + input.bonus - input.consumed;
    if remaining < 0 {
      remaining := 0;
    }
    if input.monitoring.Paused? {
      return Success(Decision(true, MonitoringPaused, remaining, false, None, None, None));
    }
    if input.manualBlock {
      return Success(Denied(ManualBlock, remaining, None));
    }
    var routine := ActiveRoutine(input.now, input.routines);
    if routine.Some? {
      return Success(Denied(RoutineActive, remaining, Some(input.routines[routine.value].name)));
    }
    if remaining == 0 {
      return Success(Denied(QuotaExhausted, 0, None));
    }
    var quotaBlock := input.now + remaining;
    var routineBlock := NextRoutineStart(input.now, input.routines);
    if routineBlock.Some? && routineBlock.value <= quotaBlock {
      return Success(Decision(true, Allowed, remaining, true, None, routineBlock, Some(RoutineActive)));
    }
    return Success(Decision(true, Allowed, remaining, true, None, Some(quotaBlock), Some(QuotaExhausted)));
  }

  /** The four rules in their order of precedence, whatever the rest of the input. */
  lemma Precedence(input: Input)
    requires Validate(input).None?
    ensures var d := Decide(input);
      && (d.allowed <==>
            || input.monitoring.Paused?
            || (!input.manualBlock && !Blocked(input.now, input.routines) && Remaining(input) > 0))
      && (d.shouldCount <==> d.allowed && input.monitoring.Active?)
      && (d.shouldCount <==> d.nextBlockAt.Some?)
      && (d.reason == QuotaExhausted ==> !input.manualBlock && !Blocked(input.now, input.routines))
      && (d.reason == RoutineActive ==> !input.manualBlock && Blocked(input.now, input.routines))
      && (d.shouldCount ==> input.now < d.nextBlockAt.value <= input.now + d.remaining)
  {
    if NextStart(input.now, input.routines).Some? {
      assert IsNextStart(input.now, input.routines, NextStart(input.now, input.routines).value);
    }
  }

  /** The whole decision of a valid input, in the quantities a person can check: the
      time left, the rule that applies, and the first instant at which one will. */
  lemma DecisionMeaning(input: Input)
    requires Validate(input).None?
    ensures var d := Decide(input);
      var left := input.quota[Weekday(input.now)] + input.bonus - input.consumed;
      && (left >= 0 ==> d.remaining == left)
      && (left <= 0 ==> d.remaining == 0)
      && (d.reason == MonitoringPaused <==> input.monitoring.Paused?)
      && (d.reason == ManualBlock <==> input.monitoring.Active? && input.manualBlock)
      && (d.reason == RoutineActive <==>
            input.monitoring.Active? && !input.manualBlock && exists r :: r in input.routines && BlocksAt(r, input.now))
      && (d.reason == QuotaExhausted <==>
            && input.monitoring.Active? && !input.manualBlock && left <= 0
            && forall r :: r in input.routines ==> !BlocksAt(r, input.now))
      && d.reason != AwaitingSynchronization
      && (d.allowed <==> d.reason == Allowed || d.reason == MonitoringPaused)
      && (d.shouldCount <==> d.reason == Allowed)
    ensures var d := Decide(input);
      && (d.activeRoutine.Some? <==> d.reason == RoutineActive)
      && (d.activeRoutine.Some? ==>
            exists k :: 0 <= k < |input.routines| && BlocksAt(input.routines[k], input.now)
                        && d.activeRoutine == Some(input.routines[k].name)
                        && forall j :: 0 <= j < k ==> !BlocksAt(input.routines[j], input.now))
  {
    forall r | r in input.routines && BlocksAt(r, input.now)
      ensures FirstBlocking(input.now, input.routines).Some?
    {
      var k :| 0 <= k < |input.routines| && input.routines[k] == r;
    }
  }

  /** What is predicted: the end of the time left, unless a routine starts no later;
      then the first such start. */
  lemma PredictionMeaning(input: Input)
    requires Validate(input).None?
    ensures var d := Decide(input);
      && (d.nextBlockAt.Some? <==> d.reason == Allowed) && (d.nextBlockReason.Some? <==> d.reason == Allowed)
      && (d.reason == Allowed ==>
            var at := d.nextBlockAt.value;
            && input.now < at <= input.now + d.remaining
            && (forall r, t :: r in input.routines && input.now < t < at ==> !StartsAt(r, t))
            && d.nextBlockReason == (if exists r :: r in input.routines && StartsAt(r, at) then Some(RoutineActive)
                                     else Some(QuotaExhausted))
            && (d.nextBlockReason == Some(QuotaExhausted) ==> at == input.now + d.remaining))
  {
    var d := Decide(input);
    if d.reason == Allowed {
      var at := d.nextBlockAt.value;
      var next := NextStart(input.now, input.routines);
      if next.Some? {
        assert IsNextStart(input.now, input.routines, next.value);
      }
      forall r, t | r in input.routines && StartsAt(r, t) && input.now < t
        ensures next.Some? && next.value <= t
      {
        assert AnyStartsAt(input.routines, t);
        NextStartExists(input.now, input.routines, t);
      }
    }
  }

  // ------------------------------------------------------------- prediction

  /** A routine that starts at an instant blocks it. */
  lemma StartBlocks(r: Routine, t: int)
    requires InDay(r) && StartsAt(r, t)
    ensures BlocksAt(r, t)
  {
  }

  /** Within one local day a routine becomes active only by starting. */
  lemma BecomesActiveByStarting(r: Routine, now: int, later: int)
    requires InDay(r) && now <= later && DateOf(now) == DateOf(later)
    requires !BlocksAt(r, now) && BlocksAt(r, later)
    ensures StartsAt(r, AtLocalTime(now, r.start)) && now < AtLocalTime(now, r.start) <= later
  {
    AddDaysKeepsTime(now, -1);
    AddDaysKeepsTime(later, -1);
    DateAndTime(DateOf(now), r.start);
  }

  lemma NoStartNoBlock(routines: seq<Routine>, now: int, later: int)
    requires forall r :: r in routines ==> InDay(r)
    requires now <= later && DateOf(now) == DateOf(later)
    requires !Blocked(now, routines)
    requires forall t :: now < t <= later ==> !AnyStartsAt(routines, t)
    ensures !Blocked(later, routines)
  {
    if Blocked(later, routines) {
      var k :| 0 <= k < |routines| && BlocksAt(routines[k], later);
      assert routines[k] in routines;
      BecomesActiveByStarting(routines[k], now, later);
      assert AnyStartsAt(routines, AtLocalTime(now, routines[k].start));
    }
  }

  /** The same snapshot seen again after the time in between was consumed. */
  function Advance(input: Input, later: int): Input {
    input.(now := later, consumed := input.consumed + (later - input.now))
  }

  lemma NextStartStable(routines: seq<Routine>, now: int, later: int)
    requires now <= later
    requires forall t :: now < t <= later ==> !AnyStartsAt(routines, t)
    ensures NextStart(later, routines) == NextStart(now, routines)
  {
    var first, second := NextStart(now, routines), NextStart(later, routines);
    if first.Some? {
      assert IsNextStart(now, routines, first.value);
      assert IsNextStart(later, routines, first.value);
      NextStartUnique(later, routines, first.value);
    }
    if second.Some? {
      assert IsNextStart(later, routines, second.value);
      assert IsNextStart(now, routines, second.value);
      NextStartUnique(now, routines, second.value);
    }
  }

  /** Until the predicted instant, within the local day, re-evaluation still
      allows, and it predicts the same instant for the same reason. */
  lemma PredictionHolds(input: Input, later: int)
    requires Validate(input).None? && Decide(input).shouldCount
    requires DateOf(later) == DateOf(input.now)
    requires input.now <= later < Decide(input).nextBlockAt.value
    ensures var d, again := Decide(input), Decide(Advance(input, later));
      && Validate(Advance(input, later)).None?
      && again.allowed && again.shouldCount
      && again.nextBlockAt == d.nextBlockAt && again.nextBlockReason == d.nextBlockReason
      && again.remaining == d.remaining - (later - input.now)
  {
    Precedence(input);
    var next := NextStart(input.now, input.routines);
    if next.Some? {
      assert IsNextStart(input.now, input.routines, next.value);
    }
    forall t | input.now < t <= later ensures !AnyStartsAt(input.routines, t) {
      if AnyStartsAt(input.routines, t) {
        NextStartExists(input.now, input.routines, t);
      }
    }
    NoStartNoBlock(input.routines, input.now, later);
    NextStartStable(input.routines, input.now, later);
  }

  /** At the predicted instant use is denied, for the predicted reason; a routine
      that starts exactly when the quota ends is the reason given. */
  lemma PredictionArrives(input: Input)
    requires Validate(input).None? && Decide(input).shouldCount
    requires var d := Decide(input);
      DateOf(d.nextBlockAt.value) == DateOf(input.now) || d.nextBlockReason == Some(RoutineActive)
    ensures var d, at := Decide(input), Decide(Advance(input, Decide(input).nextBlockAt.value));
      && !at.allowed && Some(at.reason) == d.nextBlockReason
      && (d.nextBlockReason == Some(RoutineActive) <==> AnyStartsAt(input.routines, d.nextBlockAt.value))
  {
    Precedence(input);
    var d := Decide(input);
    var b := d.nextBlockAt.value;
    var next := NextStart(input.now, input.routines);
    if next.Some? {
      assert IsNextStart(input.now, input.routines, next.value);
    }
    if d.nextBlockReason == Some(RoutineActive) {
      var r :| r in input.routines && StartsAt(r, b);
      StartBlocks(r, b);
    } else {
      forall t | input.now < t <= b ensures !AnyStartsAt(input.routines, t) {
        if AnyStartsAt(input.routines, t) {
          NextStartExists(input.now, input.routines, t);
        }
      }
      NoStartNoBlock(input.routines, input.now, b);
    }
  }

  // ----------------------------------------- prediction of a routine, any day

  predicate FullDay(r: Routine) {
    r.start == r.end
  }

  /** From a free instant some routine blocks before the predicted start. */
  ghost predicate LatePrediction(now: int, routines: seq<Routine>) {
    && !Blocked(now, routines)
    && NextStart(now, routines).Some?
    && exists t :: now < t < NextStart(now, routines).value && Blocked(t, routines)
  }

  /** A weekday that opens inside a full-day routine without any routine starting
      at its midnight, although the day before ends free. */
  predicate OpensUnannounced(routines: seq<Routine>, d: nat)
    requires d < 7
  {
    && (exists r :: r in routines && FullDay(r) && r.days[d])
    && (forall r :: r in routines && r.days[d] ==> r.start != 0)
    && !Blocked(d * DAY - 1, routines)
  }

  lemma OccurrenceAhead(r: Routine, date: int, now: int, t: int)
    requires InDay(r) && now < t && Occurs(r, date, t) && !Occurs(r, date, now)
    ensures r.days[WeekdayOfDate(date)]
    ensures now < OccurrenceStart(r, date) <= t
    ensures StartsAt(r, date * DAY + r.start)
    ensures FullDay(r) ==> date == DateOf(t) && OccurrenceStart(r, date) == Midnight(t)
  {
    DateAndTime(date, r.start);
    if FullDay(r) {
      assert t == date * DAY + (t - date * DAY);
      DateAndTime(date, t - date * DAY);
    }
  }

  /** Only a full-day routine can block without having started since a free instant. */
  lemma BlocksWithoutStart(r: Routine, now: int, t: int)
    requires InDay(r) && now < t && !BlocksAt(r, now) && BlocksAt(r, t)
    requires forall u :: now < u <= t ==> !StartsAt(r, u)
    ensures FullDay(r) && r.days[Weekday(t)] && now < Midnight(t) && TimeOfDay(t) < r.start
  {
    BlocksAtIsOccurrence(r, t);
    BlocksAtIsOccurrence(r, now);
    var date :| Occurs(r, date, t);
    OccurrenceAhead(r, date, now, t);
  }

  lemma BlockWithoutStart(routines: seq<Routine>, now: int, t: int) returns (r: Routine)
    requires forall r :: r in routines ==> InDay(r)
    requires now < t && !Blocked(now, routines) && Blocked(t, routines)
    requires forall u :: now < u <= t ==> !AnyStartsAt(routines, u)
    ensures r in routines && FullDay(r) && r.days[Weekday(t)]
    ensures now < Midnight(t) && TimeOfDay(t) < r.start
  {
    var k :| 0 <= k < |routines| && BlocksAt(routines[k], t);
    r := routines[k];
    assert r in routines;
    forall u | now < u <= t ensures !StartsAt(r, u) {
      assert !AnyStartsAt(routines, u);
    }
    BlocksWithoutStart(r, now, t);
  }

  lemma {:induction false} BlockedWeekly(routines: seq<Routine>, t: int, weeks: int)
    requires forall r :: r in routines ==> InDay(r)
    ensures Blocked(t + weeks * WEEK, routines) <==> Blocked(t, routines)
  {
    forall r | r in routines
      ensures BlocksAt(r, t + weeks * WEEK) <==> BlocksAt(r, t)
    {
      var u := t + weeks * WEEK;
      assert u == (DateOf(t) + 7 * weeks) * DAY + TimeOfDay(t);
      DateAndTime(DateOf(t) + 7 * weeks, TimeOfDay(t));
      assert Weekday(u) == Weekday(t);
      AddDaysKeepsTime(t, -1);
      AddDaysKeepsTime(u, -1);
      assert Weekday(AddDays(u, -1)) == Weekday(AddDays(t, -1));
    }
    forall k | 0 <= k < |routines|
      ensures BlocksAt(routines[k], t + weeks * WEEK) <==> BlocksAt(routines[k], t)
    {
      assert routines[k] in routines;
    }
  }

  /** The eve of a late announcement's block is free. */
  lemma {:induction false} FreeEve(routines: seq<Routine>, now: int, t: int)
    requires forall r :: r in routines ==> InDay(r)
    requires now < Midnight(t) <= t && !Blocked(now, routines)
    requires forall u :: now < u <= t ==> !AnyStartsAt(routines, u)
    ensures !Blocked(Midnight(t) - 1, routines)
  {
    var before := Midnight(t) - 1;
    if now < before && Blocked(before, routines) {
      assert before == (DateOf(t) - 1) * DAY + (DAY - 1);
      DateAndTime(DateOf(t) - 1, DAY - 1);
      var other := BlockWithoutStart(routines, now, before);
    }
  }

  /** Nothing starts at a midnight that no routine of its day starts at. */
  lemma NoMidnightStart(routines: seq<Routine>, t: int)
    requires !AnyStartsAt(routines, Midnight(t))
    ensures forall r :: r in routines && r.days[Weekday(t)] ==> r.start != 0
  {
    forall r | r in routines && r.days[Weekday(t)]
      ensures r.start != 0
    {
      DateAndTime(DateOf(t), 0);
      assert r.start == 0 ==> StartsAt(r, Midnight(t));
    }
  }

  /** A date that opens inside a full-day routine, with nothing starting at its
      midnight and a free eve, makes its weekday open unannounced. */
  lemma {:induction false} WeekdayOpensUnannounced(routines: seq<Routine>, t: int, r: Routine)
    requires forall q :: q in routines ==> InDay(q)
    requires r in routines && FullDay(r) && r.days[Weekday(t)]
    requires !Blocked(Midnight(t) - 1, routines) && !AnyStartsAt(routines, Midnight(t))
    ensures OpensUnannounced(routines, Weekday(t))
  {
    hide Blocked, AnyStartsAt;
    NoMidnightStart(routines, t);
    var weeks := DateOf(t) / 7;
    assert Midnight(t) - 1 == (Weekday(t) * DAY - 1) + weeks * WEEK;
    BlockedWeekly(routines, Weekday(t) * DAY - 1, weeks);
  }

  lemma {:induction false} LateImpliesUnannounced(routines: seq<Routine>, now: int) returns (d: nat)
    requires forall r :: r in routines ==> InDay(r)
    requires LatePrediction(now, routines)
    ensures d < 7 && OpensUnannounced(routines, d)
  {
    hide Blocked, AnyStartsAt, OpensUnannounced;
    var next := NextStart(now, routines).value;
    assert IsNextStart(now, routines, next);
    var t :| now < t < next && Blocked(t, routines);
    var r := BlockWithoutStart(routines, now, t);
    FreeEve(routines, now, t);
    WeekdayOpensUnannounced(routines, t, r);
    d := Weekday(t);
  }

  lemma UnannouncedImpliesLate(routines: seq<Routine>, d: nat)
    requires forall r :: r in routines ==> InDay(r)
    requires d < 7 && OpensUnannounced(routines, d)
    ensures LatePrediction(d * DAY - 1, routines)
  {
    var now, midnight := d * DAY - 1, d * DAY;
    var r :| r in routines && FullDay(r) && r.days[d];
    DateAndTime(d, 0);
    DateAndTime(d, r.start);
    assert StartsAt(r, midnight + r.start);
    assert AnyStartsAt(routines, midnight + r.start);
    NextStartExists(now, routines, midnight + r.start);
    assert BlocksAt(r, midnight);
    assert Blocked(midnight, routines) by {
      var k :| 0 <= k < |routines| && routines[k] == r;
    }
    var next := NextStart(now, routines).value;
    assert IsNextStart(now, routines, next);
    forall other | other in routines ensures !StartsAt(other, midnight) {}
    assert !AnyStartsAt(routines, midnight);
  }

  /** A predicted routine start is the first blocked instant from every free
      instant, exactly when no weekday opens unannounced inside a full-day routine. */
  lemma RoutinePredictionExactIff(routines: seq<Routine>)
    requires forall r :: r in routines ==> InDay(r)
    ensures (exists now :: LatePrediction(now, routines))
       <==> (exists d: nat :: d < 7 && OpensUnannounced(routines, d))
  {
    if now :| LatePrediction(now, routines) {
      var d := LateImpliesUnannounced(routines, now);
    }
    if d: nat :| d < 7 && OpensUnannounced(routines, d) {
      UnannouncedImpliesLate(routines, d);
    }
  }

  /** A date begins inside a full-day routine. */
  predicate OpensInFullDay(routines: seq<Routine>, date: int) {
    exists r :: r in routines && FullDay(r) && r.days[WeekdayOfDate(date)]
  }

  /** Between a free instant and one before which no routine starts, use is blocked
      exactly if a midnight in between opens inside a full-day routine. */
  lemma {:induction false} BlockedBeforeIff(routines: seq<Routine>, now: int, bound: int)
    requires forall r :: r in routines ==> InDay(r)
    requires !Blocked(now, routines) && forall u :: now < u < bound ==> !AnyStartsAt(routines, u)
    ensures (exists t :: now < t < bound && Blocked(t, routines))
       <==> (exists date :: now < date * DAY < bound && OpensInFullDay(routines, date))
  {
    if t :| now < t < bound && Blocked(t, routines) {
      var r := BlockWithoutStart(routines, now, t);
      assert Midnight(t) == DateOf(t) * DAY;
      assert OpensInFullDay(routines, DateOf(t));
    }
    if date :| now < date * DAY < bound && OpensInFullDay(routines, date) {
      var r :| r in routines && FullDay(r) && r.days[WeekdayOfDate(date)];
      DateAndTime(date, 0);
      assert BlocksAt(r, date * DAY);
      var k :| 0 <= k < |routines| && routines[k] == r;
      assert Blocked(date * DAY, routines);
    }
  }

  /** One instant's announcement of a routine is late exactly if the instant is free
      and a midnight before the announced start opens inside a full-day routine. */
  lemma {:induction false} LatePredictionIff(routines: seq<Routine>, now: int)
    requires forall r :: r in routines ==> InDay(r)
    ensures LatePrediction(now, routines) <==>
      && !Blocked(now, routines)
      && NextStart(now, routines).Some?
      && exists date :: now < date * DAY < NextStart(now, routines).value && OpensInFullDay(routines, date)
  {
    var next := NextStart(now, routines);
    if !Blocked(now, routines) && next.Some? {
      assert IsNextStart(now, routines, next.value);
      BlockedBeforeIff(routines, now, next.value);
    }
  }

  /** The same for a whole decision, whatever it predicts: use is blocked before the
      predicted instant exactly if such a midnight lies before it. */
  lemma {:induction false} PredictionLateIff(input: Input)
    requires Validate(input).None? && Decide(input).shouldCount
    ensures var block := Decide(input).nextBlockAt;
      block.Some?
      && ((exists t :: input.now < t < block.value && Blocked(t, input.routines))
          <==> (exists date :: input.now < date * DAY < block.value && OpensInFullDay(input.routines, date)))
  {
    Precedence(input);
    var block, next := Decide(input).nextBlockAt.value, NextStart(input.now, input.routines);
    if next.Some? {
      assert IsNextStart(input.now, input.routines, next.value);
    }
    forall u | input.now < u < block
      ensures !AnyStartsAt(input.routines, u)
    {
      if AnyStartsAt(input.routines, u) {
        NextStartExists(input.now, input.routines, u);
      }
    }
    BlockedBeforeIff(input.routines, input.now, block);
  }

  /** A full-day Monday stored with ten o'clock as start and end: on Sunday the
      block is announced ten hours late. */
  lemma LatePredictionExample(sunday: int)
    requires sunday == 23 * HOUR
    ensures var monday := Routine("school", [false, true, false, false, false, false, false], 10 * HOUR, 10 * HOUR);
      && NextStart(sunday, [monday]) == Some(DAY + 10 * HOUR)
      && BlocksAt(monday, DAY) && !BlocksAt(monday, DAY - 1)
      && LatePrediction(sunday, [monday])
  {
    var monday := Routine("school", [false, true, false, false, false, false, false], 10 * HOUR, 10 * HOUR);
    DateAndTime(0, 23 * HOUR);
    DateAndTime(1, 10 * HOUR);
    assert StartsAt(monday, DAY + 10 * HOUR);
    assert AnyStartsAt([monday], DAY + 10 * HOUR);
    assert IsNextStart(sunday, [monday], DAY + 10 * HOUR);
    NextStartUnique(sunday, [monday], DAY + 10 * HOUR);
    assert BlocksAt([monday][0], DAY);
    assert Blocked(DAY, [monday]);
    assert !Blocked(sunday, [monday]);
  }
}
