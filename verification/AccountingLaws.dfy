/**
  What holds of the daemon's accounting over whole runs: nothing is counted
  beyond what a decision granted, no interval is counted twice, and the polling
  schedule does not matter.
*/
module AccountingLaws {
  import opened Wrappers
  import opened Calendar
  import opened Policy
  import opened Records
  import opened AgentTables
  import opened Usage
  import opened Accounting

  ghost predicate Ready(m: Meter, disk: Disk, every: int) {
    SoundRows(disk) && disk.policy.Some? && SoundMeter(m, disk.usage, every)
  }

  lemma ReconcileSound(b: Books, anchor: Option<Anchor>, date: Date, every: int)
    requires SoundBooks(b, every)
    ensures SoundBooks(Reconcile(b, anchor, date), every)
    ensures Reconcile(b, anchor, date).counter.date == b.counter.date
    ensures Reconcile(b, anchor, date).counter.seconds >= b.counter.seconds
    ensures Reconcile(b, anchor, date).fraction == b.fraction
    ensures forall d :: UsageOn(Reconcile(b, anchor, date).usage, d) >= UsageOn(b.usage, d)
    ensures anchor.Some? && anchor.value.date == date ==>
      Reconcile(b, anchor, date).counter.seconds >= anchor.value.usage
  {
    if anchor.Some? && anchor.value.date == date && b.counter.seconds < anchor.value.usage {
      CounterOperations(Metered(b.counter, b.usage), anchor.value.usage, every);
    }
  }

  lemma EffectKeepsRows(disk: Disk, control: RemoteControl, session: Option<Session>)
    ensures var seen := ObserveEffect(disk, control, session);
      seen == disk.(staged := seen.staged, applied := seen.applied)
  {
  }

  /** Decisions read the counter, not the usage table. */
  lemma DecisionIgnoresUsage(disk: Disk, other: Disk, counter: Counter, control: RemoteControl, at: int)
    requires disk.policy.Some? && SameSettings(disk, other)
    ensures DecideAt(disk, counter, control, at) == DecideAt(other, counter, control, at)
  {
  }

  /** A cycle keeps the books sound, never lowers a durable counter, and changes
      nothing durable except usage and the staged effect. */
  lemma StepSound(m: Meter, disk: Disk, control: RemoteControl, sessions: seq<Session>, now: int, every: int)
    requires Ready(m, disk, every)
    ensures var c := Step(m, disk, control, sessions, now, every);
      && Ready(c.meter, c.disk, every)
      && c.meter.counter.Some? && c.meter.counter.value.date == DateOf(now)
      && c.meter.lastAt == Some(now)
      && (c.meter.lastShouldCount ==> c.meter.lastCountUntil.Some?)
      && (forall d :: UsageOn(c.disk.usage, d) >= UsageOn(disk.usage, d))
      && c.disk == disk.(usage := c.disk.usage, staged := c.disk.staged, applied := c.disk.applied)
      && c.disk.(usage := disk.usage) == ObserveEffect(disk, control, FirstActive(sessions))
  {
    hide Account, DecideAt, Awaiting;
    var session := FirstActive(sessions);
    EffectKeepsRows(disk, control, session);
    var observed := ObserveEffect(disk, control, session);
    var b := Account(m, observed, control, sessions != [], now, every);
    ReconcileSound(b, disk.anchor, DateOf(now), every);
    var r := Reconcile(b, disk.anchor, DateOf(now));
    CounterOperations(Metered(r.counter, r.usage), 0, every);
    CountingHasEnd(disk, r.counter, control, now);
  }

  /** Time is only ever counted up to a known instant. */
  lemma CountingHasEnd(disk: Disk, counter: Counter, control: RemoteControl, at: int)
    requires SoundRows(disk) && disk.policy.Some? && counter.seconds >= 0
    ensures DecideAt(disk, counter, control, at).shouldCount ==> DecideAt(disk, counter, control, at).nextBlockAt.Some?
  {
    InputIsValid(disk, counter, control, at);
    Precedence(InputFor(disk, counter, control, at));
  }

  /** The parts of a cycle, from the reconciled books on. */
  ghost predicate CycleParts(c: Cycle, r: Books, m: Meter, disk: Disk, control: RemoteControl,
                             sessions: seq<Session>, now: int)
    requires disk.policy.Some? && r.counter.seconds >= 0
  {
    var flushed := Flushed(Metered(r.counter, r.usage));
    var books := if !c.decision.allowed && m.lastShouldCount
                 then r.(counter := flushed.counter, usage := flushed.usage) else r;
    && c.awaiting == Awaiting(disk, control, FirstActive(sessions), DateOf(now))
    && c.decision == (if c.awaiting then AwaitingDecision else DecideAt(disk, r.counter, control, now))
    && c.disk == ObserveEffect(disk, control, FirstActive(sessions)).(usage := books.usage)
    && c.meter == Meter(Some(books.counter), Some(now), c.decision.shouldCount, sessions != [],
                        c.decision.nextBlockAt, books.fraction)
  }

  lemma {:induction false} CycleFromBooks(c: Cycle, m: Meter, disk: Disk, control: RemoteControl,
                                          sessions: seq<Session>, now: int, every: int)
    returns (r: Books)
    requires Ready(m, disk, every) && c == Step(m, disk, control, sessions, now, every)
    ensures var seen := ObserveEffect(disk, control, FirstActive(sessions));
      && Ready(m, seen, every)
      && r == Reconcile(Account(m, seen, control, sessions != [], now, every), disk.anchor, DateOf(now))
      && SoundBooks(r, every)
      && CycleParts(c, r, m, disk, control, sessions, now)
  {
    EffectKeepsRows(disk, control, FirstActive(sessions));
    var b := Account(m, ObserveEffect(disk, control, FirstActive(sessions)), control, sessions != [], now, every);
    ReconcileSound(b, disk.anchor, DateOf(now), every);
    r := Reconcile(b, disk.anchor, DateOf(now));
  }

  // -------------------------------------------------------------- exact amounts

  /** The time a cycle counts between two instants: none unless the last cycle counted
      and saw a session, and none past the instant until which it counted. */
  function TimeAttended(m: Meter, until: int): nat {
    if m.lastShouldCount && m.lastHadSession && m.lastAt.Some? && m.lastCountUntil.Some? then
      var end := if m.lastCountUntil.value < until then m.lastCountUntil.value else until;
      if end > m.lastAt.value then end - m.lastAt.value else 0
    else 0
  }

  /** The usage the server has confirmed for the date. */
  function Floor(disk: Disk, date: Date): int {
    if disk.anchor.Some? && disk.anchor.value.date == date then disk.anchor.value.usage else 0
  }

  function Larger(a: int, b: int): int {
    if a < b then b else a
  }

  lemma {:induction false} ElapseExactly(b: Books, elapsed: nat, every: int)
    requires SoundBooks(b, every)
    ensures var after, total := Elapse(b, elapsed, every), b.counter.seconds * SECOND + b.fraction + elapsed;
      && after.counter.seconds == total / SECOND && after.fraction == total % SECOND
      && (elapsed == 0 ==> after == b)
  {
    ElapseSound(b, elapsed, every);
  }

  /** What is decided after accounting raises the counter to the confirmed usage, and
      moves nothing else but the durable counter of the date. */
  lemma {:induction false} BooksToCycle(c: Cycle, m: Meter, disk: Disk, control: RemoteControl,
                                        sessions: seq<Session>, now: int, every: int)
    returns (b: Books)
    requires Ready(m, disk, every) && c == Step(m, disk, control, sessions, now, every)
    ensures var seen := ObserveEffect(disk, control, FirstActive(sessions));
      && Ready(m, seen, every) && SameSettings(disk, seen) && seen.usage == disk.usage
      && b == Account(m, seen, control, sessions != [], now, every) && SoundBooks(b, every)
    ensures c.meter.counter.Some? && c.meter.counter.value.date == b.counter.date == DateOf(now)
    ensures c.meter.counter.value.seconds == Larger(b.counter.seconds, Floor(disk, DateOf(now)))
    ensures c.meter.fraction == b.fraction
    ensures forall d :: d != DateOf(now) ==> UsageOn(c.disk.usage, d) == UsageOn(b.usage, d)
  {
    hide Account, DecideAt, Awaiting, Step;
    var seen := ObserveEffect(disk, control, FirstActive(sessions));
    EffectKeepsRows(disk, control, FirstActive(sessions));
    var r := CycleFromBooks(c, m, disk, control, sessions, now, every);
    b := Account(m, seen, control, sessions != [], now, every);
  }

  /** What a cycle leaves in its counter on the date of the last one. */
  lemma {:induction false} CountsExactly(m: Meter, disk: Disk, control: RemoteControl, sessions: seq<Session>,
                                         now: int, every: int)
    requires Ready(m, disk, every) && m.counter.Some? && m.counter.value.date == DateOf(now)
    ensures var c := Step(m, disk, control, sessions, now, every);
      var total := m.counter.value.seconds * SECOND + m.fraction + TimeAttended(m, now);
      && c.meter.counter.Some? && c.meter.counter.value.date == DateOf(now)
      && c.meter.counter.value.seconds == Larger(total / SECOND, Floor(disk, DateOf(now)))
      && c.meter.fraction == total % SECOND
  {
    hide Step, ObserveEffect, Floor, Elapse;
    var b := BooksToCycle(Step(m, disk, control, sessions, now, every), m, disk, control, sessions, now, every);
    ElapseExactly(Books(m.counter.value, disk.usage, m.fraction, 0), TimeAttended(m, now), every);
    assert b == Elapse(Books(m.counter.value, disk.usage, m.fraction, 0), TimeAttended(m, now), every);
  }

  /** A first cycle takes up the durable counter, and a fraction of nothing. */
  lemma {:induction false} StartsExactly(m: Meter, disk: Disk, control: RemoteControl, sessions: seq<Session>,
                                         now: int, every: int)
    requires Ready(m, disk, every) && m.counter.None?
    ensures var c := Step(m, disk, control, sessions, now, every);
      && c.meter.counter.Some? && c.meter.counter.value.date == DateOf(now)
      && c.meter.counter.value.seconds == Larger(UsageOn(disk.usage, DateOf(now)), Floor(disk, DateOf(now)))
      && c.meter.fraction == 0
  {
    hide Step, ObserveEffect, Floor;
    var b := BooksToCycle(Step(m, disk, control, sessions, now, every), m, disk, control, sessions, now, every);
  }

  /** What the first cycle of a date counts on it: the time since midnight, if the
      decision at midnight counts and someone is present, and none past its block. */
  ghost function SinceMidnight(disk: Disk, control: RemoteControl, sessions: seq<Session>, now: int): nat
    requires disk.policy.Some?
  {
    var loaded := Counter(DateOf(now), UsageOn(disk.usage, DateOf(now)), 0);
    var opening := DecideAt(disk, loaded, control, Midnight(now));
    if opening.shouldCount && sessions != [] && opening.nextBlockAt.Some? then
      var end := if opening.nextBlockAt.value < now then opening.nextBlockAt.value else now;
      if end > Midnight(now) then end - Midnight(now) else 0
    else 0
  }

  /** What a cycle leaves on both dates when the last one was on an earlier date. */
  lemma {:induction false} MidnightExactly(m: Meter, disk: Disk, control: RemoteControl, sessions: seq<Session>,
                                           now: int, every: int)
    requires Ready(m, disk, every) && m.counter.Some? && m.counter.value.date != DateOf(now)
    ensures var c := Step(m, disk, control, sessions, now, every);
      var closed := m.counter.value.seconds * SECOND + m.fraction + TimeAttended(m, Midnight(now));
      var begun := UsageOn(disk.usage, DateOf(now)) * SECOND + SinceMidnight(disk, control, sessions, now);
      && UsageOn(c.disk.usage, m.counter.value.date)
         == Larger(UsageOn(disk.usage, m.counter.value.date), closed / SECOND)
      && c.meter.counter.Some? && c.meter.counter.value.date == DateOf(now)
      && c.meter.counter.value.seconds == Larger(begun / SECOND, Floor(disk, DateOf(now)))
      && c.meter.fraction == begun % SECOND
  {
    hide Step, Account, ObserveEffect, Floor, SinceMidnight, TimeAttended, UsageOn;
    var c := Step(m, disk, control, sessions, now, every);
    var b := BooksToCycle(c, m, disk, control, sessions, now, every);
    var seen := ObserveEffect(disk, control, FirstActive(sessions));
    MidnightAccount(m, seen, control, sessions, now, every);
    SameOpening(disk, seen, control, sessions, now);
  }

  lemma SameOpening(disk: Disk, seen: Disk, control: RemoteControl, sessions: seq<Session>, now: int)
    requires disk.policy.Some? && SameSettings(disk, seen) && seen.usage == disk.usage
    ensures SinceMidnight(seen, control, sessions, now) == SinceMidnight(disk, control, sessions, now)
  {
    DecisionIgnoresUsage(disk, seen, Counter(DateOf(now), UsageOn(disk.usage, DateOf(now)), 0), control, Midnight(now));
  }

  lemma {:induction false} ElapseRows(b: Books, elapsed: nat, every: int)
    requires SoundBooks(b, every)
    ensures var after := Elapse(b, elapsed, every);
      && (forall d :: d != b.counter.date ==> UsageOn(after.usage, d) == UsageOn(b.usage, d))
      && Larger(UsageOn(after.usage, b.counter.date), after.counter.seconds)
         == Larger(UsageOn(b.usage, b.counter.date), after.counter.seconds)
  {
  }

  lemma {:induction false} NewDayRows(b: Books, date: Date)
    requires b.counter.seconds >= 0 && b.counter.date != date
    ensures var next := NewDay(b, date);
      && UsageOn(next.usage, b.counter.date) == Larger(UsageOn(b.usage, b.counter.date), b.counter.seconds)
      && next.counter == Counter(date, UsageOn(b.usage, date), 0) && next.fraction == 0
  {
  }

  lemma {:induction false} ClosedExactly(m: Meter, disk: Disk, now: int, every: int)
    requires Ready(m, disk, every) && m.counter.Some? && m.counter.value.date != DateOf(now)
    ensures var b := Books(m.counter.value, disk.usage, m.fraction, 0);
      var closed := BeforeMidnight(m, b, now, every);
      var next := NewDay(closed, DateOf(now));
      var total := m.counter.value.seconds * SECOND + m.fraction + TimeAttended(m, Midnight(now));
      && SoundBooks(closed, every) && SoundBooks(next, every)
      && UsageOn(next.usage, m.counter.value.date) == Larger(UsageOn(disk.usage, m.counter.value.date), total / SECOND)
      && next.counter == Counter(DateOf(now), UsageOn(disk.usage, DateOf(now)), 0) && next.fraction == 0
  {
    var b := Books(m.counter.value, disk.usage, m.fraction, 0);
    var elapsed := TimeAttended(m, Midnight(now));
    assert BeforeMidnight(m, b, now, every) == Elapse(b, elapsed, every);
    hide BeforeMidnight, Elapse, NewDay, Sound, UsageOn;
    ElapseSound(b, elapsed, every);
    ElapseExactly(b, elapsed, every);
    ElapseRows(b, elapsed, every);
    ElapseKeepsUsage(b, elapsed, every);
    NewDaySound(Elapse(b, elapsed, every), DateOf(now), every);
    NewDayRows(Elapse(b, elapsed, every), DateOf(now));
  }

  lemma {:induction false} OpenedExactly(next: Books, disk: Disk, control: RemoteControl, sessions: seq<Session>,
                                         now: int, every: int)
    requires SoundRows(disk) && disk.policy.Some? && SoundBooks(next, every)
    requires next.counter == Counter(DateOf(now), UsageOn(disk.usage, DateOf(now)), 0) && next.fraction == 0
    ensures var b := AfterMidnight(next, disk, control, sessions != [], now, every);
      var begun := UsageOn(disk.usage, DateOf(now)) * SECOND + SinceMidnight(disk, control, sessions, now);
      && b.counter.seconds == begun / SECOND && b.fraction == begun % SECOND
      && forall d :: d != DateOf(now) ==> UsageOn(b.usage, d) == UsageOn(next.usage, d)
  {
    hide Elapse, DecideAt, UsageOn;
    CountingHasEnd(disk, next.counter, control, Midnight(now));
    ElapseExactly(next, SinceMidnight(disk, control, sessions, now), every);
    assert AfterMidnight(next, disk, control, sessions != [], now, every)
        == Elapse(next, SinceMidnight(disk, control, sessions, now), every);
    hide AfterMidnight, SinceMidnight;
    ElapseRows(next, SinceMidnight(disk, control, sessions, now), every);
  }

  lemma {:induction false} MidnightAccount(m: Meter, disk: Disk, control: RemoteControl, sessions: seq<Session>,
                                           now: int, every: int)
    requires Ready(m, disk, every) && m.counter.Some? && m.counter.value.date != DateOf(now)
    ensures var b := Account(m, disk, control, sessions != [], now, every);
      var closed := m.counter.value.seconds * SECOND + m.fraction + TimeAttended(m, Midnight(now));
      var begun := UsageOn(disk.usage, DateOf(now)) * SECOND + SinceMidnight(disk, control, sessions, now);
      && UsageOn(b.usage, m.counter.value.date)
         == Larger(UsageOn(disk.usage, m.counter.value.date), closed / SECOND)
      && b.counter.seconds == begun / SECOND && b.fraction == begun % SECOND
  {
    hide DecideAt, BeforeMidnight, AfterMidnight, NewDay, Elapse, SinceMidnight, TimeAttended, UsageOn;
    var b := Books(m.counter.value, disk.usage, m.fraction, 0);
    ClosedExactly(m, disk, now, every);
    var next := NewDay(BeforeMidnight(m, b, now, every), DateOf(now));
    OpenedExactly(next, disk, control, sessions, now, every);
  }

  // -------------------------------------------------------------- no overshoot

  lemma ElapseBounded(b: Books, elapsed: nat, granted: nat, every: int)
    requires SoundBooks(b, every) && elapsed <= granted * SECOND
    ensures Elapse(b, elapsed, every).counted - b.counted <= granted
  {
    ElapseSound(b, elapsed, every);
  }

  /** What a decision grants is a whole number of seconds, and it bounds the
      instant until which time is counted. */
  lemma GrantedSeconds(disk: Disk, counter: Counter, control: RemoteControl, at: int) returns (granted: nat)
    requires SoundRows(disk) && disk.policy.Some? && counter.seconds >= 0
    ensures var d := DecideAt(disk, counter, control, at);
      && d.remaining == granted * SECOND
      && (d.shouldCount ==> d.nextBlockAt.Some? && at < d.nextBlockAt.value <= at + granted * SECOND)
  {
    InputIsValid(disk, counter, control, at);
    Precedence(InputFor(disk, counter, control, at));
    granted := if control.online then AnchorBalance(disk.anchor, counter)
               else LocalBalance(disk, counter, Weekday(at));
  }

  /** Consider two consecutive cycles with anything durable changing in between.
      Before midnight the second adds at most what the first granted; after
      midnight at most what the decision at midnight grants: however long the
      gap, and whatever fraction was carried. */
  lemma {:induction false} NoOvershoot(
      m: Meter, disk: Disk, control: RemoteControl, sessions: seq<Session>, t: int,
      disk': Disk, control': RemoteControl, hasSession: bool, t': int, every: int)
    requires Ready(m, disk, every)
    requires var c := Step(m, disk, control, sessions, t, every);
      Ready(c.meter, disk', every) && t <= t'
    ensures var c := Step(m, disk, control, sessions, t, every);
      var before := Books(c.meter.counter.value, disk'.usage, c.meter.fraction, 0);
      var after := Account(c.meter, disk', control', hasSession, t', every);
      if DateOf(t) == DateOf(t') then
        && after.counter.date == DateOf(t)
        && (after.counter.seconds - before.counter.seconds) * SECOND <= c.decision.remaining
      else
        var closed := BeforeMidnight(c.meter, before, t', every);
        var next := NewDay(closed, DateOf(t'));
        && closed.counter.date == DateOf(t)
        && (closed.counter.seconds - before.counter.seconds) * SECOND <= c.decision.remaining
        && after.counter.date == DateOf(t')
        && (after.counter.seconds - next.counter.seconds) * SECOND
             <= DecideAt(disk', next.counter, control', Midnight(t')).remaining
  {
    StepSound(m, disk, control, sessions, t, every);
    var c := Step(m, disk, control, sessions, t, every);
    var before := Books(c.meter.counter.value, disk'.usage, c.meter.fraction, 0);
    var stop := if DateOf(t) == DateOf(t') then t' else Midnight(t');
    var elapsed := if c.meter.lastShouldCount && c.meter.lastHadSession
                   then CappedElapsed(t, stop, c.meter.lastCountUntil) else 0;
    var granted := DecisionGrant(m, disk, control, sessions, t, every);
    ElapseSound(before, elapsed, every);
    ElapseBounded(before, elapsed, granted, every);
    if DateOf(t) != DateOf(t') {
      ElapseKeepsUsage(before, elapsed, every);
      var closed := BeforeMidnight(c.meter, before, t', every);
      NewDaySound(closed, DateOf(t'), every);
      var next := NewDay(closed, DateOf(t'));
      var allowance := GrantedSeconds(disk', next.counter, control', Midnight(t'));
      var later := CappedElapsed(Midnight(t'), t', DecideAt(disk', next.counter, control', Midnight(t')).nextBlockAt);
      if DecideAt(disk', next.counter, control', Midnight(t')).shouldCount {
        ElapseSound(next, later, every);
        ElapseBounded(next, later, allowance, every);
      }
    }
  }

  lemma DecisionGrant(m: Meter, disk: Disk, control: RemoteControl, sessions: seq<Session>, t: int, every: int)
    returns (granted: nat)
    requires Ready(m, disk, every)
    ensures var c := Step(m, disk, control, sessions, t, every);
      && c.decision.remaining == granted * SECOND
      && (c.meter.lastShouldCount ==>
            c.meter.lastCountUntil.Some? && c.meter.lastCountUntil.value <= t + granted * SECOND)
  {
    var session := FirstActive(sessions);
    EffectKeepsRows(disk, control, session);
    var b := Account(m, ObserveEffect(disk, control, session), control, sessions != [], t, every);
    ReconcileSound(b, disk.anchor, DateOf(t), every);
    var r := Reconcile(b, disk.anchor, DateOf(t));
    if Awaiting(disk, control, session, DateOf(t)) {
      granted := 0;
    } else {
      granted := GrantedSeconds(disk, r.counter, control, t);
    }
  }

  // ------------------------------------------------- nothing is counted twice

  /** The seconds one cycle counts, over all dates it touches. */
  ghost function CountedBy(m: Meter, disk: Disk, control: RemoteControl, sessions: seq<Session>, now: int,
                           every: int): int
    requires Ready(m, disk, every)
  {
    EffectKeepsRows(disk, control, FirstActive(sessions));
    Account(m, ObserveEffect(disk, control, FirstActive(sessions)), control, sessions != [], now, every).counted
  }

  /** One cycle accounts for no more than the time since the previous one. */
  lemma {:induction false} CycleConserves(m: Meter, disk: Disk, control: RemoteControl, sessions: seq<Session>,
                                          now: int, every: int)
    requires Ready(m, disk, every) && (m.lastAt.Some? ==> m.lastAt.value <= now)
    ensures var counted := CountedBy(m, disk, control, sessions, now, every);
      var c := Step(m, disk, control, sessions, now, every);
      && counted >= 0
      && counted * SECOND + c.meter.fraction
           <= (if m.lastAt.Some? then m.fraction + (now - m.lastAt.value) else 0)
  {
    EffectKeepsRows(disk, control, FirstActive(sessions));
    var observed := ObserveEffect(disk, control, FirstActive(sessions));
    if m.counter.Some? {
      var b := Books(m.counter.value, observed.usage, m.fraction, 0);
      var stop := if b.counter.date == DateOf(now) then now else Midnight(now);
      var elapsed := if m.lastShouldCount && m.lastHadSession
                     then CappedElapsed(m.lastAt.value, stop, m.lastCountUntil) else 0;
      ElapseSound(b, elapsed, every);
      if b.counter.date != DateOf(now) {
        MidnightSplit(m, observed, control, sessions != [], now, every);
      }
    }
  }

  lemma EarlierDate(t: int, now: int)
    requires t <= now && DateOf(t) != DateOf(now)
    ensures t < Midnight(now) <= now
  {
  }

  lemma {:induction false} MidnightSplit(m: Meter, disk: Disk, control: RemoteControl, hasSession: bool, now: int,
                                         every: int)
    requires Ready(m, disk, every) && m.counter.Some? && m.lastAt.value <= now
    requires m.counter.value.date != DateOf(now)
    ensures var b := Account(m, disk, control, hasSession, now, every);
      b.counted >= 0 && b.counted * SECOND + b.fraction <= m.fraction + (now - m.lastAt.value)
  {
    var midnight := Midnight(now);
    EarlierDate(m.lastAt.value, now);
    var b := Books(m.counter.value, disk.usage, m.fraction, 0);
    var elapsed := if m.lastShouldCount && m.lastHadSession
                   then CappedElapsed(m.lastAt.value, midnight, m.lastCountUntil) else 0;
    assert elapsed <= midnight - m.lastAt.value;
    ElapseSound(b, elapsed, every);
    ElapseKeepsUsage(b, elapsed, every);
    var closed := BeforeMidnight(m, b, now, every);
    assert closed == Elapse(b, elapsed, every);
    NewDaySound(closed, DateOf(now), every);
    AfterMidnightBound(NewDay(closed, DateOf(now)), disk, control, hasSession, now, every);
  }

  lemma AfterMidnightBound(b: Books, disk: Disk, control: RemoteControl, hasSession: bool, now: int, every: int)
    requires disk.policy.Some? && SoundBooks(b, every)
    ensures var after := AfterMidnight(b, disk, control, hasSession, now, every);
      && after.counted >= b.counted
      && (after.counted - b.counted) * SECOND + after.fraction <= b.fraction + (now - Midnight(now))
  {
    var later := CappedElapsed(Midnight(now), now, DecideAt(disk, b.counter, control, Midnight(now)).nextBlockAt);
    assert later <= now - Midnight(now);
    ElapseSound(b, later, every);
  }

  /** One observation in a run; between two of them other parties may have
      changed every table. */
  datatype Poll = Poll(now: int, control: RemoteControl, sessions: seq<Session>, disk: Disk)

  ghost function Poll1(m: Meter, p: Poll, every: int): Cycle
    requires Ready(m, p.disk, every)
  {
    Step(m, p.disk, p.control, p.sessions, p.now, every)
  }

  ghost predicate Runs(m: Meter, polls: seq<Poll>, every: int)
    decreases |polls|
  {
    polls == [] ||
    (&& Ready(m, polls[0].disk, every)
     && (m.lastAt.Some? ==> m.lastAt.value <= polls[0].now)
     && Runs(Poll1(m, polls[0], every).meter, polls[1..], every))
  }

  ghost function FinalMeter(m: Meter, polls: seq<Poll>, every: int): Meter
    requires Runs(m, polls, every)
    decreases |polls|
  {
    if polls == [] then m else FinalMeter(Poll1(m, polls[0], every).meter, polls[1..], every)
  }

  ghost function TotalCounted(m: Meter, polls: seq<Poll>, every: int): int
    requires Runs(m, polls, every)
    decreases |polls|
  {
    if polls == [] then 0 else
      CountedBy(m, polls[0].disk, polls[0].control, polls[0].sessions, polls[0].now, every)
      + TotalCounted(Poll1(m, polls[0], every).meter, polls[1..], every)
  }

  /** A run's first cycle, and what it counts. */
  lemma {:induction false} FirstPoll(m: Meter, polls: seq<Poll>, every: int) returns (c: Cycle, counted: int)
    requires Runs(m, polls, every) && polls != []
    ensures Ready(m, polls[0].disk, every) && c == Poll1(m, polls[0], every) && c.meter.lastAt == Some(polls[0].now)
    ensures Runs(c.meter, polls[1..], every)
    ensures TotalCounted(m, polls, every) == counted + TotalCounted(c.meter, polls[1..], every)
    ensures FinalMeter(m, polls, every) == FinalMeter(c.meter, polls[1..], every)
    ensures counted >= 0 && 0 <= c.meter.fraction < SECOND
    ensures counted * SECOND + c.meter.fraction
         <= if m.lastAt.Some? then m.fraction + (polls[0].now - m.lastAt.value) else 0
  {
    hide Step, Account;
    var p := polls[0];
    c := Poll1(m, p, every);
    counted := CountedBy(m, p.disk, p.control, p.sessions, p.now, every);
    CycleConserves(m, p.disk, p.control, p.sessions, p.now, every);
    StepSound(m, p.disk, p.control, p.sessions, p.now, every);
  }

  lemma NothingPolled(m: Meter, every: int)
    ensures Runs(m, [], every) && TotalCounted(m, [], every) == 0 && FinalMeter(m, [], every) == m
  {
  }

  lemma {:induction false} CountedSince(m: Meter, polls: seq<Poll>, every: int)
    requires Runs(m, polls, every) && polls != [] && m.lastAt.Some?
    ensures TotalCounted(m, polls, every) >= 0
    ensures TotalCounted(m, polls, every) * SECOND + FinalMeter(m, polls, every).fraction
         <= m.fraction + (polls[|polls| - 1].now - m.lastAt.value)
    decreases |polls|
  {
    hide Runs, Poll1, TotalCounted, FinalMeter;
    var c, counted := FirstPoll(m, polls, every);
    if |polls| == 1 {
      assert polls[1..] == [];
      NothingPolled(c.meter, every);
    } else {
      CountedSince(c.meter, polls[1..], every);
    }
  }

  /** Over a whole run of a daemon, across dates and whatever the other parties do
      to policy, bonuses and anchor, the seconds counted on all dates together
      never exceed the time between the first and the last cycle. */
  lemma {:induction false} NoIntervalCountedTwice(polls: seq<Poll>, every: int)
    requires polls != [] && Runs(FreshMeter, polls, every)
    ensures 0 <= TotalCounted(FreshMeter, polls, every) * SECOND + FinalMeter(FreshMeter, polls, every).fraction
              <= polls[|polls| - 1].now - polls[0].now
  {
    hide Runs, Poll1, TotalCounted, FinalMeter;
    var c, counted := FirstPoll(FreshMeter, polls, every);
    if |polls| == 1 {
      assert polls[1..] == [];
      NothingPolled(c.meter, every);
    } else {
      CountedSince(c.meter, polls[1..], every);
      FractionInRange(c.meter, polls[1..], every);
    }
  }

  lemma {:induction false} FractionInRange(m: Meter, polls: seq<Poll>, every: int)
    requires Runs(m, polls, every) && 0 <= m.fraction < SECOND
    ensures 0 <= FinalMeter(m, polls, every).fraction < SECOND
    decreases |polls|
  {
    if polls != [] {
      StepSound(m, polls[0].disk, polls[0].control, polls[0].sessions, polls[0].now, every);
      FractionInRange(Poll1(m, polls[0], every).meter, polls[1..], every);
    }
  }

  // ------------------------------------------------- polling schedule is immaterial

  /** The day's total: what the authority in force lets the counter reach. */
  ghost function Allowance(disk: Disk, control: RemoteControl, date: Date): int
    requires disk.policy.Some? && (control.online ==> disk.anchor.Some?)
  {
    if control.online then disk.anchor.value.remaining + disk.anchor.value.usage
    else disk.policy.value.quota[WeekdayOfDate(date)] + TotalBonus(disk.bonus, date)
  }

  /** Between these instants of one date no routine, pause or block intervenes,
      and online the anchor is the one of that date. */
  ghost predicate Undisturbed(disk: Disk, control: RemoteControl, begin: int, end: int) {
    && disk.policy.Some?
    && DateOf(begin) == DateOf(end)
    && (control.online ==>
        && !control.paused && !control.blocked
        && disk.anchor.Some? && disk.anchor.value.date == DateOf(begin) && disk.anchor.value.remaining >= 0)
    && (forall t :: begin <= t <= end ==> !Blocked(t, EnabledRoutines(disk.policy.value.routines)))
    && (forall t :: begin < t <= end ==> !AnyStartsAt(EnabledRoutines(disk.policy.value.routines), t))
  }

  /** Usage may have advanced; nothing a decision reads otherwise has. */
  predicate SameSettings(disk: Disk, later: Disk) {
    later.policy == disk.policy && later.bonus == disk.bonus && later.anchor == disk.anchor
  }

  /** A stretch of one date seen from its first cycle, which left this many seconds
      counted and this fraction of a second carried. */
  datatype Window = Window(begin: int, end: int, start: int, carried: nat, allowance: int)

  /** The presence not counted in `start`, once the window has reached an instant. */
  function Presence(w: Window, now: int): nat
    requires w.begin <= now
  {
    w.carried + (now - w.begin)
  }

  /** The counter after so much presence, in closed form. */
  function CountAfter(start: int, allowance: int, presence: nat): int {
    if start >= allowance then start
    else if start + WholeSeconds(presence) >= allowance then allowance
    else start + WholeSeconds(presence)
  }

  predicate TimeLeft(w: Window, now: int)
    requires w.begin <= now
  {
    w.start + WholeSeconds(Presence(w, now)) < w.allowance
  }

  ghost predicate Tracks(m: Meter, w: Window, now: int) {
    && w.begin <= now
    && m.counter.Some? && m.counter.value.date == DateOf(w.begin)
    && m.lastAt == Some(now) && m.lastHadSession
    && m.counter.value.seconds == CountAfter(w.start, w.allowance, Presence(w, now))
    && (m.lastShouldCount <==> TimeLeft(w, now))
    && (m.lastShouldCount ==>
        && m.counter.value.seconds * SECOND + m.fraction == w.start * SECOND + Presence(w, now)
        && m.lastCountUntil.Some?
        && var stop := now + (w.allowance - m.counter.value.seconds) * SECOND;
           m.lastCountUntil.value == stop || w.end < m.lastCountUntil.value <= stop)
  }

  lemma FreeDecision(input: Input, end: int)
    requires Validate(input).None? && input.monitoring.Active? && !input.manualBlock
    requires !Blocked(input.now, input.routines)
    requires forall t :: input.now < t <= end ==> !AnyStartsAt(input.routines, t)
    ensures var d, left := Decide(input), Remaining(input);
      && d.allowed == d.shouldCount == (left > 0)
      && (left > 0 ==>
          && d.nextBlockAt.Some?
          && (d.nextBlockAt.value == input.now + left || end < d.nextBlockAt.value <= input.now + left))
  {
    var next := NextStart(input.now, input.routines);
    if next.Some? {
      assert IsNextStart(input.now, input.routines, next.value);
    }
  }

  /** What the authority in force leaves within an undisturbed window. */
  lemma BalanceLeft(disk: Disk, control: RemoteControl, counter: Counter, begin: int, end: int, now: int)
    requires SoundRows(disk) && Undisturbed(disk, control, begin, end)
    requires counter.date == DateOf(now) && begin <= now <= end && counter.seconds >= 0
    requires control.online ==> counter.seconds >= disk.anchor.value.usage
    ensures var input := InputFor(disk, counter, control, now);
      && Validate(input).None?
      && Remaining(input) == Positive(Allowance(disk, control, DateOf(begin)) - counter.seconds) * SECOND
  {
    InputIsValid(disk, counter, control, now);
    assert DateOf(now) == DateOf(begin);
  }

  /** The decision within an undisturbed window, from the counter alone. */
  lemma UndisturbedDecision(disk: Disk, control: RemoteControl, counter: Counter, begin: int, end: int, now: int)
    requires SoundRows(disk) && Undisturbed(disk, control, begin, end)
    requires counter.date == DateOf(now) && begin <= now <= end && counter.seconds >= 0
    requires control.online ==> counter.seconds >= disk.anchor.value.usage
    ensures var d := DecideAt(disk, counter, control, now);
      var left := Allowance(disk, control, DateOf(begin)) - counter.seconds;
      && d.allowed == d.shouldCount == (left > 0)
      && (left > 0 ==>
          && d.nextBlockAt.Some?
          && (d.nextBlockAt.value == now + left * SECOND || end < d.nextBlockAt.value <= now + left * SECOND))
  {
    BalanceLeft(disk, control, counter, begin, end, now);
    FreeDecision(InputFor(disk, counter, control, now), end);
  }

  lemma TrackedElapse(b: Books, elapsed: nat, start: int, since: nat, every: int)
    requires SoundBooks(b, every)
    requires b.counter.seconds * SECOND + b.fraction == start * SECOND + since
    ensures var after := Elapse(b, elapsed, every);
      && after.counter.seconds * SECOND + after.fraction == start * SECOND + since + elapsed
      && after.counter.seconds == start + WholeSeconds(since + elapsed)
  {
    ElapseSound(b, elapsed, every);
  }

  /** The counter a cycle inside the window arrives at. */
  lemma TrackedAccount(m: Meter, disk: Disk, control: RemoteControl, w: Window, now: int, later: int, every: int)
    requires Ready(m, disk, every) && Tracks(m, w, now)
    requires now <= later <= w.end && DateOf(later) == DateOf(w.begin)
    ensures var b := Account(m, disk, control, true, later, every);
      && b.counter.seconds == CountAfter(w.start, w.allowance, Presence(w, later))
      && (TimeLeft(w, later) ==>
            b.counter.seconds * SECOND + b.fraction == w.start * SECOND + Presence(w, later))
  {
    var b := Books(m.counter.value, disk.usage, m.fraction, 0);
    if m.lastShouldCount {
      var elapsed := CappedElapsed(now, later, m.lastCountUntil);
      TrackedElapse(b, elapsed, w.start, Presence(w, now), every);
    }
  }

  datatype Visit = Visit(now: int, sessions: seq<Session>)

  /** Someone is present, and no synchronization is awaited. */
  ghost predicate Counts(disk: Disk, control: RemoteControl, v: Visit)
    requires disk.policy.Some?
  {
    v.sessions != [] && !Awaiting(disk, control, FirstActive(v.sessions), DateOf(v.now))
  }

  /** Nothing disturbs the window, and it starts above the confirmed usage. */
  ghost predicate Opens(disk: Disk, control: RemoteControl, w: Window) {
    && Undisturbed(disk, control, w.begin, w.end)
    && Allowance(disk, control, DateOf(w.begin)) == w.allowance
    && Floor(disk, DateOf(w.begin)) <= w.start
  }

  /** What the accounting of a cycle leaves, once reconciled and decided upon. */
  lemma TrackedDecision(b: Books, m: Meter, disk: Disk, control: RemoteControl, v: Visit, w: Window, every: int)
    requires Ready(m, disk, every) && Opens(disk, control, w) && Counts(disk, control, v)
    requires w.begin <= v.now <= w.end && DateOf(v.now) == DateOf(w.begin)
    requires b == Account(m, ObserveEffect(disk, control, FirstActive(v.sessions)), control, true, v.now, every)
    requires b.counter.seconds == CountAfter(w.start, w.allowance, Presence(w, v.now))
    requires TimeLeft(w, v.now) ==>
      b.counter.seconds * SECOND + b.fraction == w.start * SECOND + Presence(w, v.now)
    ensures var c := Step(m, disk, control, v.sessions, v.now, every);
      Tracks(c.meter, w, v.now) && (c.decision.allowed <==> TimeLeft(w, v.now))
  {
    EffectKeepsRows(disk, control, FirstActive(v.sessions));
    assert Reconcile(b, disk.anchor, DateOf(v.now)) == b;
    UndisturbedDecision(disk, control, b.counter, w.begin, w.end, v.now);
  }

  lemma {:induction false} TrackedCycle(m: Meter, disk: Disk, control: RemoteControl, v: Visit,
                                        w: Window, now: int, every: int)
    requires Ready(m, disk, every) && Opens(disk, control, w) && Counts(disk, control, v)
    requires Tracks(m, w, now) && now <= v.now <= w.end
    ensures var c := Step(m, disk, control, v.sessions, v.now, every);
      Tracks(c.meter, w, v.now) && (c.decision.allowed <==> TimeLeft(w, v.now))
  {
    SameDate(w.begin, v.now, w.end);
    var observed := ObserveEffect(disk, control, FirstActive(v.sessions));
    EffectKeepsRows(disk, control, FirstActive(v.sessions));
    TrackedAccount(m, observed, control, w, now, v.now, every);
    TrackedDecision(Account(m, observed, control, true, v.now, every), m, disk, control, v, w, every);
  }

  lemma SameDate(begin: int, now: int, end: int)
    requires begin <= now <= end && DateOf(begin) == DateOf(end)
    ensures DateOf(now) == DateOf(begin)
  {
  }

  /** The cycle reached after visiting every instant of a list in turn. */
  ghost function Visits(c: Cycle, control: RemoteControl, visits: seq<Visit>, every: int): Cycle
    requires Ready(c.meter, c.disk, every)
    decreases |visits|
  {
    if visits == [] then c else
      StepSound(c.meter, c.disk, control, visits[0].sessions, visits[0].now, every);
      Visits(Step(c.meter, c.disk, control, visits[0].sessions, visits[0].now, every), control, visits[1..], every)
  }

  ghost predicate Increasing(from: int, visits: seq<Visit>, end: int) {
    && (forall k :: 0 <= k < |visits| ==> from <= visits[k].now <= end)
    && (forall j, k :: 0 <= j < k < |visits| ==> visits[j].now <= visits[k].now)
  }

  /** Everything a visit must find to keep the count on its closed form. */
  ghost predicate Following(c: Cycle, control: RemoteControl, visits: seq<Visit>, w: Window, now: int, every: int) {
    && Ready(c.meter, c.disk, every)
    && Opens(c.disk, control, w)
    && Increasing(now, visits, w.end)
    && (forall v :: v in visits ==> Counts(c.disk, control, v))
    && Tracks(c.meter, w, now)
    && (c.decision.allowed <==> TimeLeft(w, now))
  }

  lemma {:induction false} VisitOnce(c: Cycle, next: Cycle, control: RemoteControl, visits: seq<Visit>,
                                     w: Window, now: int, every: int)
    requires visits != [] && Following(c, control, visits, w, now, every)
    requires next == Step(c.meter, c.disk, control, visits[0].sessions, visits[0].now, every)
    ensures Following(next, control, visits[1..], w, visits[0].now, every)
  {
    var v := visits[0];
    StepSound(c.meter, c.disk, control, v.sessions, v.now, every);
    TrackedCycle(c.meter, c.disk, control, v, w, now, every);
    SettingsCarry(c.disk, next.disk, control, visits, w);
  }

  lemma {:induction false} SettingsCarry(disk: Disk, later: Disk, control: RemoteControl, visits: seq<Visit>, w: Window)
    requires SameSettings(disk, later) && Opens(disk, control, w)
    requires visits != [] && forall v :: v in visits ==> Counts(disk, control, v)
    ensures Opens(later, control, w)
    ensures forall v :: v in visits[1..] ==> Counts(later, control, v)
  {
    forall v | v in visits[1..] ensures Counts(later, control, v) {
      assert Counts(disk, control, v);
    }
  }

  /** The closed form: the counter, and whether use is still allowed. */
  ghost predicate Settled(final: Cycle, w: Window, last: int) {
    && w.begin <= last
    && final.meter.counter.Some?
    && final.meter.counter.value.seconds == CountAfter(w.start, w.allowance, Presence(w, last))
    && (final.decision.allowed <==> TimeLeft(w, last))
  }

  /** The first visit of a list, and what is left to visit. */
  lemma {:induction false} VisitFirst(c: Cycle, control: RemoteControl, visits: seq<Visit>,
                                      w: Window, now: int, every: int) returns (next: Cycle)
    requires visits != [] && Following(c, control, visits, w, now, every)
    ensures Ready(next.meter, next.disk, every)
    ensures next == Step(c.meter, c.disk, control, visits[0].sessions, visits[0].now, every)
    ensures Following(next, control, visits[1..], w, visits[0].now, every)
    ensures Visits(c, control, visits, every) == Visits(next, control, visits[1..], every)
  {
    hide Step, Tracks, Opens, Counts, Increasing, TimeLeft;
    next := Step(c.meter, c.disk, control, visits[0].sessions, visits[0].now, every);
    VisitOnce(c, next, control, visits, w, now, every);
  }

  lemma NothingVisited(c: Cycle, control: RemoteControl, w: Window, now: int, every: int)
    requires Ready(c.meter, c.disk, every) && Following(c, control, [], w, now, every)
    ensures Settled(Visits(c, control, [], every), w, now)
  {
    hide Step;
  }

  function LastInstant(from: int, visits: seq<Visit>): int {
    if visits == [] then from else visits[|visits| - 1].now
  }

  lemma {:induction false} VisitsTrack(c: Cycle, control: RemoteControl, visits: seq<Visit>,
                                       w: Window, now: int, every: int)
    requires Ready(c.meter, c.disk, every) && Following(c, control, visits, w, now, every)
    ensures Settled(Visits(c, control, visits, every), w, LastInstant(now, visits))
    decreases |visits|
  {
    hide Following, Visits, Settled, Ready, Step;
    if visits == [] {
      NothingVisited(c, control, w, now, every);
    } else {
      var next := VisitFirst(c, control, visits, w, now, every);
      VisitsTrack(next, control, visits[1..], w, visits[0].now, every);
    }
  }

  /** Any cycle opens a window: what it counted and carries is where the window starts. */
  lemma {:induction false} OpeningTracks(opening: Cycle, m: Meter, disk: Disk, control: RemoteControl,
                                         first: Visit, end: int, every: int) returns (w: Window)
    requires Ready(m, disk, every) && Undisturbed(disk, control, first.now, end)
    requires first.now <= end && Counts(disk, control, first)
    requires opening == Step(m, disk, control, first.sessions, first.now, every)
    ensures opening.meter.counter.Some? && opening.meter.fraction >= 0
    ensures w == Window(first.now, end, opening.meter.counter.value.seconds, opening.meter.fraction,
                        Allowance(disk, control, DateOf(first.now)))
    ensures Tracks(opening.meter, w, first.now) && (opening.decision.allowed <==> TimeLeft(w, first.now))
    ensures Opens(disk, control, w)
  {
    hide Step, Account, Reconcile, DecideAt, ObserveEffect;
    var r := CycleFromBooks(opening, m, disk, control, first.sessions, first.now, every);
    StepSound(m, disk, control, first.sessions, first.now, every);
    var seen := ObserveEffect(disk, control, FirstActive(first.sessions));
    ReconcileSound(Account(m, seen, control, true, first.now, every), disk.anchor, DateOf(first.now), every);
    UndisturbedDecision(disk, control, r.counter, first.now, end, first.now);
    w := Window(first.now, end, opening.meter.counter.value.seconds, opening.meter.fraction,
                Allowance(disk, control, DateOf(first.now)));
  }

  /** From any cycle on, whatever increasing sequence of instants the daemon polls
      within an undisturbed window, the counter ends at min(allowance, s + whole
      seconds of carried fraction plus elapsed time), and use is denied exactly once
      the allowance is reached. */
  lemma {:induction false} PollingIndependence(m: Meter, disk: Disk, control: RemoteControl, first: Visit,
                                               visits: seq<Visit>, end: int, every: int)
    requires Ready(m, disk, every) && Undisturbed(disk, control, first.now, end)
    requires first.now <= end && Increasing(first.now, visits, end)
    requires forall v :: v in [first] + visits ==> Counts(disk, control, v)
    ensures var opening := Step(m, disk, control, first.sessions, first.now, every);
      && Ready(opening.meter, opening.disk, every)
      && opening.meter.counter.Some? && 0 <= opening.meter.fraction < SECOND
      && Settled(Visits(opening, control, visits, every),
                 Window(first.now, end, opening.meter.counter.value.seconds, opening.meter.fraction,
                        Allowance(disk, control, DateOf(first.now))),
                 LastInstant(first.now, visits))
  {
    hide Step, Visits, Tracks, Settled, Undisturbed;
    var opening := Step(m, disk, control, first.sessions, first.now, every);
    var all := [first] + visits;
    assert Counts(disk, control, all[0]) && all[1..] == visits;
    var w := OpeningTracks(opening, m, disk, control, first, end, every);
    StepSound(m, disk, control, first.sessions, first.now, every);
    SettingsCarry(disk, opening.disk, control, all, w);
    VisitsTrack(opening, control, visits, w, first.now, every);
  }
}
