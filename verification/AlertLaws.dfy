/**
  Warnings over whole windows of use: whatever the polling schedule, and although
  the predicted end of the quota moves with the fraction of a second carried, the
  daemon skips no threshold.
*/
module AlertLaws {
  import opened Wrappers
  import opened Calendar
  import opened Schedule
  import opened Policy
  import opened Records
  import opened AgentTables
  import opened Accounting
  import opened AccountingLaws
  import opened Alert
  import Daemon

  // ------------------------------------------------- the decisions of a window

  /** A cycle within a window: it follows the closed form, and while time is left it
      decides from the counter it has reached. */
  ghost predicate Arrived(c: Cycle, disk: Disk, control: RemoteControl, w: Window, now: int) {
    && disk.policy.Some? && SameSettings(disk, c.disk)
    && Tracks(c.meter, w, now)
    && !c.awaiting && (c.decision.allowed <==> TimeLeft(w, now))
    && c.meter.counter.value.seconds >= 0
    && (TimeLeft(w, now) ==> c.decision == DecideAt(disk, c.meter.counter.value, control, now))
  }

  /** What a cycle decides, in terms of the counter it leaves. */
  lemma {:induction false} CycleDecides(m: Meter, disk: Disk, control: RemoteControl, v: Visit, every: int)
    requires Ready(m, disk, every) && Counts(disk, control, v)
    ensures var c := Step(m, disk, control, v.sessions, v.now, every);
      && !c.awaiting && SameSettings(disk, c.disk)
      && c.meter.counter.Some? && c.meter.counter.value.seconds >= 0
      && (c.decision.allowed ==> c.decision == DecideAt(disk, c.meter.counter.value, control, v.now))
  {
    hide Step, Account, Reconcile, DecideAt, ObserveEffect;
    var c := Step(m, disk, control, v.sessions, v.now, every);
    StepSound(m, disk, control, v.sessions, v.now, every);
    var r := CycleFromBooks(c, m, disk, control, v.sessions, v.now, every);
  }

  lemma {:induction false} ArriveNext(c: Cycle, disk: Disk, control: RemoteControl, v: Visit,
                                      w: Window, now: int, every: int)
    requires Ready(c.meter, c.disk, every) && Opens(c.disk, control, w) && Counts(c.disk, control, v)
    requires now <= v.now <= w.end && Arrived(c, disk, control, w, now)
    ensures Arrived(Step(c.meter, c.disk, control, v.sessions, v.now, every), disk, control, w, v.now)
  {
    hide Step, DecideAt, Opens, Counts;
    CycleDecides(c.meter, c.disk, control, v, every);
    TrackedCycle(c.meter, c.disk, control, v, w, now, every);
    var next := Step(c.meter, c.disk, control, v.sessions, v.now, every);
    DecisionIgnoresUsage(disk, c.disk, next.meter.counter.value, control, v.now);
  }

  lemma {:induction false} VisitsArrive(c: Cycle, disk: Disk, control: RemoteControl, visits: seq<Visit>,
                                        w: Window, now: int, every: int)
    requires Ready(c.meter, c.disk, every) && Following(c, control, visits, w, now, every)
    requires Arrived(c, disk, control, w, now)
    ensures Arrived(Visits(c, control, visits, every), disk, control, w, LastInstant(now, visits))
    decreases |visits|
  {
    hide Ready, Step, Arrived;
    if visits != [] {
      var next := VisitFirst(c, control, visits, w, now, every);
      ArriveNext(c, disk, control, visits[0], w, now, every);
      VisitsArrive(next, disk, control, visits[1..], w, visits[0].now, every);
    }
  }

  /** The instant since which every second of a window has been counted, and how many
      there are to count. */
  function Base(w: Window): int {
    w.begin - w.carried
  }

  function Total(w: Window): int {
    w.allowance - w.start
  }

  function CachedRoutines(disk: Disk): seq<Routine>
    requires disk.policy.Some?
  {
    EnabledRoutines(disk.policy.value.routines)
  }

  /** No routine starts before the quota of the window is used up. */
  ghost predicate QuotaAhead(disk: Disk, w: Window)
    requires disk.policy.Some?
  {
    forall t :: w.begin < t < Base(w) + (Total(w) + 1) * SECOND ==> !AnyStartsAt(CachedRoutines(disk), t)
  }

  /** The next routine starts at this instant, no later than the quota can end. */
  ghost predicate RoutineAhead(disk: Disk, w: Window, start: int)
    requires disk.policy.Some?
  {
    IsNextStart(w.begin, CachedRoutines(disk), start) && start <= Base(w) + Total(w) * SECOND
  }

  lemma {:induction false} QuotaPredicted(input: Input)
    requires Validate(input).None? && Decide(input).shouldCount
    requires forall t :: input.now < t <= input.now + Remaining(input) ==> !AnyStartsAt(input.routines, t)
    ensures Decide(input).nextBlockAt == Some(input.now + Remaining(input))
    ensures Decide(input).nextBlockReason == Some(QuotaExhausted)
  {
    var next := NextStart(input.now, input.routines);
    if next.Some? {
      assert IsNextStart(input.now, input.routines, next.value);
    }
  }

  lemma {:induction false} RoutinePredicted(input: Input, start: int)
    requires Validate(input).None? && Decide(input).shouldCount
    requires IsNextStart(input.now, input.routines, start) && start <= input.now + Remaining(input)
    ensures Decide(input).nextBlockAt == Some(start)
    ensures Decide(input).nextBlockReason == Some(RoutineActive)
  {
    NextStartUnique(input.now, input.routines, start);
  }

  /** A cycle that has time left counts it, and what is left is the rest of the window. */
  lemma {:induction false} ArrivedInput(c: Cycle, disk: Disk, control: RemoteControl, w: Window, now: int)
    returns (input: Input)
    requires SoundRows(disk) && Opens(disk, control, w) && Arrived(c, disk, control, w, now)
    requires now <= w.end && TimeLeft(w, now)
    ensures Validate(input).None? && input.now == now && input.routines == CachedRoutines(disk)
    ensures c.decision == Decide(input) && c.decision.allowed && c.decision.shouldCount
    ensures Base(w) <= now && now + Remaining(input) == CountdownBlock(Base(w), Total(w), now)
  {
    var counter := c.meter.counter.value;
    SameDate(w.begin, now, w.end);
    input := InputFor(disk, counter, control, now);
    BalanceLeft(disk, control, counter, w.begin, w.end, now);
    UndisturbedDecision(disk, control, counter, w.begin, w.end, now);
  }

  lemma {:induction false} ArrivedCountsDown(c: Cycle, disk: Disk, control: RemoteControl, w: Window, now: int)
    requires SoundRows(disk) && Opens(disk, control, w) && Arrived(c, disk, control, w, now)
    requires now <= w.end && TimeLeft(w, now) && QuotaAhead(disk, w)
    ensures CountsDown(c.decision, Base(w), Total(w), now, Some(QuotaExhausted))
  {
    hide Decide, Opens, CountdownBlock, EnabledRoutines;
    var input := ArrivedInput(c, disk, control, w, now);
    CountdownShape(Base(w), Total(w), now);
    QuotaPredicted(input);
  }

  lemma {:induction false} ArrivedFacesRoutine(c: Cycle, disk: Disk, control: RemoteControl, w: Window, now: int,
                                               start: int)
    requires SoundRows(disk) && Opens(disk, control, w) && Arrived(c, disk, control, w, now)
    requires now <= w.end && TimeLeft(w, now) && RoutineAhead(disk, w, start)
    ensures c.decision.allowed && now < start
    ensures c.decision.nextBlockAt == Some(start) && c.decision.nextBlockReason == Some(RoutineActive)
  {
    hide Decide, CountdownBlock, EnabledRoutines, Validate;
    var input := ArrivedInput(c, disk, control, w, now);
    CountdownShape(Base(w), Total(w), now);
    RoutinePredicted(input, start);
  }

  // ------------------------------------------------- what the tracker is shown

  /** The tracker is shown the decision under its revision, session in front and date;
      an alert may be delivered to a session that is open and waits for nothing. */
  lemma ShownMeaning(decision: Decision, p: PolicyRow, front: Option<Session>, awaiting: bool, now: int)
    ensures var o := Daemon.Shown(decision, p, front, awaiting, now);
      && o.decision == decision && o.warningMinutes == p.warningMinutes && o.now == now
      && o.period.revision == p.revision && o.period.date == now / DAY
      && o.period.sessionId == (if front.Some? then front.value.key else "")
      && (o.deliver <==> front.Some? && !front.value.locked && !awaiting)
  {
  }

  function KeyOf(sessions: seq<Session>): Id {
    if FirstActive(sessions).Some? then FirstActive(sessions).value.key else ""
  }

  /** A window whose opening cycle `c` is followed by these visits, with one session in
      front and time left throughout. */
  ghost predicate Attended(c: Cycle, disk: Disk, control: RemoteControl, visits: seq<Visit>, w: Window, key: Id,
                           every: int) {
    && SoundRows(disk) && Opens(disk, control, w)
    && Ready(c.meter, c.disk, every) && Arrived(c, disk, control, w, w.begin)
    && Following(c, control, visits, w, w.begin, every)
    && (forall v :: v in visits ==> KeyOf(v.sessions) == key)
    && w.begin <= w.end && w.begin <= LastInstant(w.begin, visits) && TimeLeft(w, LastInstant(w.begin, visits))
  }

  /** What the alert tracker is shown at one visit. */
  ghost function ShownAt(c: Cycle, control: RemoteControl, visits: seq<Visit>, k: nat, every: int): Observation
    requires Ready(c.meter, c.disk, every) && k < |visits|
  {
    var met := Visits(c, control, visits[..k + 1], every);
    Daemon.Shown(met.decision, c.disk.policy.value, FirstActive(visits[k].sessions), met.awaiting, visits[k].now)
  }

  ghost function Observed(c: Cycle, control: RemoteControl, visits: seq<Visit>, every: int): seq<Observation>
    requires Ready(c.meter, c.disk, every)
  {
    seq(|visits|, k requires 0 <= k < |visits| => ShownAt(c, control, visits, k, every))
  }

  lemma {:induction false} ObservedPrefix(c: Cycle, control: RemoteControl, visits: seq<Visit>, k: nat, every: int)
    requires Ready(c.meter, c.disk, every) && k <= |visits|
    ensures Observed(c, control, visits, every)[..k] == Observed(c, control, visits[..k], every)
  {
    hide Ready, Visits;
    forall j | 0 <= j < k
      ensures ShownAt(c, control, visits, j, every) == ShownAt(c, control, visits[..k], j, every)
    {
      assert visits[..k][..j + 1] == visits[..j + 1];
    }
  }

  /** Each visit on its own: it has time left, and the cycle it runs is one of the window's. */
  lemma {:induction false} MetAt(c: Cycle, disk: Disk, control: RemoteControl, visits: seq<Visit>, w: Window, key: Id,
                                 k: nat, every: int)
    requires Attended(c, disk, control, visits, w, key, every) && k <= |visits|
    ensures Attended(c, disk, control, visits[..k], w, key, every)
    ensures var last := LastInstant(w.begin, visits[..k]);
      && w.begin <= last <= w.end && TimeLeft(w, last)
      && Arrived(Visits(c, control, visits[..k], every), disk, control, w, last)
  {
    hide Ready, Opens, Arrived, Counts, Tracks, Visits;
    var front := visits[..k];
    assert LastInstant(w.begin, front) <= LastInstant(w.begin, visits);
    assert w.begin <= LastInstant(w.begin, front);
    SecondsGrow(Base(w), LastInstant(w.begin, front), LastInstant(w.begin, visits));
    assert TimeLeft(w, LastInstant(w.begin, front));
    VisitsArrive(c, disk, control, front, w, w.begin, every);
  }

  /** The tracker right after the opening cycle `c` of a window began a cycle of alerts. */
  ghost predicate Armed(t: Track, c: Cycle, disk: Disk, w: Window, key: Id)
    requires disk.policy.Some?
  {
    t == Track(true, true, Period(disk.policy.value.revision, key, DateOf(w.begin)), c.decision.nextBlockReason,
               w.begin, c.decision.nextBlockAt, {})
  }

  /** What the observations of a window share. */
  ghost predicate ShownInWindow(o: Observation, t: Track, disk: Disk, d: Decision, now: int)
    requires disk.policy.Some?
  {
    o.warningMinutes == disk.policy.value.warningMinutes && o.period == t.period && o.now == now && o.decision == d
  }

  lemma {:induction false} ShownAtVisit(t: Track, c: Cycle, disk: Disk, control: RemoteControl, visits: seq<Visit>,
                                        w: Window, key: Id, k: nat, every: int)
    requires Attended(c, disk, control, visits, w, key, every) && Armed(t, c, disk, w, key) && k < |visits|
    ensures var met := Visits(c, control, visits[..k + 1], every);
      && w.begin <= visits[k].now <= w.end && TimeLeft(w, visits[k].now)
      && Arrived(met, disk, control, w, visits[k].now)
      && ShownInWindow(ShownAt(c, control, visits, k, every), t, disk, met.decision, visits[k].now)
  {
    hide Ready, Counts, Tracks, Visits, DecideAt;
    MetAt(c, disk, control, visits, w, key, k + 1, every);
    assert LastInstant(w.begin, visits[..k + 1]) == visits[k].now;
    assert KeyOf(visits[k].sessions) == key;
    SameDate(w.begin, visits[k].now, w.end);
  }

  // ------------------------------------------------------------- nothing is skipped

  lemma {:induction false} QuotaCountdown(t: Track, c: Cycle, disk: Disk, control: RemoteControl, visits: seq<Visit>,
                                          w: Window, key: Id, every: int)
    requires Attended(c, disk, control, visits, w, key, every) && Armed(t, c, disk, w, key) && QuotaAhead(disk, w)
    ensures Countdown(t, Base(w), Total(w), disk.policy.value.warningMinutes, Observed(c, control, visits, every))
  {
    hide Ready, Opens, Counts, Tracks, Visits, DecideAt, CountdownBlock, TimeLeft, QuotaAhead, ShownAt;
    var run := Observed(c, control, visits, every);
    MetAt(c, disk, control, visits, w, key, 0, every);
    assert visits[..0] == [];
    assert TimeLeft(w, w.begin);
    ArrivedCountsDown(c, disk, control, w, w.begin);
    forall k | 0 <= k < |visits|
      ensures w.begin <= run[k].now == visits[k].now
      ensures run[k].warningMinutes == disk.policy.value.warningMinutes && run[k].period == t.period
      ensures CountsDown(run[k].decision, Base(w), Total(w), run[k].now, t.reason)
    {
      ShownAtVisit(t, c, disk, control, visits, w, key, k, every);
      ArrivedCountsDown(Visits(c, control, visits[..k + 1], every), disk, control, w, visits[k].now);
    }
  }

  /** The seconds counted when a number of visits have been made. */
  ghost function CountedAfter(c: Cycle, control: RemoteControl, visits: seq<Visit>, k: nat, every: int): int
    requires Ready(c.meter, c.disk, every) && k <= |visits|
  {
    var met := Visits(c, control, visits[..k], every);
    if met.meter.counter.Some? then met.meter.counter.value.seconds else 0
  }

  /** A threshold lies where this many counted seconds leave its lead of the allowance. */
  predicate Passes(allowance: int, warningMinutes: nat, from: int, to: int, kind: Kind) {
    IsPlanned(kind, warningMinutes) && from < allowance - LeadSeconds(kind, warningMinutes) <= to
  }

  predicate PassesSome(allowance: int, warningMinutes: nat, from: int, to: int) {
    exists kind :: Passes(allowance, warningMinutes, from, to, kind)
  }

  /** A visit that passes a threshold, and may deliver, returns an alert. */
  ghost predicate WarnsAt(t: Track, c: Cycle, control: RemoteControl, visits: seq<Visit>, allowance: int,
                          warningMinutes: nat, k: nat, every: int)
    requires Ready(c.meter, c.disk, every) && k < |visits|
  {
    var run := Observed(c, control, visits, every);
    var before, after := CountedAfter(c, control, visits, k, every), CountedAfter(c, control, visits, k + 1, every);
    run[k].deliver && PassesSome(allowance, warningMinutes, before, after) ==>
      |Returned(TrackAfter(t, run[..k]), run[k])| == 1
  }

  /** The warnings of a window, by what has been counted: every threshold passed since
      the opening is consumed, none is consumed before it is reached, and every visit
      warns of what it passes. */
  ghost predicate Warned(t: Track, c: Cycle, control: RemoteControl, visits: seq<Visit>, allowance: int,
                         warningMinutes: nat, every: int)
    requires Ready(c.meter, c.disk, every)
  {
    && Consumes(TrackAfter(t, Observed(c, control, visits, every)).emitted, allowance, warningMinutes,
                CountedAfter(c, control, visits, 0, every), CountedAfter(c, control, visits, |visits|, every))
    && (forall k :: 0 <= k < |visits| ==> WarnsAt(t, c, control, visits, allowance, warningMinutes, k, every))
  }

  /** What is counted, while time is left, is the window's closed form. */
  lemma {:induction false} CountedInWindow(c: Cycle, disk: Disk, control: RemoteControl, visits: seq<Visit>, w: Window,
                                           key: Id, k: nat, every: int)
    requires Attended(c, disk, control, visits, w, key, every) && k <= |visits|
    ensures Base(w) <= w.begin <= LastInstant(w.begin, visits[..k])
    ensures CountedAfter(c, control, visits, k, every)
         == w.start + WholeSeconds(LastInstant(w.begin, visits[..k]) - Base(w))
  {
    hide Ready, Opens, Counts, Visits, DecideAt, Following;
    MetAt(c, disk, control, visits, w, key, k, every);
  }

  /** A countdown observed to its last observation, in counted seconds. */
  lemma {:induction false} QuotaWindowStep(t: Track, c: Cycle, disk: Disk, control: RemoteControl, visits: seq<Visit>,
                                           w: Window, key: Id, every: int)
    requires Attended(c, disk, control, visits, w, key, every) && Armed(t, c, disk, w, key) && QuotaAhead(disk, w)
    ensures var run := Observed(c, control, visits, every);
      Consumed(TrackAfter(t, run).emitted, Base(w), Total(w), disk.policy.value.warningMinutes, w.begin,
               LastInstant(w.begin, visits))
  {
    hide Ready, Opens, Counts, Visits, DecideAt, Following, Countdown, Consumed;
    QuotaCountdown(t, c, disk, control, visits, w, key, every);
    CountdownSkipsNothing(t, Base(w), Total(w), disk.policy.value.warningMinutes, Observed(c, control, visits, every));
  }

  /** The last of these visits warns of the thresholds it passes. */
  lemma {:induction false} LastVisitWarns(t: Track, c: Cycle, disk: Disk, control: RemoteControl, visits: seq<Visit>,
                                          w: Window, key: Id, every: int)
    requires Attended(c, disk, control, visits, w, key, every) && Armed(t, c, disk, w, key) && QuotaAhead(disk, w)
    requires visits != []
    ensures WarnsAt(t, c, control, visits, w.allowance, disk.policy.value.warningMinutes, |visits| - 1, every)
  {
    hide Ready, Opens, Counts, Visits, DecideAt, Countdown, Consumed, CountedAfter, WholeSeconds, ShownAt;
    var minutes := disk.policy.value.warningMinutes;
    var run, k := Observed(c, control, visits, every), |visits| - 1;
    QuotaCountdown(t, c, disk, control, visits, w, key, every);
    CountedInWindow(c, disk, control, visits, w, key, k, every);
    CountedInWindow(c, disk, control, visits, w, key, k + 1, every);
    ShownInstants(t, c, disk, control, visits, w, key, every);
    var from, to := CountedAfter(c, control, visits, k, every), CountedAfter(c, control, visits, k + 1, every);
    if run[k].deliver && PassesSome(w.allowance, minutes, from, to) {
      var kind :| Passes(w.allowance, minutes, from, to, kind);
      assert visits[..k + 1] == visits;
      assert DueBetween(Base(w), Total(w), minutes, LastSeen(t, run[..k]), run[k].now, kind);
      CountdownReturns(t, Base(w), Total(w), minutes, run, kind);
    }
  }

  lemma {:induction false} ShownInstants(t: Track, c: Cycle, disk: Disk, control: RemoteControl, visits: seq<Visit>,
                                         w: Window, key: Id, every: int)
    requires Attended(c, disk, control, visits, w, key, every) && Armed(t, c, disk, w, key)
    ensures var run := Observed(c, control, visits, every);
      forall k :: 0 <= k <= |visits| ==> LastSeen(t, run[..k]) == LastInstant(w.begin, visits[..k])
  {
    hide Ready, Opens, Counts, Visits, Arrived, Following;
  }

  /** Every threshold passed since the opening is consumed, and none before it is reached. */
  ghost predicate Consumes(emitted: set<Kind>, allowance: int, warningMinutes: nat, begun: int, counted: int) {
    && (forall kind :: Passes(allowance, warningMinutes, begun, counted, kind) ==> kind in emitted)
    && (forall kind :: kind in emitted ==> Passes(allowance, warningMinutes, begun - 1, counted, kind))
  }

  lemma {:induction false} QuotaWindowConsumes(t: Track, c: Cycle, disk: Disk, control: RemoteControl,
                                               visits: seq<Visit>, w: Window, key: Id, every: int)
    requires Attended(c, disk, control, visits, w, key, every) && Armed(t, c, disk, w, key) && QuotaAhead(disk, w)
    ensures Consumes(TrackAfter(t, Observed(c, control, visits, every)).emitted, w.allowance,
                     disk.policy.value.warningMinutes, CountedAfter(c, control, visits, 0, every),
                     CountedAfter(c, control, visits, |visits|, every))
  {
    hide Ready, Opens, Counts, Visits, DecideAt, CountedAfter, WholeSeconds, ShownAt, Tracks, Following;
    QuotaWindowStep(t, c, disk, control, visits, w, key, every);
    CountedInWindow(c, disk, control, visits, w, key, 0, every);
    CountedInWindow(c, disk, control, visits, w, key, |visits|, every);
    assert visits[..0] == [] && visits[..|visits|] == visits;
    var minutes := disk.policy.value.warningMinutes;
    forall kind | Passes(w.allowance, minutes, CountedAfter(c, control, visits, 0, every),
                         CountedAfter(c, control, visits, |visits|, every), kind)
      ensures DueBetween(Base(w), Total(w), minutes, w.begin, LastInstant(w.begin, visits), kind)
    {
    }
  }

  lemma {:induction false} WarnsLonger(t: Track, c: Cycle, control: RemoteControl, visits: seq<Visit>, allowance: int,
                                       minutes: nat, k: nat, every: int)
    requires Ready(c.meter, c.disk, every) && k < |visits|
    requires WarnsAt(t, c, control, visits[..k + 1], allowance, minutes, k, every)
    ensures WarnsAt(t, c, control, visits, allowance, minutes, k, every)
  {
    hide Ready, Visits, ShownAt, Returned, TrackAfter, PassesSome, Observed;
    var front := visits[..k + 1];
    ObservedPrefix(c, control, visits, k + 1, every);
    var run, head := Observed(c, control, visits, every), Observed(c, control, front, every);
    assert |run| == |visits| && |head| == k + 1 by {
      ObservedLength(c, control, visits, every);
      ObservedLength(c, control, front, every);
    }
    assert head[..k] == run[..k] && head[k] == run[k];
    assert front[..k] == visits[..k] && front[..k + 1] == visits[..k + 1];
  }

  lemma ObservedLength(c: Cycle, control: RemoteControl, visits: seq<Visit>, every: int)
    requires Ready(c.meter, c.disk, every)
    ensures |Observed(c, control, visits, every)| == |visits|
  {
  }

  lemma {:induction false} WarnsInPrefix(t: Track, c: Cycle, disk: Disk, control: RemoteControl, visits: seq<Visit>,
                                         w: Window, key: Id, k: nat, every: int)
    requires Attended(c, disk, control, visits, w, key, every) && Armed(t, c, disk, w, key) && QuotaAhead(disk, w)
    requires k < |visits|
    ensures WarnsAt(t, c, control, visits, w.allowance, disk.policy.value.warningMinutes, k, every)
  {
    hide Ready, Opens, Tracks, Following, WarnsAt, Visits;
    MetAt(c, disk, control, visits, w, key, k + 1, every);
    LastVisitWarns(t, c, disk, control, visits[..k + 1], w, key, every);
    WarnsLonger(t, c, control, visits, w.allowance, disk.policy.value.warningMinutes, k, every);
  }

  /** A window with its quota ahead: the tracker follows the count. */
  lemma {:induction false} QuotaWindowWarns(t: Track, c: Cycle, disk: Disk, control: RemoteControl, visits: seq<Visit>,
                                            w: Window, key: Id, every: int)
    requires Attended(c, disk, control, visits, w, key, every) && Armed(t, c, disk, w, key) && QuotaAhead(disk, w)
    ensures Warned(t, c, control, visits, w.allowance, disk.policy.value.warningMinutes, every)
  {
    hide Ready, Opens, Tracks, Following, Armed, QuotaAhead, Visits, WarnsAt, CountedAfter, Consumes, Observed;
    QuotaWindowConsumes(t, c, disk, control, visits, w, key, every);
    forall k | 0 <= k < |visits|
      ensures WarnsAt(t, c, control, visits, w.allowance, disk.policy.value.warningMinutes, k, every)
    {
      WarnsInPrefix(t, c, disk, control, visits, w, key, k, every);
    }
  }

  /** A window with a routine ahead: every cycle predicts its start. */
  lemma {:induction false} RoutineWindowSteady(t: Track, c: Cycle, disk: Disk, control: RemoteControl,
                                               visits: seq<Visit>, w: Window, key: Id, start: int, every: int)
    requires Attended(c, disk, control, visits, w, key, every) && Armed(t, c, disk, w, key)
    requires RoutineAhead(disk, w, start)
    ensures Steady(t, c.decision, disk.policy.value.warningMinutes, Observed(c, control, visits, every))
    ensures c.decision.nextBlockAt == Some(start)
  {
    hide Ready, Opens, Counts, Visits, DecideAt, Tracks, TimeLeft, RoutineAhead, ShownAt;
    var run := Observed(c, control, visits, every);
    MetAt(c, disk, control, visits, w, key, 0, every);
    assert visits[..0] == [];
    ArrivedFacesRoutine(c, disk, control, w, w.begin, start);
    forall k | 0 <= k < |visits|
      ensures w.begin <= run[k].now == visits[k].now
      ensures run[k].warningMinutes == disk.policy.value.warningMinutes && run[k].period == t.period
      ensures SameBlock(c.decision, run[k].decision)
    {
      ShownAtVisit(t, c, disk, control, visits, w, key, k, every);
      ArrivedFacesRoutine(Visits(c, control, visits[..k + 1], every), disk, control, w, visits[k].now, start);
    }
  }

  // ------------------------------------------------------- from any cycle onwards

  /** The window a cycle opens. */
  ghost function OpenedWindow(c: Cycle, disk: Disk, control: RemoteControl, begin: int, end: int): Window
    requires disk.policy.Some? && (control.online ==> disk.anchor.Some?)
    requires c.meter.counter.Some? && c.meter.fraction >= 0
  {
    Window(begin, end, c.meter.counter.value.seconds, c.meter.fraction, Allowance(disk, control, DateOf(begin)))
  }

  /** What the tracker is shown of the opening cycle. */
  function ShownFirst(c: Cycle, disk: Disk, first: Visit): Observation
    requires disk.policy.Some?
  {
    Daemon.Shown(c.decision, disk.policy.value, FirstActive(first.sessions), c.awaiting, first.now)
  }

  /** The observation begins a cycle of alerts: the tracker is new, or it rearms. */
  ghost predicate Begins(t: Track, o: Observation) {
    if t.initialized then t.previousCycle <= o.now && Rearms(t, o.decision, o.period) else t.emitted == {}
  }

  lemma BeginsArmed(t: Track, o: Observation)
    requires Begins(t, o) && o.warningMinutes >= 0 && HasFutureBlock(o.decision)
    ensures Track1(t, o) == Track(true, true, o.period, o.decision.nextBlockReason, o.now, o.decision.nextBlockAt, {})
  {
  }

  /** The daemon is polled at these visits, whatever it was doing before the first: the
      window is undisturbed, the same session stays in front, and time is left. */
  ghost predicate Polled(c: Cycle, m: Meter, disk: Disk, control: RemoteControl, first: Visit, visits: seq<Visit>,
                         end: int, every: int) {
    && Ready(m, disk, every) && Undisturbed(disk, control, first.now, end)
    && first.now <= end && Increasing(first.now, visits, end)
    && (forall v :: v in [first] + visits ==> Counts(disk, control, v) && KeyOf(v.sessions) == KeyOf(first.sessions))
    && c == Step(m, disk, control, first.sessions, first.now, every)
    && c.meter.counter.Some? && c.meter.fraction >= 0
    && first.now <= LastInstant(first.now, visits)
    && TimeLeft(OpenedWindow(c, disk, control, first.now, end), LastInstant(first.now, visits))
  }

  lemma {:induction false} PolledIsAttended(t: Track, c: Cycle, m: Meter, disk: Disk, control: RemoteControl,
                                            first: Visit, visits: seq<Visit>, end: int, every: int)
    requires Polled(c, m, disk, control, first, visits, end, every) && Begins(t, ShownFirst(c, disk, first))
    ensures var w, key := OpenedWindow(c, disk, control, first.now, end), KeyOf(first.sessions);
      && Attended(c, disk, control, visits, w, key, every)
      && Armed(Track1(t, ShownFirst(c, disk, first)), c, disk, w, key)
  {
    hide Step, DecideAt, Undisturbed, Tracks;
    var all := [first] + visits;
    assert Counts(disk, control, all[0]) && all[1..] == visits;
    var w := OpeningTracks(c, m, disk, control, first, end, every);
    StepSound(m, disk, control, first.sessions, first.now, every);
    SettingsCarry(disk, c.disk, control, all, w);
    CycleDecides(m, disk, control, first, every);
    OpeningArms(t, c, disk, control, first, visits, w, every);
  }

  lemma {:induction false} OpeningArms(t: Track, c: Cycle, disk: Disk, control: RemoteControl, first: Visit,
                                       visits: seq<Visit>, w: Window, every: int)
    requires Attended(c, disk, control, visits, w, KeyOf(first.sessions), every) && w.begin == first.now
    requires Begins(t, ShownFirst(c, disk, first))
    ensures Armed(Track1(t, ShownFirst(c, disk, first)), c, disk, w, KeyOf(first.sessions))
  {
    hide Ready, Opens, Tracks, Following, Visits, Decide, DecideAt, Begins, Rearms, Track1;
    MetAt(c, disk, control, visits, w, KeyOf(first.sessions), 0, every);
    assert visits[..0] == [];
    var input := ArrivedInput(c, disk, control, w, w.begin);
    Precedence(input);
    BeginsArmed(t, ShownFirst(c, disk, first));
  }

  /** From any cycle on that begins a cycle of alerts, with no routine before the quota
      ends: however the daemon is polled, its warnings follow the seconds counted. */
  lemma {:induction false} NoWarningSkipped(t: Track, c: Cycle, m: Meter, disk: Disk, control: RemoteControl,
                                            first: Visit, visits: seq<Visit>, end: int, every: int)
    requires Polled(c, m, disk, control, first, visits, end, every) && Begins(t, ShownFirst(c, disk, first))
    requires QuotaAhead(disk, OpenedWindow(c, disk, control, first.now, end))
    ensures Ready(c.meter, c.disk, every)
    ensures Warned(Track1(t, ShownFirst(c, disk, first)), c, control, visits,
                   Allowance(disk, control, DateOf(first.now)), disk.policy.value.warningMinutes, every)
  {
    hide Polled, Armed, Begins, QuotaAhead, Warned, Ready;
    PolledIsAttended(t, c, m, disk, control, first, visits, end, every);
    QuotaWindowWarns(Track1(t, ShownFirst(c, disk, first)), c, disk, control, visits,
                     OpenedWindow(c, disk, control, first.now, end), KeyOf(first.sessions), every);
  }

  /** With a routine before the quota ends, the observations are those of a block that
      stays put, so that no threshold of it is skipped either. */
  lemma {:induction false} RoutineKeepsSteady(t: Track, c: Cycle, m: Meter, disk: Disk, control: RemoteControl,
                                              first: Visit, visits: seq<Visit>, end: int, start: int, every: int)
    requires Polled(c, m, disk, control, first, visits, end, every) && Begins(t, ShownFirst(c, disk, first))
    requires RoutineAhead(disk, OpenedWindow(c, disk, control, first.now, end), start)
    ensures Ready(c.meter, c.disk, every) && c.decision.nextBlockAt == Some(start)
    ensures Steady(Track1(t, ShownFirst(c, disk, first)), c.decision, disk.policy.value.warningMinutes,
                   Observed(c, control, visits, every))
    ensures Track1(t, ShownFirst(c, disk, first)).emitted == {}
  {
    hide Polled, Begins, RoutineAhead, Steady, Ready;
    PolledIsAttended(t, c, m, disk, control, first, visits, end, every);
    RoutineWindowSteady(Track1(t, ShownFirst(c, disk, first)), c, disk, control, visits,
                        OpenedWindow(c, disk, control, first.now, end), KeyOf(first.sessions), start, every);
  }
}
