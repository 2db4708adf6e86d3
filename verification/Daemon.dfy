/**
  The daemon's control cycle, carried out step by step on its fields, its tracker
  and its store.
*/
module Daemon {
  import opened Wrappers
  import opened Calendar
  import opened Policy
  import opened Records
  import opened AgentTables
  import opened AgentStore
  import opened Usage
  import opened Accounting
  import opened AccountingLaws
  import opened Locking
  import Alert
  import Heartbeat
  import Client

  datatype StepError = TimeBackwards | PolicyMissing | SessionsUnavailable

  /** `enforced` is false when a lock or unlock request failed. */
  datatype Status = Status(
    decision: Decision,
    graphicalSession: bool,
    awaitingSynchronization: bool,
    usageSeconds: int,
    dueAlerts: seq<Alert.Alert>,
    enforced: bool)

  /** What the alert tracker is shown of a cycle: alerts may be delivered to an
      active, unlocked session whose balance is confirmed. */
  function Shown(decision: Decision, p: PolicyRow, session: Option<Session>, awaiting: bool, now: int)
    : Alert.Observation
  {
    Alert.Observation(
      decision, p.warningMinutes,
      Alert.Period(p.revision, if session.Some? then session.value.key else "", DateOf(now)),
      now, session.Some? && !session.value.locked && !awaiting)
  }

  class Daemon {
    const store: Store
    const every: int
    const source: Client.Client?
    const alerts: Alert.Tracker
    var tracker: UsageTracker?
    var lastAt: Option<int>
    var lastShouldCount: bool
    var lastHadSession: bool
    var lastCountUntil: Option<int>
    var fraction: int
    var lockAttempts: Attempts

    /** The control flags of the synchronization client, if there is one. */
    function Control(): RemoteControl
      reads this, source
    {
      if source == null then Heartbeat.Offline else source.control
    }

    function State(): Meter
      reads this, tracker
    {
      Meter(
        if tracker == null then None else Some(Counter(tracker.date, tracker.seconds, tracker.uncheckpointed)),
        lastAt, lastShouldCount, lastHadSession, lastCountUntil, fraction)
    }

    ghost predicate Valid()
      reads this, store, tracker, alerts
    {
      && store.Valid()
      && (tracker != null ==> tracker.store == store && tracker.every == every)
      && SoundMeter(State(), store.usage, every)
      && (alerts.initialized ==> lastAt.Some? && alerts.previousCycle <= lastAt.value)
    }

    constructor (store: Store, every: int, source: Client.Client?)
      requires every > 0 && store.Valid()
      ensures Valid() && this.store == store && this.every == every && this.source == source
      ensures State() == FreshMeter && tracker == null && lockAttempts == map[]
      ensures fresh(alerts) && alerts.State() == Alert.FreshTrack
    {
      this.store, this.every, this.source := store, every, source;
      alerts := new Alert.Tracker();
      tracker := null;
      lastAt, lastShouldCount, lastHadSession, lastCountUntil, fraction := None, false, false, None, 0;
      lockAttempts := map[];
    }

    /** The tracker, the store and the carried fraction agree with these books. */
    ghost predicate Keeps(b: Books)
      reads this, store, tracker
    {
      && store.Valid()
      && tracker != null && tracker.store == store && tracker.every == every
      && SoundBooks(b, every)
      && tracker.State() == Metered(b.counter, b.usage)
      && fraction == b.fraction
    }

    method AddElapsed(elapsed: nat, ghost b: Books)
      requires Keeps(b)
      modifies this`fraction, tracker, store`usage
      ensures Keeps(Elapse(b, elapsed, every))
    {
      ElapseSound(b, elapsed, every);
      if elapsed == 0 {
        return;
      }
      var total := fraction + elapsed;
      var whole := total / SECOND * SECOND;
      fraction := total - whole;
      if whole == 0 {
        return;
      }
      var ok := tracker.Add(whole);
    }

    /** The tracker of a date, its predecessor flushed. */
    method PrepareTracker(date: Date)
      requires store.Valid() && every > 0
      requires tracker != null ==>
        tracker.store == store && tracker.every == every && tracker.Valid()
      modifies this`tracker, this`fraction, tracker, store`usage
      ensures tracker != null && fresh(tracker) && tracker.store == store && tracker.every == every && tracker.Valid()
      ensures fraction == 0
      ensures var usage := if old(tracker) == null then old(store.usage) else Flushed(old(tracker.State())).usage;
        tracker.State() == Metered(LoadCounter(usage, date), usage)
    {
      if tracker != null {
        tracker.Flush();
      }
      tracker := new UsageTracker(store, date, every);
      fraction := 0;
    }

    /** The decision of the authority in force, from the cached rows. */
    method EvaluateAt(control: RemoteControl, p: PolicyRow, at: int) returns (decision: Decision)
      requires store.Valid() && store.policy == Some(p)
      requires tracker != null && tracker.store == store && tracker.seconds >= 0
      ensures decision == DecideAt(store.Contents(), Counter(tracker.date, tracker.seconds, tracker.uncheckpointed),
                                   control, at)
    {
      ghost var counter := Counter(tracker.date, tracker.seconds, tracker.uncheckpointed);
      var monitoring := if control.online && control.paused then Paused else Active;
      var routines := EnabledRoutines(p.routines);
      var input: Input;
      if !control.online {
        var bonus := store.TotalBonusSeconds(tracker.date);
        var quota := seq(7, (d: nat) requires d < 7 => p.quota[d] * SECOND);
        input := Input(at, monitoring, false, quota, tracker.seconds * SECOND, bonus * SECOND, routines);
      } else {
        var remaining := 0;
        if store.cachedAnchor.Some? && store.cachedAnchor.value.date == tracker.date {
          var sinceConfirmation := tracker.seconds - store.cachedAnchor.value.usage;
          if sinceConfirmation < 0 {
            sinceConfirmation := 0;
          }
          remaining := store.cachedAnchor.value.remaining - sinceConfirmation;
          if remaining < 0 {
            remaining := 0;
          }
        }
        input := Input(at, monitoring, control.blocked,
                       [0, 0, 0, 0, 0, 0, 0][Weekday(at) := remaining * SECOND], 0, 0, routines);
      }
      assert input == InputFor(store.Contents(), counter, control, at);
      InputIsValid(store.Contents(), counter, control, at);
      var result := Evaluate(input);
      decision := result.value;
    }

    /** Accounts the time since the last cycle, split at midnight. */
    method AccountUntil(p: PolicyRow, control: RemoteControl, hasSession: bool, now: int)
      requires Valid() && store.policy == Some(p)
      modifies this`tracker, this`fraction, tracker, store`usage
      ensures tracker != null && (tracker == old(tracker) || fresh(tracker))
      ensures Keeps(Account(old(State()), old(store.Contents()), control, hasSession, now, every))
    {
      var date := DateOf(now);
      ghost var m, disk := State(), store.Contents();
      if tracker == null {
        PrepareTracker(date);
        return;
      }
      ghost var b := Books(m.counter.value, disk.usage, m.fraction, 0);
      if tracker.date != date {
        var midnight := Midnight(now);
        ghost var elapsed: nat := 0;
        if lastShouldCount && lastHadSession {
          var beforeMidnight := CappedElapsed(lastAt.value, midnight, lastCountUntil);
          elapsed := beforeMidnight;
          AddElapsed(beforeMidnight, b);
        }
        ElapseSound(b, elapsed, every);
        ElapseKeepsUsage(b, elapsed, every);
        ghost var closed := BeforeMidnight(m, b, now, every);
        NewDaySound(closed, date, every);
        PrepareTracker(date);
        ghost var next := NewDay(closed, date);
        var newDayDecision := EvaluateAt(control, p, midnight);
        DecisionIgnoresUsage(store.Contents(), disk, next.counter, control, midnight);
        if newDayDecision.shouldCount && hasSession {
          var afterMidnight := CappedElapsed(midnight, now, newDayDecision.nextBlockAt);
          AddElapsed(afterMidnight, next);
        }
      } else if lastShouldCount && lastHadSession {
        var elapsed := CappedElapsed(lastAt.value, now, lastCountUntil);
        AddElapsed(elapsed, b);
      }
    }

    /** Completes the staged command if the sessions show its effect; otherwise
        tells whether it is still current, and what it asks for. */
    method ObserveControl(control: RemoteControl, session: Option<Session>) returns (current: bool, kind: CommandKind)
      requires store.Valid()
      modifies store`staged, store`applied
      ensures store.Valid()
      ensures store.Contents() == ObserveEffect(old(store.Contents()), control, session)
      ensures current <==> old(EffectCurrent(store.Contents(), control))
                           && !Confirms(old(store.staged).value.kind, session)
      ensures current ==> kind == old(store.staged).value.kind
    {
      current := control.online && store.staged.Some? && store.staged.value.revision == control.revision;
      kind := if store.staged.Some? then store.staged.value.kind else ResumeMonitoring;
      if current && Confirms(kind, session) {
        var error := store.CompleteControlEffect(store.staged.value.commandId);
        current := false;
      }
    }

    /** Accounts the elapsed time and adopts the usage the server confirmed. */
    method AccountAndReconcile(p: PolicyRow, control: RemoteControl, hasSession: bool, now: int)
      requires Valid() && store.policy == Some(p)
      modifies this`tracker, this`fraction, tracker, store`usage
      ensures tracker == old(tracker) || fresh(tracker)
      ensures Keeps(Reconcile(Account(old(State()), old(store.Contents()), control, hasSession, now, every),
                              store.anchor, DateOf(now)))
    {
      ghost var b := Account(State(), store.Contents(), control, hasSession, now, every);
      AccountUntil(p, control, hasSession, now);
      ReconcileSound(b, store.anchor, DateOf(now), every);
      if store.cachedAnchor.Some? && store.cachedAnchor.value.date == DateOf(now)
         && tracker.seconds < store.cachedAnchor.value.usage {
        var ok := tracker.EnsureAtLeast(store.cachedAnchor.value.usage);
      }
    }

    /** The decision of a cycle, with the last allowed second made durable before
        use is denied. */
    method DecideAndFlush(p: PolicyRow, control: RemoteControl, session: Option<Session>, now: int, ghost r: Books)
      returns (awaiting: bool, decision: Decision)
      requires Keeps(r) && store.policy == Some(p)
      modifies tracker`uncheckpointed, store`usage
      ensures awaiting == Awaiting(old(store.Contents()), control, session, DateOf(now))
      ensures decision == if awaiting then AwaitingDecision
                          else DecideAt(old(store.Contents()), r.counter, control, now)
      ensures var flushed := Flushed(Metered(r.counter, r.usage));
        Keeps(if !decision.allowed && lastShouldCount
              then r.(counter := flushed.counter, usage := flushed.usage) else r)
    {
      awaiting := Awaiting(store.Contents(), control, session, DateOf(now));
      decision := AwaitingDecision;
      if !awaiting {
        decision := EvaluateAt(control, p, now);
      }
      if !decision.allowed && lastShouldCount {
        tracker.Flush();
      }
    }

    /** Moves the runtime state to the end of a cycle whose books are kept. */
    method Advance(decision: Decision, awaiting: bool, due: seq<Alert.Alert>, sessions: seq<Session>, now: int,
                   ghost c: Cycle)
      returns (status: Status)
      requires store.Valid() && store.Contents() == c.disk && SoundMeter(c.meter, c.disk.usage, every)
      requires tracker != null && tracker.store == store && tracker.every == every
      requires c.decision == decision && c.awaiting == awaiting
      requires c.meter == Meter(Some(tracker.State().counter), Some(now), decision.shouldCount, sessions != [],
                                decision.nextBlockAt, fraction)
      requires alerts.initialized ==> alerts.previousCycle <= now
      modifies this`lastAt, this`lastShouldCount, this`lastHadSession, this`lastCountUntil
      ensures Valid() && Reached(c, sessions, status) && status.enforced && status.dueAlerts == due
    {
      lastAt, lastShouldCount, lastHadSession, lastCountUntil :=
        Some(now), decision.shouldCount, sessions != [], decision.nextBlockAt;
      status := Status(decision, sessions != [], awaiting, tracker.seconds, due, true);
    }

    /** Shows the cycle to the alert tracker, which never refuses it. */
    method ShowAlerts(p: PolicyRow, decision: Decision, session: Option<Session>, awaiting: bool, now: int)
      returns (due: seq<Alert.Alert>)
      requires p.warningMinutes >= 0 && (alerts.initialized ==> alerts.previousCycle <= now)
      modifies alerts
      ensures var o := Shown(decision, p, session, awaiting, now);
        alerts.State() == Alert.Track1(old(alerts.State()), o) && due == Alert.Returned(old(alerts.State()), o)
      ensures alerts.previousCycle == now
    {
      var deliver := session.Some? && !session.value.locked && !awaiting;
      var key := if session.Some? then session.value.key else "";
      var period := Alert.Period(p.revision, key, DateOf(now));
      var result := alerts.DueAlerts(decision, p.warningMinutes, period, now, deliver);
      due := result.value;
    }

    /** Decides on reconciled books, shows the decision to the alert tracker and moves
        the runtime state on. */
    method Conclude(p: PolicyRow, control: RemoteControl, sessions: seq<Session>, now: int,
                    ghost r: Books, ghost m: Meter, ghost disk: Disk, ghost c: Cycle)
      returns (status: Status)
      requires Keeps(r) && store.policy == Some(p) && disk.policy == store.policy
      requires alerts.initialized ==> alerts.previousCycle <= now
      requires m.lastShouldCount == lastShouldCount && SoundMeter(c.meter, c.disk.usage, every)
      requires store.Contents() == ObserveEffect(disk, control, FirstActive(sessions)).(usage := r.usage)
      requires store.Contents() == disk.(usage := r.usage, staged := store.staged, applied := store.applied)
      requires CycleParts(c, r, m, disk, control, sessions, now)
      modifies this`lastAt, this`lastShouldCount, this`lastHadSession, this`lastCountUntil
      modifies tracker`uncheckpointed, store`usage, alerts
      ensures Valid() && Reached(c, sessions, status) && status.enforced
      ensures var o := Shown(c.decision, p, FirstActive(sessions), c.awaiting, now);
        alerts.State() == Alert.Track1(old(alerts.State()), o)
        && status.dueAlerts == Alert.Returned(old(alerts.State()), o)
    {
      hide DecideAt, ObserveEffect, Alert.Track1, Alert.Returned, Shown;
      var session := FirstActive(sessions);
      DecisionIgnoresUsage(store.Contents(), disk, r.counter, control, now);
      var awaiting, decision := DecideAndFlush(p, control, session, now, r);
      var due := ShowAlerts(p, decision, session, awaiting, now);
      status := Advance(decision, awaiting, due, sessions, now, c);
    }

    /** Accounts, reconciles, decides, and moves the runtime state on before
        anything is enforced. */
    method Settle(p: PolicyRow, control: RemoteControl, sessions: seq<Session>, now: int, ghost disk: Disk,
                  ghost c: Cycle)
      returns (status: Status)
      requires Valid() && store.policy == Some(p) && (lastAt.Some? ==> lastAt.value <= now)
      requires Ready(State(), disk, every) && c == Accounting.Step(State(), disk, control, sessions, now, every)
      requires store.Contents() == ObserveEffect(disk, control, FirstActive(sessions))
      modifies this`tracker, this`fraction, this`lastAt, this`lastShouldCount, this`lastHadSession, this`lastCountUntil
      modifies tracker, store`usage, alerts
      ensures Valid() && Reached(c, sessions, status) && status.enforced
      ensures var o := Shown(c.decision, p, FirstActive(sessions), c.awaiting, now);
        alerts.State() == Alert.Track1(old(alerts.State()), o)
        && status.dueAlerts == Alert.Returned(old(alerts.State()), o)
    {
      hide DecideAt, Account, Reconcile, Accounting.Step, CycleParts, Alert.Track1, Alert.Returned, Shown;
      ghost var m := State();
      EffectKeepsRows(disk, control, FirstActive(sessions));
      StepSound(m, disk, control, sessions, now, every);
      ghost var r := CycleFromBooks(c, m, disk, control, sessions, now, every);
      AccountAndReconcile(p, control, sessions != [], now);
      status := Conclude(p, control, sessions, now, r, m, disk, c);
    }

    /** Asks every active session to lock, each at most once per retry interval. */
    method LockActive(sessions: seq<Session>, now: int, lockFails: set<Id>) returns (ok: bool, locked: seq<Id>)
      modifies this`lockAttempts
      ensures LockPass(old(lockAttempts), sessions, now, lockFails) == Pass(lockAttempts, locked, ok)
    {
      locked := [];
      ghost var goal := LockPass(lockAttempts, sessions, now, lockFails);
      for k := 0 to |sessions|
        invariant var rest := LockPass(lockAttempts, sessions[k..], now, lockFails);
          goal == rest.(asked := locked + rest.asked)
      {
        LockFrom(lockAttempts, sessions, k, now, lockFails);
        if !sessions[k].active {
          continue;
        }
        var key := sessions[k].key;
        if key in lockAttempts && now - lockAttempts[key] < LOCK_RETRY_INTERVAL {
          continue;
        }
        lockAttempts := lockAttempts[key := now];
        locked := locked + [key];
        if key in lockFails {
          return false, locked;
        }
      }
      return true, locked;
    }

    /** Asks every active session that is locked to unlock, and forgets the attempts. */
    method UnlockActive(sessions: seq<Session>, lockFails: set<Id>) returns (ok: bool, unlocked: seq<Id>)
      modifies this`lockAttempts
      ensures UnlockPass(old(lockAttempts), sessions, lockFails) == Pass(lockAttempts, unlocked, ok)
    {
      unlocked := [];
      ghost var goal := UnlockPass(lockAttempts, sessions, lockFails);
      for k := 0 to |sessions|
        invariant var rest := UnlockPass(lockAttempts, sessions[k..], lockFails);
          goal == rest.(asked := unlocked + rest.asked)
        invariant lockAttempts == old(lockAttempts)
      {
        UnlockFrom(lockAttempts, sessions, k, lockFails);
        if !sessions[k].active || !sessions[k].locked {
          continue;
        }
        unlocked := unlocked + [sessions[k].key];
        if sessions[k].key in lockFails {
          return false, unlocked;
        }
      }
      lockAttempts := map[];
      return true, unlocked;
    }

    /** Lock while use is denied; unlock what a current command asks for while it is
        allowed, and forget the attempts. */
    method Enforce(decision: Decision, sessions: seq<Session>, unlockRequested: bool, now: int, lockFails: set<Id>)
      returns (ok: bool, enforcement: Enforcement)
      requires forall key :: key in lockAttempts ==> IsActive(sessions, key)
      modifies this`lockAttempts
      ensures Locking.Enforce(old(lockAttempts),
                              Watch(now, sessions, false, decision.allowed, unlockRequested, lockFails))
           == Outcome(lockAttempts, enforcement, ok)
    {
      assert StillActive(lockAttempts, sessions) == lockAttempts;
      ok, enforcement := true, Enforcement([], []);
      if !decision.allowed {
        var locked;
        ok, locked := LockActive(sessions, now, lockFails);
        enforcement := Enforcement(locked, []);
      } else if unlockRequested {
        var unlocked;
        ok, unlocked := UnlockActive(sessions, lockFails);
        enforcement := Enforcement([], unlocked);
      } else {
        lockAttempts := map[];
      }
    }

    /** The state and the status are those of this cycle. */
    ghost predicate Reached(c: Cycle, sessions: seq<Session>, status: Status)
      reads this, tracker, store
    {
      && State() == c.meter && store.Contents() == c.disk
      && c.meter.counter.Some?
      && status.(dueAlerts := [], enforced := true)
           == Status(c.decision, sessions != [], c.awaiting, c.meter.counter.value.seconds, [], true)
    }

    /** Forgets the attempts on sessions that are no longer active. */
    method ForgetAttempts(sessions: seq<Session>)
      modifies this`lockAttempts
      ensures lockAttempts == StillActive(old(lockAttempts), sessions)
    {
      lockAttempts := map k | k in lockAttempts && IsActive(sessions, k) :: lockAttempts[k];
    }

    /** Tells the synchronization client which session is in front. */
    method ReportSession(session: Option<Session>)
      modifies source
      ensures source != null ==> source.control == old(source.control) && source.session == Heartbeat.ViewOf(session)
    {
      if source != null {
        if session.Some? {
          source.SetGraphicalSession(true, session.value.key, session.value.locked);
        } else {
          source.SetGraphicalSession(false, "", false);
        }
      }
    }

    method ObserveAndSettle(p: PolicyRow, control: RemoteControl, sessions: seq<Session>, now: int, ghost c: Cycle)
      returns (status: Status, unlockRequested: bool)
      requires Valid() && store.policy == Some(p) && (lastAt.Some? ==> lastAt.value <= now)
      requires c == Accounting.Step(State(), store.Contents(), control, sessions, now, every)
      modifies this`tracker, this`fraction, this`lastAt, this`lastShouldCount, this`lastHadSession, this`lastCountUntil
      modifies tracker, store`usage, store`staged, store`applied, alerts
      ensures Valid() && Reached(c, sessions, status) && status.enforced
      ensures unlockRequested == UnlockAsked(old(store.Contents()), control, FirstActive(sessions))
      ensures var o := Shown(c.decision, p, FirstActive(sessions), c.awaiting, now);
        alerts.State() == Alert.Track1(old(alerts.State()), o)
        && status.dueAlerts == Alert.Returned(old(alerts.State()), o)
    {
      ghost var disk := store.Contents();
      EffectKeepsRows(disk, control, FirstActive(sessions));
      var current, kind := ObserveControl(control, FirstActive(sessions));
      status := Settle(p, control, sessions, now, disk, c);
      unlockRequested := current && (kind.ClearManualBlock? || kind.PauseMonitoring?);
    }

    /** A cycle on what was observed: it reports the session in front, counts,
        decides, shows the decision to the alert tracker and enforces it. */
    method RunCycle(p: PolicyRow, sessions: seq<Session>, now: int, lockFails: set<Id>, ghost c: Cycle)
      returns (status: Status, enforcement: Enforcement)
      requires Valid() && store.policy == Some(p) && (lastAt.Some? ==> lastAt.value <= now)
      requires c == Accounting.Step(State(), store.Contents(), Control(), sessions, now, every)
      modifies this, tracker, store, alerts, source
      ensures Valid() && Reached(c, sessions, status)
      ensures source != null ==>
        source.control == old(source.control) && source.session == Heartbeat.ViewOf(FirstActive(sessions))
      ensures var o := Shown(c.decision, p, FirstActive(sessions), c.awaiting, now);
        alerts.State() == Alert.Track1(old(alerts.State()), o)
        && status.dueAlerts == Alert.Returned(old(alerts.State()), o)
      ensures var asked := UnlockAsked(old(store.Contents()), old(Control()), FirstActive(sessions));
        Locking.Enforce(old(lockAttempts), Watch(now, sessions, c.awaiting, c.decision.allowed, asked, lockFails))
        == Outcome(lockAttempts, enforcement, status.enforced)
    {
      hide Accounting.Step;
      var control := Control();
      ForgetAttempts(sessions);
      ReportSession(FirstActive(sessions));
      var unlockRequested;
      status, unlockRequested := ObserveAndSettle(p, control, sessions, now, c);
      enforcement := Enforcement([], []);
      if !status.awaitingSynchronization {
        var ok;
        ok, enforcement := Enforce(status.decision, sessions, unlockRequested, now, lockFails);
        status := status.(enforced := ok);
        EnforceKept(old(lockAttempts), Watch(now, sessions, false, c.decision.allowed, unlockRequested, lockFails));
      }
    }

    /** One daemon cycle: refused without a trace, or carried out on what was observed.
        A failed lock or unlock request leaves exactly the accounting a successful one
        would. */
    method Step(now: int, observed: Option<seq<Session>>, lockFails: set<Id>)
      returns (result: Result<Status, StepError>, enforcement: Enforcement)
      requires Valid()
      modifies this, tracker, store, alerts, source
      ensures Valid()
      ensures source != null ==> source.control == old(source.control)
      ensures result.Failure? <==>
        || (old(lastAt).Some? && now < old(lastAt).value)
        || old(store.policy).None? || observed.None?
      ensures result.Failure? ==>
        && State() == old(State()) && store.Contents() == old(store.Contents()) && enforcement == Enforcement([], [])
        && lockAttempts == old(lockAttempts) && alerts.State() == old(alerts.State())
        && (source != null ==> source.session == old(source.session))
      ensures result.Success? ==>
        && old(store.policy).Some?
        && Reached(Accounting.Step(old(State()), old(store.Contents()), old(Control()), observed.value, now, every),
                   observed.value, result.value)
        && (source != null ==> source.session == Heartbeat.ViewOf(FirstActive(observed.value)))
      ensures result.Success? ==>
        var status, session := result.value, FirstActive(observed.value);
        var o := Shown(status.decision, old(store.policy).value, session, status.awaitingSynchronization, now);
        alerts.State() == Alert.Track1(old(alerts.State()), o)
        && status.dueAlerts == Alert.Returned(old(alerts.State()), o)
      ensures result.Success? ==>
        var status, session := result.value, FirstActive(observed.value);
        var asked := UnlockAsked(old(store.Contents()), old(Control()), session);
        Locking.Enforce(old(lockAttempts), Watch(now, observed.value, status.awaitingSynchronization,
                                                 status.decision.allowed, asked, lockFails))
        == Outcome(lockAttempts, enforcement, status.enforced)
      ensures result.Success? ==>
        && (result.value.decision.allowed ==> enforcement.locked == [])
        && (!result.value.decision.allowed ==> enforcement.unlocked == [])
      ensures result.Success? && result.value.enforced && !result.value.awaitingSynchronization ==>
        var allowed := result.value.decision.allowed;
        var asked := UnlockAsked(old(store.Contents()), old(Control()), FirstActive(observed.value));
        forall s :: s in observed.value && s.active ==>
          && (!allowed ==> s.key in enforcement.locked || AskedRecently(old(lockAttempts), s.key, now))
          && (allowed && asked && s.locked ==> s.key in enforcement.unlocked)
      ensures result.Success? && result.value.dueAlerts != [] ==>
        var front := FirstActive(observed.value);
        front.Some? && !front.value.locked && !result.value.awaitingSynchronization && result.value.decision.allowed
    {
      hide Accounting.Step;
      enforcement := Enforcement([], []);
      if lastAt.Some? && now < lastAt.value {
        return Failure(TimeBackwards), enforcement;
      }
      var policy := store.CurrentPolicy();
      if policy.Failure? {
        return Failure(PolicyMissing), enforcement;
      }
      if observed.None? {
        return Failure(SessionsUnavailable), enforcement;
      }
      ghost var c := Accounting.Step(State(), store.Contents(), Control(), observed.value, now, every);
      var status;
      ghost var attempts, track, session := lockAttempts, alerts.State(), FirstActive(observed.value);
      ghost var asked := UnlockAsked(store.Contents(), Control(), session);
      status, enforcement := RunCycle(policy.value, observed.value, now, lockFails, c);
      EnforcedExactly(attempts, Watch(now, observed.value, c.awaiting, c.decision.allowed, asked, lockFails));
      Alert.ReturnedIsDeliverable(track, Shown(c.decision, policy.value, session, c.awaiting, now));
      return Success(status), enforcement;
    }
  }
}
