/**
  What one daemon cycle decides, observes and asks for, in terms of the tables, the
  sessions and the clock.
*/
module CycleLaws {
  import opened Wrappers
  import opened Calendar
  import opened Schedule
  import opened Policy
  import opened Records
  import opened AgentTables
  import opened Usage
  import opened Accounting
  import opened AccountingLaws
  import opened AdminLaws
  import opened Locking

  // ------------------------------------------------------------------ the decision

  predicate RoutineNow(disk: Disk, now: int)
    requires disk.policy.Some?
  {
    exists r :: r in disk.policy.value.routines && r.enabled && BlocksAt(ToPolicyRoutine(r), now)
  }

  lemma {:induction false} RoutineNowIsEnabled(disk: Disk, now: int)
    requires disk.policy.Some?
    ensures RoutineNow(disk, now)
        <==> exists p :: p in EnabledRoutines(disk.policy.value.routines) && BlocksAt(p, now)
  {
    EnabledFrom(disk.policy.value.routines);
    if RoutineNow(disk, now) {
      var r :| r in disk.policy.value.routines && r.enabled && BlocksAt(ToPolicyRoutine(r), now);
      assert ToPolicyRoutine(r) in EnabledRoutines(disk.policy.value.routines);
    }
  }

  /** Online, a session in front waits until the anchor is its own, of this date and of
      the policy in force; meanwhile use is allowed and not counted. */
  lemma {:induction false} CycleAwaits(m: Meter, disk: Disk, control: RemoteControl, sessions: seq<Session>,
                                       now: int, every: int)
    requires Ready(m, disk, every)
    ensures var c, session := Step(m, disk, control, sessions, now, every), FirstActive(sessions);
      && (c.awaiting <==>
            && control.online && !control.paused && !control.blocked && session.Some?
            && (disk.anchor.None?
                || disk.anchor.value.sessionId != session.value.key
                || disk.anchor.value.date != now / DAY
                || disk.anchor.value.revision < disk.policy.value.revision))
      && (c.awaiting ==> c.decision == Decision(true, AwaitingSynchronization, 0, false, None, None, None))
  {
    hide Account, Reconcile, DecideAt;
    EffectKeepsRows(disk, control, FirstActive(sessions));
    var r := CycleFromBooks(Step(m, disk, control, sessions, now, every), m, disk, control, sessions, now, every);
  }

  /** What a cycle that does not wait decides: online the time left is what the anchor
      authorises less what is counted, offline the quota and the bonus of the date less
      what is counted; pause and block are the server's and end with its authority. */
  lemma {:induction false} CycleRules(m: Meter, disk: Disk, control: RemoteControl, sessions: seq<Session>,
                                      now: int, every: int)
    requires Ready(m, disk, every) && !Step(m, disk, control, sessions, now, every).awaiting
    ensures var c := Step(m, disk, control, sessions, now, every);
      && c.meter.counter.Some?
      && var d, spent := c.decision, c.meter.counter.value.seconds;
         var date := now / DAY;
         && (control.online && disk.anchor.Some? && disk.anchor.value.date == date ==>
               d.remaining == Larger(disk.anchor.value.remaining + disk.anchor.value.usage - spent, 0) * SECOND)
         && (control.online && (disk.anchor.None? || disk.anchor.value.date != date) ==> d.remaining == 0)
         && (!control.online ==>
               d.remaining
               == Larger(disk.policy.value.quota[date % 7] + TotalBonus(disk.bonus, date) - spent, 0) * SECOND)
         && d.reason == (if control.online && control.paused then MonitoringPaused
                         else if control.online && control.blocked then ManualBlock
                         else if RoutineNow(disk, now) then RoutineActive
                         else if d.remaining == 0 then QuotaExhausted
                         else Allowed)
         && (d.allowed <==> d.reason == Allowed || d.reason == MonitoringPaused)
         && (d.shouldCount <==> d.reason == Allowed)
  {
    hide Account, Reconcile, Decide, Step, ObserveEffect;
    var c := Step(m, disk, control, sessions, now, every);
    var b := BooksToCycle(c, m, disk, control, sessions, now, every);
    var r := CycleFromBooks(c, m, disk, control, sessions, now, every);
    var input := InputFor(disk, r.counter, control, now);
    InputIsValid(disk, r.counter, control, now);
    DecisionMeaning(input);
    RoutineNowIsEnabled(disk, now);
  }

  /** What a cycle leaves for the next one to account by; and before use is denied,
      what was counted is made durable. */
  lemma {:induction false} CycleRemembers(m: Meter, disk: Disk, control: RemoteControl, sessions: seq<Session>,
                                          now: int, every: int)
    requires Ready(m, disk, every)
    ensures var c := Step(m, disk, control, sessions, now, every);
      && c.meter.lastAt == Some(now)
      && c.meter.lastShouldCount == c.decision.shouldCount
      && c.meter.lastHadSession == (|sessions| > 0)
      && c.meter.lastCountUntil == c.decision.nextBlockAt
      && c.meter.counter.Some?
      && (m.lastShouldCount && !c.decision.allowed ==>
            && c.meter.counter.value.uncheckpointed == 0
            && UsageOn(c.disk.usage, now / DAY) >= c.meter.counter.value.seconds)
  {
    hide Account, Reconcile, DecideAt;
    EffectKeepsRows(disk, control, FirstActive(sessions));
    var r := CycleFromBooks(Step(m, disk, control, sessions, now, every), m, disk, control, sessions, now, every);
    StepSound(m, disk, control, sessions, now, every);
  }

  // ------------------------------------------------------- the effect of a control

  /** A cycle completes the staged control exactly if it holds the revision the control
      came with and sees its effect; then the control becomes acknowledgeable. */
  lemma {:induction false} CycleCompletes(m: Meter, disk: Disk, control: RemoteControl, sessions: seq<Session>,
                                          now: int, every: int)
    requires Ready(m, disk, every) && disk.staged.Some?
    ensures var c, effect := Step(m, disk, control, sessions, now, every), disk.staged.value;
      var front := FirstActive(sessions);
      var seen := match effect.kind
        case BlockNow => front.Some? && front.value.locked
        case ClearManualBlock => front.None? || !front.value.locked
        case PauseMonitoring => front.None? || !front.value.locked
        case ResumeMonitoring => true
        case AddBonus => false;
      if control.online && control.revision == effect.revision && seen then
        c.disk.staged == None && forall id :: id in c.disk.applied <==> id in disk.applied || id == effect.commandId
      else
        c.disk.staged == disk.staged && c.disk.applied == disk.applied
  {
    hide Step;
    StepSound(m, disk, control, sessions, now, every);
  }

  /** An unlock is asked for by a clearing or pausing control that is current, while the
      session in front is locked. */
  lemma UnlockAskedMeaning(disk: Disk, control: RemoteControl, session: Option<Session>)
    ensures UnlockAsked(disk, control, session) <==>
      && control.online && disk.staged.Some? && disk.staged.value.revision == control.revision
      && (disk.staged.value.kind == ClearManualBlock || disk.staged.value.kind == PauseMonitoring)
      && session.Some? && session.value.locked
  {
  }
}
