/**
  Usage across crashes: for every date the server's counter stays below the
  agent's durable one, which lags the live one by exactly what has not been
  checkpointed.
*/
module UsageInvariant {
  import opened Calendar
  import opened Records
  import opened AgentTables
  import opened Usage
  import opened Accounting
  import opened AccountingLaws
  import opened ServerTables
  import opened AdminLaws
  import opened Heartbeat
  import opened System
  import opened PolicyInvariant

  /** The durable counter is the live one less the uncheckpointed part. */
  ghost predicate Exact(m: Metered) {
    m.counter.seconds * SECOND == UsageOn(m.usage, m.counter.date) * SECOND + m.counter.uncheckpointed
  }

  ghost predicate NonNegative(usage: UsageTable) {
    forall d :: d in usage ==> usage[d] >= 0
  }

  lemma ElapseExact(b: Books, elapsed: nat, every: int)
    requires SoundBooks(b, every) && Exact(Metered(b.counter, b.usage))
    ensures var after := Elapse(b, elapsed, every); Exact(Metered(after.counter, after.usage))
  {
  }

  lemma NewDayExact(b: Books, date: Date, every: int)
    requires SoundBooks(b, every) && NonNegative(b.usage)
    ensures var after := NewDay(b, date); Exact(Metered(after.counter, after.usage))
  {
  }

  lemma AccountExact(m: Meter, disk: Disk, control: RemoteControl, hasSession: bool, now: int, every: int)
    requires Ready(m, disk, every)
    requires m.counter.Some? ==> Exact(Metered(m.counter.value, disk.usage))
    ensures var b := Account(m, disk, control, hasSession, now, every); Exact(Metered(b.counter, b.usage))
  {
    if m.counter.Some? {
      var b := Books(m.counter.value, disk.usage, m.fraction, 0);
      if b.counter.date != DateOf(now) {
        var elapsed := if m.lastShouldCount && m.lastHadSession
                       then CappedElapsed(m.lastAt.value, Midnight(now), m.lastCountUntil) else 0;
        ElapseSound(b, elapsed, every);
        ElapseKeepsUsage(b, elapsed, every);
        var closed := BeforeMidnight(m, b, now, every);
        NewDaySound(closed, DateOf(now), every);
        NewDayExact(closed, DateOf(now), every);
        var next := NewDay(closed, DateOf(now));
        var opening := DecideAt(disk, next.counter, control, Midnight(now));
        var later := CappedElapsed(Midnight(now), now, opening.nextBlockAt);
        ElapseExact(next, later, every);
      } else if m.lastShouldCount && m.lastHadSession {
        ElapseExact(b, CappedElapsed(m.lastAt.value, now, m.lastCountUntil), every);
      }
    }
  }

  /** Confirmed usage that never exceeds the durable counter never raises it. */
  lemma ReconcileIdle(m: Meter, disk: Disk, control: RemoteControl, hasSession: bool, now: int, every: int)
    requires Ready(m, disk, every)
    requires m.counter.Some? ==> Exact(Metered(m.counter.value, disk.usage))
    requires disk.anchor.Some? ==> disk.anchor.value.usage <= UsageOn(disk.usage, disk.anchor.value.date)
    ensures var b := Account(m, disk, control, hasSession, now, every);
      Reconcile(b, disk.anchor, DateOf(now)) == b
  {
    AccountExact(m, disk, control, hasSession, now, every);
  }

  ghost predicate UsageInv(s: State) {
    && s.every > 0
    && SoundRows(s.disk)
    && SoundMeter(s.meter, s.disk.usage, s.every)
    && (s.meter.counter.Some? ==> Exact(Metered(s.meter.counter.value, s.disk.usage)))
    && NonNegative(s.server.usage)
    && (forall d :: UsageOn(s.server.usage, d) <= UsageOn(s.disk.usage, d))
    && (forall env :: env in s.history.sent ==>
          0 <= env.req.secondsUsed <= UsageOn(s.disk.usage, env.req.date))
    && (s.disk.anchor.Some? ==>
          0 <= s.disk.anchor.value.usage <= UsageOn(s.disk.usage, s.disk.anchor.value.date))
    && ((s.exchange.Answered? || s.exchange.Applying?) && s.exchange.resp.sessionState.Some? ==>
          var state := s.exchange.resp.sessionState.value;
          0 <= state.usage <= UsageOn(s.disk.usage, state.date))
  }

  lemma {:induction false} CycleExact(s: State, now: int, sessions: seq<Session>)
    requires UsageInv(s) && s.disk.policy.Some?
    ensures var c := Step(s.meter, s.disk, s.memory.control, sessions, now, s.every);
      c.meter.counter.Some? && Exact(Metered(c.meter.counter.value, c.disk.usage))
  {
    var c := Step(s.meter, s.disk, s.memory.control, sessions, now, s.every);
    EffectKeepsRows(s.disk, s.memory.control, FirstActive(sessions));
    var seen := ObserveEffect(s.disk, s.memory.control, FirstActive(sessions));
    var r := CycleFromBooks(c, s.meter, s.disk, s.memory.control, sessions, now, s.every);
    AccountExact(s.meter, seen, s.memory.control, sessions != [], now, s.every);
    ReconcileIdle(s.meter, seen, s.memory.control, sessions != [], now, s.every);
  }

  lemma {:induction false} CycleKeeps(s: State, now: int, sessions: seq<Session>)
    requires UsageInv(s)
    ensures UsageInv(AfterCycle(s, now, sessions))
  {
    if CanCycle(s, now) {
      StepSound(s.meter, s.disk, s.memory.control, sessions, now, s.every);
      CycleExact(s, now, sessions);
    }
  }

  lemma HeardKeeps(s: State, env: Envelope)
    requires UsageInv(s) && env in s.history.sent
    ensures UsageInv(Heard(s, env))
    ensures UsageOn(Absorb(s.server, env.req).usage, env.req.date) >= 0
  {
  }

  lemma GrantKeeps(s: State, id: Id, date: Date, seconds: int)
    requires UsageInv(s)
    ensures UsageInv(AfterGrant(s, id, date, seconds))
  {
  }

  /** What a phase does to the rows the invariant reads. */
  lemma PhaseKeeps(s: State, env: Envelope, resp: Response, excess: int, phase: Phase)
    requires PolicyInv(s) && UsageInv(s)
    requires s.exchange == Applying(env, resp, excess, phase) && !phase.Done?
    requires ApplyPhase(s.disk, env.req, resp, phase).Success?
    ensures var d := ApplyPhase(s.disk, env.req, resp, phase).value.0;
      && SoundRows(d)
      && (forall date :: UsageOn(d.usage, date) == UsageOn(s.disk.usage, date))
      && (d.anchor.Some? ==> 0 <= d.anchor.value.usage <= UsageOn(d.usage, d.anchor.value.date))
  {
    PhaseFrame(s.disk, env.req, resp, phase);
  }

  lemma {:induction false} ApplyKeeps(s: State)
    requires PolicyInv(s) && UsageInv(s)
    ensures UsageInv(AfterApply(s))
  {
    if s.exchange.Applying? && !s.exchange.phase.Done? {
      var env, resp, excess, phase := s.exchange.env, s.exchange.resp, s.exchange.excess, s.exchange.phase;
      if ApplyPhase(s.disk, env.req, resp, phase).Success? {
        PhaseKeeps(s, env, resp, excess, phase);
        SameUsage(s, AfterApply(s));
      }
    }
  }

  lemma SameUsage(s: State, s': State)
    requires UsageInv(s) && SoundRows(s'.disk)
    requires forall date :: UsageOn(s'.disk.usage, date) == UsageOn(s.disk.usage, date)
    requires s'.every == s.every && s'.meter == s.meter && s'.server == s.server && s'.history.sent == s.history.sent
    requires s'.disk.anchor.Some? ==>
      0 <= s'.disk.anchor.value.usage <= UsageOn(s'.disk.usage, s'.disk.anchor.value.date)
    requires s.exchange.Applying? && (s'.exchange.Applying? ==> s'.exchange.resp == s.exchange.resp)
    requires !s'.exchange.Answered?
    ensures UsageInv(s')
  {
  }

  /** Steps that touch neither usage nor anything compared with it. */
  lemma ServerSideKeeps(s: State, s': State)
    requires UsageInv(s)
    requires s'.server.usage == s.server.usage && s'.history.sent == s.history.sent
    requires s'.every == s.every && s'.disk == s.disk && s'.meter == s.meter && s'.exchange == s.exchange
    ensures UsageInv(s')
  {
  }

  lemma AdminUsage(s: State, op: AdminOp)
    ensures AfterAdmin(s.server, op).usage == s.server.usage
    ensures AfterAdmin(s.server, op).bonus == s.server.bonus
    ensures AfterAdmin(s.server, op).commands == s.server.commands
    ensures AfterAdmin(s.server, op).control == s.server.control
  {
  }

  lemma BuildKeeps(s: State, date: Date)
    requires UsageInv(s)
    ensures UsageInv(AfterBuild(s, date))
  {
  }

  lemma {:induction false} DeliverKeeps(s: State)
    requires PolicyInv(s) && UsageInv(s)
    ensures UsageInv(AfterDeliver(s))
  {
    AbandonKeeps(s);
    if s.exchange.Sent? && Receive(s.server, s.exchange.env.req).Success? {
      var env := s.exchange.env;
      var resp := DeliverFrame(s);
      HeardKeeps(s, env);
      AnswerKeeps(Heard(s, env), env, resp, AfterDeliver(s));
    }
  }

  /** The usage an answer confirms is the server's, which the agent's covers. */
  lemma AnswerKeeps(heard: State, env: Envelope, resp: Response, s': State)
    requires UsageInv(heard) && resp == Answer(heard.server, env.req)
    requires UsageOn(heard.server.usage, env.req.date) >= 0
    requires s' == heard.(exchange := s'.exchange, history := heard.history.(backlog := s'.history.backlog))
    requires s'.exchange.Answered? && s'.exchange.resp == resp
    ensures UsageInv(s')
  {
  }

  lemma AbandonKeeps(s: State)
    requires UsageInv(s)
    ensures UsageInv(Failed(s)) && UsageInv(AfterCrash(s))
  {
  }

  lemma {:induction false} UsageStep(s: State, l: Label)
    requires PolicyInv(s) && UsageInv(s)
    ensures UsageInv(Next(s, l))
  {
    hide PolicyInv, UsageInv;
    AbandonKeeps(s);
    match l
    case Admin(op) =>
      AdminUsage(s, op);
      ServerSideKeeps(s, AfterChange(s, op));
    case QueueCredit(id, seconds) => ServerSideKeeps(s, AfterQueueCredit(s, id, seconds));
    case QueueOrder(id, kind) => ServerSideKeeps(s, AfterQueueOrder(s, id, kind));
    case Grant(id, date, seconds) => GrantKeeps(s, id, date, seconds);
    case Cycle(now, sessions) => CycleKeeps(s, now, sessions);
    case Build(date) => BuildKeeps(s, date);
    case Deliver => DeliverKeeps(s);
    case Stray(env) =>
      if env in s.history.sent { HeardKeeps(s, env); }
    case LoseRequest =>
    case LoseAnswer =>
    case Apply => ApplyKeeps(s);
    case Crash =>
  }
}
