/**
  Progress: the server accepts whatever the agent builds, applying an answer never
  fails, and a completed heartbeat leaves both sides agreeing.
*/
module Rounds {
  import opened Wrappers
  import opened Calendar
  import opened Records
  import opened AgentTables
  import opened Accounting
  import opened ServerTables
  import opened Heartbeat
  import opened System
  import opened PolicyInvariant
  import opened UsageInvariant
  import opened CreditInvariant
  import opened LocalInvariant
  import opened OrderInvariant
  import opened AnchorInvariant
  import opened Safety
  import opened Balances

  // ------------------------------------------------------------- shape of messages

  predicate Shaped(req: Request) {
    && req.controlRevision >= 0 && |req.acks| <= BATCH
    && (!req.sessionActive ==> req.sessionId == "" && !req.sessionLocked && !req.requestSessionState)
  }

  ghost predicate Shapes(s: State) {
    && s.memory.control.revision >= 0
    && (!s.memory.session.active ==> s.memory.session == NoSession)
    && (forall env :: env in s.history.sent ==> Shaped(env.req))
    && ((s.exchange.Answered? || s.exchange.Applying?) ==>
          && s.exchange.resp.control.revision >= 1
          && s.exchange.resp.acknowledgedCommands == s.exchange.env.req.acks)
  }

  /** A step that sends nothing and keeps what it answers or applies. */
  lemma ShapesStay(s: State, s': State)
    requires Shapes(s)
    requires s'.memory.control.revision >= 0 && s'.memory.session == s.memory.session
    requires s'.history.sent == s.history.sent
    requires s'.exchange == s.exchange || s'.exchange == Idle
      || ((s.exchange.Answered? || s.exchange.Applying?) && s'.exchange.Applying?
          && s'.exchange.resp == s.exchange.resp && s'.exchange.env == s.exchange.env)
    ensures Shapes(s')
  {
  }

  lemma ShapesDelivered(s: State)
    requires Shapes(s) && s.server.control.revision >= 1
    ensures Shapes(AfterDeliver(s))
  {
    if s.exchange.Sent? && Receive(s.server, s.exchange.env.req).Success? {
      var resp := DeliverFrame(s);
    }
  }

  lemma ShapesCycle(s: State, now: int, sessions: seq<Session>)
    requires Shapes(s)
    ensures Shapes(AfterCycle(s, now, sessions))
  {
    hide Step;
    CycleFrame(s, now, sessions);
  }

  lemma {:induction false} ShapesStep(s: State, l: Label)
    requires Inv(s) && Shapes(s)
    ensures Shapes(Next(s, l))
  {
    assert s.server.control.revision >= 1 by { assert OrderInv(s); }
    ShapesLabel(s, l);
  }

  lemma ShapesLabel(s: State, l: Label)
    requires Shapes(s) && s.server.control.revision >= 1
    ensures Shapes(Next(s, l))
  {
    match l
    case Cycle(now, sessions) => ShapesCycle(s, now, sessions);
    case Deliver => ShapesDelivered(s);
    case Apply => ShapesStay(s, AfterApply(s));
    case _ =>
  }

  ghost predicate Sane(s: State) {
    Inv(s) && Shapes(s)
  }

  lemma {:induction false} RunShapes(every: int, labels: seq<Label>)
    requires every > 0
    ensures Inv(Run(Init(every), labels)) && Shapes(Run(Init(every), labels))
    decreases |labels|
  {
    RunInv(every, labels);
    if labels != [] {
      var front := labels[..|labels| - 1];
      RunShapes(every, front);
      ShapesStep(Run(Init(every), front), labels[|labels| - 1]);
    }
  }

  // ------------------------------------------------------------------- no stuck queue

  /** What the agent's own state cannot guarantee: the session identifier comes
      from the desktop, the day's usage from the clock. */
  predicate Acceptable(req: Request) {
    (req.sessionActive ==> ValidOpaqueIdentifier(req.sessionId)) && req.secondsUsed <= MAX_DAILY_USAGE
  }

  /** Any request ever sent passes every check of the server, then and later,
      exactly if its session identifier is valid and its usage is below 48 hours.
      In particular no revision is ever ahead. */
  lemma {:induction false} AcceptedIff(every: int, labels: seq<Label>, env: Envelope)
    requires every > 0 && env in Run(Init(every), labels).history.sent
    ensures Receive(Run(Init(every), labels).server, env.req).Success? <==> Acceptable(env.req)
  {
    RunShapes(every, labels);
    Accepted(Run(Init(every), labels), env);
  }

  lemma Accepted(s: State, env: Envelope)
    requires Inv(s) && Shapes(s) && env in s.history.sent
    ensures Receive(s.server, env.req).Success? <==> Acceptable(env.req)
  {
    hide Inv, Shapes, AnchorInv;
    SentFacts(s, env);
    forall e | e in env.req.events
      ensures ValidEvent(e)
    {
      assert e in s.history.grants;
    }
  }

  /** What the invariants say of a request that was sent. */
  lemma SentFacts(s: State, env: Envelope)
    requires Inv(s) && Shapes(s) && env in s.history.sent
    ensures RequestRevisions(s, env) && Shaped(env.req) && Slice(s.history.grants, env, Acked(s))
    ensures Applied(s.history, s.disk.bonus, env.req.acks) && Names(s.history)
    ensures env.req.secondsUsed >= 0 && s.server.deviceRevision == s.server.policy.revision
    ensures forall e :: e in s.history.grants ==> ValidEvent(e)
  {
    hide OrderInv, AnchorInv, Commands, Replies, Revisions;
  }

  /** No transaction of an answer is ever refused: never a stale policy, an
      incoherent session state or an invalid command. */
  lemma {:induction false} ApplyNeverFails(every: int, labels: seq<Label>)
    requires every > 0
    requires var x := Run(Init(every), labels).exchange; x.Applying? && !x.phase.Done?
    ensures var s := Run(Init(every), labels);
      ApplyPhase(s.disk, s.exchange.env.req, s.exchange.resp, s.exchange.phase).Success?
  {
    RunShapes(every, labels);
    PhaseSucceeds(Run(Init(every), labels));
  }

  lemma {:induction false} PhaseSucceeds(s: State)
    requires Inv(s) && Shapes(s) && s.exchange.Applying? && !s.exchange.phase.Done?
    ensures ApplyPhase(s.disk, s.exchange.env.req, s.exchange.resp, s.exchange.phase).Success?
  {
    hide UsageOn, GrantRows, Distinct, OrderInv, AnchorInv, Commands, Rows;
    var env, resp, phase := s.exchange.env, s.exchange.resp, s.exchange.phase;
    match phase
    case Acking(k) =>
      assert Slice(s.history.grants, env, Acked(s));
      if k < |resp.acknowledgedEvents| {
        assert env.req.events[k] in s.history.grants;
      }
    case Forgetting =>
      assert Applied(s.history, s.disk.bonus, env.req.acks);
    case Replacing =>
    case Anchoring =>
    case Commanding(k) =>
      if k < |resp.commands| {
        assert SoundOffer(s.history, s.server.bonus, ReplyRevision(env, resp), resp.commands[k]);
      }
  }

  // --------------------------------------------------------------- a whole heartbeat

  function StepsLeft(x: Exchange): nat {
    match x
    case Answered(_, resp, _) => PhasesLeft(resp, Acking(0)) + 2
    case Applying(_, resp, _, phase) => PhasesLeft(resp, phase) + 1
    case _ => 0
  }

  /** The client applies the answer it holds to the end. */
  ghost function Settle(s: State): State
    decreases StepsLeft(s.exchange)
  {
    if s.exchange.Answered? || s.exchange.Applying? then Settle(AfterApply(s)) else s
  }

  /** One undisturbed heartbeat for a date. */
  ghost function HeartbeatRound(s: State, date: Date): State {
    Settle(AfterDeliver(AfterBuild(s, date)))
  }

  /** What the rest of an answer leaves alone. */
  ghost predicate SameAnswer(s: State, s': State)
    requires s.exchange.Answered? || s.exchange.Applying?
  {
    && s'.exchange.Applying? && s'.exchange.env == s.exchange.env && s'.exchange.resp == s.exchange.resp
    && s'.server == s.server && s'.meter == s.meter
    && s'.history == s.history.(excess := s'.history.excess)
    && s'.memory == (if s.exchange.Answered? then s.memory.(control := ControlOf(s.exchange.resp)) else s.memory)
    && (s.exchange.resp.sessionState.None? ==> s'.disk.anchor == s.disk.anchor)
    && (forall d :: UsageOn(s'.disk.usage, d) == UsageOn(s.disk.usage, d))
  }

  lemma ApplyFrame(s: State)
    requires PolicyInv(s) && UsageInv(s)
    requires s.exchange.Answered? || (s.exchange.Applying? && !s.exchange.phase.Done?)
    requires s.exchange.Applying? ==>
      ApplyPhase(s.disk, s.exchange.env.req, s.exchange.resp, s.exchange.phase).Success?
    ensures SameAnswer(s, AfterApply(s))
    ensures StepsLeft(AfterApply(s).exchange) < StepsLeft(s.exchange)
  {
    hide PolicyInv, UsageInv;
    if s.exchange.Applying? {
      PhaseFrame(s.disk, s.exchange.env.req, s.exchange.resp, s.exchange.phase);
      UsageInvariant.PhaseKeeps(s, s.exchange.env, s.exchange.resp, s.exchange.excess, s.exchange.phase);
    }
  }

  lemma {:induction false} ApplyAdvances(s: State) returns (next: State)
    requires Sane(s) && (s.exchange.Answered? || (s.exchange.Applying? && !s.exchange.phase.Done?))
    ensures next == AfterApply(s) && Sane(next) && SameAnswer(s, next)
    ensures StepsLeft(next.exchange) < StepsLeft(s.exchange)
  {
    hide PolicyInv, UsageInv, CreditInv, LocalInv, OrderInv, AnchorInv, Shapes;
    next := AfterApply(s);
    assert next == Next(s, Apply);
    StepInv(s, Apply);
    ShapesStep(s, Apply);
    if s.exchange.Applying? {
      PhaseSucceeds(s);
    }
    ApplyFrame(s);
  }

  lemma {:induction false} SettleReachesDone(s: State) returns (done: State)
    requires Sane(s) && (s.exchange.Answered? || s.exchange.Applying?)
    ensures Sane(done) && done.exchange.Applying? && done.exchange.phase.Done?
    ensures SameAnswer(s, done) && Settle(s) == done.(exchange := Idle)
    decreases StepsLeft(s.exchange)
  {
    if s.exchange.Applying? && s.exchange.phase.Done? {
      done := s;
    } else {
      var next := ApplyAdvances(s);
      done := SettleReachesDone(next);
    }
  }

  /** Both sides agree: same policy, same control flags, same usage of the date;
      the anchor is current for the session in front; and no credit is missing. */
  ghost predicate Agreed(s: State, date: Date) {
    && s.disk.policy == Some(s.server.policy)
    && s.memory.control
       == RemoteControl(true, s.server.control.paused, s.server.control.blocked, s.server.control.revision)
    && UsageOn(s.disk.usage, date) == UsageOn(s.server.usage, date)
    && (s.memory.session.active ==>
          AnchorCurrent(s) && s.disk.anchor.value.date == date && s.disk.anchor.value.sessionId == s.memory.session.id)
    && (|Unacknowledged(s.server.commands)| <= BATCH ==>
          forall id :: id in s.history.credits ==> id in s.disk.bonus && id in s.server.bonus)
  }

  function Drop<T>(rows: seq<T>, n: nat): seq<T> {
    if |rows| <= n then [] else rows[n..]
  }

  lemma RoundBuilt(s: State, date: Date) returns (built: State)
    requires Sane(s) && s.exchange.Idle?
    ensures built == AfterBuild(s, date) && Sane(built) && built.exchange.Sent?
    ensures built.exchange.env.req == BuildRequest(s.disk, s.memory, date)
    ensures built.exchange.env in built.history.sent
    ensures built == s.(exchange := built.exchange, history := s.history.(sent := built.history.sent))
  {
    hide Inv, Shapes;
    built := AfterBuild(s, date);
    assert built == Next(s, Build(date));
    StepInv(s, Build(date));
    ShapesStep(s, Build(date));
  }

  lemma HeardUsage(s: State, env: Envelope)
    requires UsageInv(s) && env in s.history.sent && env.req.secondsUsed == UsageOn(s.disk.usage, env.req.date)
    ensures UsageOn(Heard(s, env).server.usage, env.req.date) == env.req.secondsUsed
  {
  }

  /** The state in which the answer of a heartbeat arrives. */
  lemma {:induction false} RoundAnswered(built: State) returns (answered: State)
    requires Sane(built) && built.exchange.Sent? && Acceptable(built.exchange.env.req)
    requires built.exchange.env in built.history.sent
    requires built.exchange.env.req.secondsUsed == UsageOn(built.disk.usage, built.exchange.env.req.date)
    ensures answered == AfterDeliver(built) && Sane(answered)
    ensures answered.exchange.Answered? && answered.exchange.env == built.exchange.env
    ensures ReplyRevision(answered.exchange.env, answered.exchange.resp) == answered.server.policy.revision
    ensures answered.exchange.resp.control == answered.server.control
    ensures answered.history.backlog == |Unacknowledged(answered.server.commands)|
    ensures answered.disk == built.disk && answered.memory == built.memory && answered.meter == built.meter
    ensures answered.server.policy == built.server.policy && answered.server.control == built.server.control
    ensures answered.history.grants == built.history.grants
    ensures var env := built.exchange.env; UsageOn(answered.server.usage, env.req.date) == env.req.secondsUsed
  {
    hide Shapes, UsageInv, CreditInv, LocalInv, OrderInv, AnchorInv;
    Accepted(built, built.exchange.env);
    var resp := DeliverFrame(built);
    HeardUsage(built, built.exchange.env);
    answered := AfterDeliver(built);
    assert answered == Next(built, Deliver);
    StepInv(built, Deliver);
    ShapesStep(built, Deliver);
    assert RequestRevisions(built, built.exchange.env);
  }

  /** The anchor after an answer, if a session was in front when it was built. */
  lemma {:induction false} AnchorAfter(before: Disk, memory: Memory, date: Date, done: State)
    requires Inv(done) && done.exchange.Applying? && done.exchange.phase.Done?
    requires done.exchange.env.req == BuildRequest(before, memory, date) && memory.session.active
    requires done.exchange.resp.sessionState.None? ==> done.disk.anchor == before.anchor
    requires before.anchor.Some? ==> before.policy.Some? && before.anchor.value.revision <= before.policy.value.revision
    ensures AnchorCurrent(done) && done.disk.anchor.value.date == date
    ensures done.disk.anchor.value.sessionId == memory.session.id
  {
    var env, resp := done.exchange.env, done.exchange.resp;
    assert SoundReply(done.history.policies, env, resp);
    if resp.sessionState.None? {
      assert resp.policy.None?;
    }
  }

  /** Done means delivered: the answered policy and every credit of its revision. */
  lemma {:induction false} DoneDelivers(done: State)
    requires Inv(done) && done.exchange.Applying? && done.exchange.phase.Done?
    ensures var rev := ReplyRevision(done.exchange.env, done.exchange.resp);
      && done.disk.policy == Some(done.history.policies[rev])
      && (done.history.backlog <= BATCH ==>
            forall id :: id in done.history.credits && done.history.credits[id].revision <= rev ==>
              id in done.disk.bonus)
    ensures done.disk.pending == Drop(done.history.grants, End(done.exchange.env))
  {
    hide UsageInv, OrderInv, AnchorInv, Commands, Rows, GrantRows;
    var env, resp := done.exchange.env, done.exchange.resp;
    assert Offer(done.history, done.server.bonus, done.disk.bonus, ReplyRevision(env, resp), resp, |resp.commands|);
  }

  /** What a completed heartbeat keeps and what it takes off the queue. */
  ghost predicate OneRound(s: State, s': State) {
    && s'.exchange.Idle?
    && s'.server.policy == s.server.policy && s'.server.control == s.server.control
    && s'.memory.session == s.memory.session && s'.history.grants == s.history.grants
    && (forall d :: UsageOn(s'.disk.usage, d) == UsageOn(s.disk.usage, d))
    && s'.disk.pending == Drop(s.disk.pending, BATCH)
  }

  lemma {:induction false} RoundDone(s: State, date: Date) returns (answered: State, done: State)
    requires Sane(s) && s.exchange.Idle? && Acceptable(BuildRequest(s.disk, s.memory, date))
    ensures Sane(answered) && answered.exchange.Answered?
    ensures answered.exchange.env.req == BuildRequest(s.disk, s.memory, date)
    ensures answered.disk == s.disk && answered.memory == s.memory && answered.history.grants == s.history.grants
    ensures answered.meter == s.meter
    ensures ReplyRevision(answered.exchange.env, answered.exchange.resp) == answered.server.policy.revision
    ensures answered.exchange.resp.control == answered.server.control
    ensures answered.history.backlog == |Unacknowledged(answered.server.commands)|
    ensures answered.server.policy == s.server.policy && answered.server.control == s.server.control
    ensures UsageOn(answered.server.usage, date) == UsageOn(s.disk.usage, date)
    ensures Sane(done) && done.exchange.Applying? && done.exchange.phase.Done?
    ensures SameAnswer(answered, done) && HeartbeatRound(s, date) == done.(exchange := Idle)
  {
    var built := RoundBuilt(s, date);
    answered := RoundAnswered(built);
    done := SettleReachesDone(answered);
  }

  lemma {:induction false} RoundParts(s: State, date: Date, answered: State, done: State)
    requires Sane(s) && Sane(answered) && answered.exchange.Answered? && Sane(done)
    requires answered.exchange.env.req == BuildRequest(s.disk, s.memory, date)
    requires answered.disk == s.disk && answered.memory == s.memory && answered.history.grants == s.history.grants
    requires ReplyRevision(answered.exchange.env, answered.exchange.resp) == answered.server.policy.revision
    requires answered.exchange.resp.control == answered.server.control
    requires answered.history.backlog == |Unacknowledged(answered.server.commands)|
    requires answered.server.policy == s.server.policy && answered.server.control == s.server.control
    requires UsageOn(answered.server.usage, date) == UsageOn(s.disk.usage, date)
    requires done.exchange.Applying? && done.exchange.phase.Done? && SameAnswer(answered, done)
    ensures OneRound(s, done.(exchange := Idle)) && Agreed(done.(exchange := Idle), date)
  {
    DoneDelivers(done);
    RoundQueue(s, answered, done);
    AllHeld(answered, done);
    if s.memory.session.active {
      AnchorAfter(s.disk, s.memory, date, done);
    }
  }

  lemma {:induction false} DoneIdles(done: State)
    requires Sane(done) && done.exchange.Applying? && done.exchange.phase.Done?
    ensures Sane(done.(exchange := Idle))
  {
    hide Inv, Shapes;
    assert done.(exchange := Idle) == Next(done, Apply);
    StepInv(done, Apply);
    ShapesStep(done, Apply);
  }

  /** One completed heartbeat without a concurrent administrator makes both sides
      agree and takes one batch off the queue. */
  lemma {:induction false} RoundAgrees(s: State, date: Date) returns (s': State)
    requires Sane(s) && s.exchange.Idle? && Acceptable(BuildRequest(s.disk, s.memory, date))
    ensures s' == HeartbeatRound(s, date) && Sane(s') && OneRound(s, s') && Agreed(s', date)
  {
    var answered, done := RoundDone(s, date);
    s' := done.(exchange := Idle);
    DoneIdles(done);
    RoundParts(s, date, answered, done);
  }

  /** From any reachable state in which the client is idle, one undisturbed heartbeat
      for a valid session and a day below 48 hours makes both sides agree. */
  lemma {:induction false} HeartbeatAgrees(every: int, labels: seq<Label>, date: Date)
    requires every > 0
    requires var s := Run(Init(every), labels);
      s.exchange.Idle? && Acceptable(BuildRequest(s.disk, s.memory, date))
    ensures var s := Run(Init(every), labels);
      var s' := HeartbeatRound(s, date);
      OneRound(s, s') && Agreed(s', date)
  {
    hide Inv, Shapes, OneRound, Agreed, HeartbeatRound, BuildRequest;
    RunShapes(every, labels);
    var s' := RoundAgrees(Run(Init(every), labels), date);
  }

  lemma {:induction false} AllHeld(answered: State, done: State)
    requires Sane(answered) && Sane(done) && answered.exchange.Answered?
    requires done.exchange.Applying? && done.exchange.phase.Done? && SameAnswer(answered, done)
    requires ReplyRevision(answered.exchange.env, answered.exchange.resp) == answered.server.policy.revision
    requires answered.history.backlog == |Unacknowledged(answered.server.commands)|
    ensures done.disk.policy == Some(done.server.policy)
    ensures |Unacknowledged(done.server.commands)| <= BATCH ==>
      forall id :: id in done.history.credits ==> id in done.disk.bonus && id in done.server.bonus
  {
    DoneDelivers(done);
  }

  lemma RoundQueue(s: State, answered: State, done: State)
    requires LocalInv(s) && LocalInv(answered) && answered.exchange.Answered?
    requires answered.history.grants == s.history.grants && answered.disk == s.disk
    requires done.history.grants == s.history.grants
    requires done.disk.pending == Drop(s.history.grants, End(answered.exchange.env))
    requires answered.exchange.env.req.events == First(s.disk.pending, BATCH)
    ensures done.disk.pending == Drop(s.disk.pending, BATCH)
  {
    var env := answered.exchange.env;
    assert Slice(s.history.grants, env, Acked(s));
    assert env.from == Acked(s);
  }

  // -------------------------------------------------------------------- draining

  ghost function RoundsOf(s: State, date: Date, n: nat): State {
    if n == 0 then s else HeartbeatRound(RoundsOf(s, date, n - 1), date)
  }

  lemma {:induction false} DropTwice<T>(rows: seq<T>, a: nat, b: nat)
    ensures Drop(Drop(rows, a), b) == Drop(rows, a + b)
  {
  }

  lemma StillAcceptable(s: State, s': State, date: Date)
    requires Acceptable(BuildRequest(s.disk, s.memory, date))
    requires s'.memory.session == s.memory.session && UsageOn(s'.disk.usage, date) == UsageOn(s.disk.usage, date)
    ensures Acceptable(BuildRequest(s'.disk, s'.memory, date))
  {
  }

  /** What n completed heartbeats keep, and what they take off the queue. */
  ghost predicate After(s: State, s': State, n: nat) {
    && s'.exchange.Idle? && s'.history.grants == s.history.grants && s'.memory.session == s.memory.session
    && (forall d :: UsageOn(s'.disk.usage, d) == UsageOn(s.disk.usage, d))
    && s'.disk.pending == Drop(s.disk.pending, n * BATCH)
  }

  lemma AfterOneMore(s: State, before: State, s': State, n: nat)
    requires After(s, before, n) && OneRound(before, s')
    ensures After(s, s', n + 1)
  {
    DropTwice(s.disk.pending, n * BATCH, BATCH);
  }

  lemma {:induction false} PendingAfter(s: State, date: Date, n: nat) returns (s': State)
    requires Sane(s) && s.exchange.Idle? && Acceptable(BuildRequest(s.disk, s.memory, date))
    ensures s' == RoundsOf(s, date, n) && Sane(s') && After(s, s', n)
    decreases n
  {
    hide Sane, Agreed, HeartbeatRound, BuildRequest;
    if n == 0 {
      s' := s;
    } else {
      var before := PendingAfter(s, date, n - 1);
      StillAcceptable(s, before, date);
      s' := RoundAgrees(before, date);
      AfterOneMore(s, before, s', n - 1);
    }
  }

  /** A queue of pending events is empty after one round per hundred, rounded up,
      and not a round earlier; the server then holds every grant's row. */
  lemma QueueDrains(s: State, date: Date, n: nat)
    requires Sane(s) && s.exchange.Idle? && Acceptable(BuildRequest(s.disk, s.memory, date))
    ensures var s' := RoundsOf(s, date, n);
      && (s'.disk.pending == [] <==> n >= (|s.disk.pending| + BATCH - 1) / BATCH)
      && (s'.disk.pending == [] ==> OfOrigin(s'.server.bonus, Local) == OfOrigin(s'.disk.bonus, Local))
  {
    hide PolicyInv, UsageInv, CreditInv, OrderInv, AnchorInv, Shapes;
    var s' := PendingAfter(s, date, n);
    if s'.disk.pending == [] {
      assert s'.history.grants[..s'.history.known] == s'.history.grants;
    }
  }

  // --------------------------------------------------------- balance after a heartbeat

  lemma {:induction false} RunFirst(s: State, l: Label, next: State, rest: seq<Label>, end: State)
    returns (labels: seq<Label>)
    requires next == Next(s, l) && end == Run(next, rest)
    ensures Run(s, labels) == end && forall x :: x in labels ==> x == l || x in rest
  {
    labels := [l] + rest;
    assert [l][..0] == [];
    assert Run(s, [l]) == next;
    RunConcat(s, [l], rest);
  }

  lemma SettleFirst(s: State, next: State)
    requires s.exchange.Answered? || s.exchange.Applying?
    requires next == AfterApply(s)
    ensures Settle(s) == Settle(next)
  {
  }

  lemma LastApply(done: State)
    requires done.exchange.Applying? && done.exchange.phase.Done?
    ensures AfterApply(done) == done.(exchange := Idle) && Settle(done) == done.(exchange := Idle)
  {
  }

  predicate OnlyApplies(labels: seq<Label>) {
    forall l :: l in labels ==> l == Apply
  }

  lemma {:induction false} SettleIsRun(s: State) returns (labels: seq<Label>, end: State)
    requires Sane(s) && (s.exchange.Answered? || s.exchange.Applying?)
    ensures end == Settle(s) && Run(s, labels) == end && OnlyApplies(labels)
    decreases StepsLeft(s.exchange)
  {
    hide Sane, Settle, AfterApply;
    if s.exchange.Applying? && s.exchange.phase.Done? {
      LastApply(s);
      end := s.(exchange := Idle);
      labels := RunFirst(s, Apply, end, [], end);
    } else {
      var next := ApplyAdvances(s);
      SettleFirst(s, next);
      var rest;
      rest, end := SettleIsRun(next);
      labels := RunFirst(s, Apply, next, rest, end);
    }
  }

  lemma ClientSteps(s: State, date: Date)
    ensures Next(s, Build(date)) == AfterBuild(s, date) && Next(s, Deliver) == AfterDeliver(s)
  {
  }

  predicate OfRound(labels: seq<Label>, date: Date) {
    forall l :: l in labels ==> l == Build(date) || l == Deliver || l == Apply
  }

  lemma {:induction false} DeliveryIsRun(built: State) returns (labels: seq<Label>, end: State)
    requires Sane(built) && built.exchange.Sent? && Acceptable(built.exchange.env.req)
    requires built.exchange.env in built.history.sent
    requires built.exchange.env.req.secondsUsed == UsageOn(built.disk.usage, built.exchange.env.req.date)
    ensures end == Settle(AfterDeliver(built)) && Run(built, labels) == end
    ensures forall l :: l in labels ==> l == Deliver || l == Apply
  {
    var answered := RoundAnswered(built);
    var rest;
    rest, end := SettleIsRun(answered);
    ClientSteps(built, 0);
    labels := RunFirst(built, Deliver, answered, rest, end);
  }

  /** An undisturbed heartbeat is a run of the system like any other. */
  lemma {:induction false} RoundIsRun(s: State, date: Date) returns (labels: seq<Label>, end: State)
    requires Sane(s) && s.exchange.Idle? && Acceptable(BuildRequest(s.disk, s.memory, date))
    ensures end == HeartbeatRound(s, date) && Run(s, labels) == end && OfRound(labels, date)
  {
    var built := RoundBuilt(s, date);
    var later;
    later, end := DeliveryIsRun(built);
    ClientSteps(s, date);
    labels := RunFirst(s, Build(date), built, later, end);
  }

  // ------------------------------------------------- one meaning of applying an answer

  /** Settling an answer transaction by transaction leaves the tables the client's
      method leaves, and the online authority exactly if none was refused. */
  lemma {:induction false} SettleAppliesAll(s: State)
    requires s.exchange.Applying?
    ensures var r := ApplyAll(s.disk, s.exchange.env.req, s.exchange.resp, s.exchange.phase);
      && Settle(s).disk == r.0 && Settle(s).server == s.server && Settle(s).exchange == Idle
      && Settle(s).memory == if r.1 then s.memory else s.memory.(control := Offline)
    decreases StepsLeft(s.exchange)
  {
    var env, resp, phase := s.exchange.env, s.exchange.resp, s.exchange.phase;
    if !phase.Done? && ApplyPhase(s.disk, env.req, resp, phase).Success? {
      PhaseAdvances(s.disk, env.req, resp, phase);
      SettleAppliesAll(AfterApply(s));
    }
  }

  lemma PhaseAdvances(disk: Disk, req: Request, resp: Response, phase: Phase)
    requires !phase.Done? && ApplyPhase(disk, req, resp, phase).Success?
    ensures PhasesLeft(resp, ApplyPhase(disk, req, resp, phase).value.1) < PhasesLeft(resp, phase)
  {
  }

  /** A heartbeat of the step system leaves what the client's method leaves. */
  lemma {:induction false} RoundAppliesAll(answered: State)
    requires answered.exchange.Answered?
    ensures var r := ApplyAll(answered.disk, answered.exchange.env.req, answered.exchange.resp, Acking(0));
      && Settle(answered).disk == r.0
      && Settle(answered).memory.control == if r.1 then ControlOf(answered.exchange.resp) else Offline
  {
    var applying := AfterApply(answered);
    SettleFirst(answered, applying);
    SettleAppliesAll(applying);
  }

  // ----------------------------------------------------------- dates after a heartbeat

  /** Rows stay what they were, and new web rows carry this date. */
  ghost predicate RowsDated(before: BonusTable, after: BonusTable, date: Date) {
    && RowsStay(before, after)
    && forall id :: id in after && id !in before && after[id].origin == Web ==> after[id].date == date
  }

  lemma {:induction false} ApplyAllDates(disk: Disk, req: Request, resp: Response, phase: Phase)
    ensures RowsDated(disk.bonus, ApplyAll(disk, req, resp, phase).0.bonus, req.date)
    decreases PhasesLeft(resp, phase)
  {
    if !phase.Done? && ApplyPhase(disk, req, resp, phase).Success? {
      var r := ApplyPhase(disk, req, resp, phase).value;
      PhaseAdvances(disk, req, resp, phase);
      AppliedDates(disk, req, resp, phase);
      ApplyAllDates(r.0, req, resp, r.1);
      assert ApplyAll(disk, req, resp, phase) == ApplyAll(r.0, req, resp, r.1);
    }
  }

  lemma {:induction false} DeliveredDates(built: State) returns (answered: State)
    requires Sane(built) && built.exchange.Sent? && Acceptable(built.exchange.env.req)
    requires built.exchange.env in built.history.sent
    requires built.exchange.env.req.secondsUsed == UsageOn(built.disk.usage, built.exchange.env.req.date)
    ensures answered == AfterDeliver(built) && Sane(answered)
    ensures answered.exchange.Answered? && answered.disk == built.disk
    ensures answered.exchange.env == built.exchange.env && answered.history.credits == built.history.credits
    ensures RowsDated(built.server.bonus, answered.server.bonus, built.exchange.env.req.date)
  {
    hide Shapes, PolicyInv, CreditInv, LocalInv, OrderInv, AnchorInv;
    var env := built.exchange.env;
    assert env.req.secondsUsed >= 0;
    Accepted(built, env);
    var resp := DeliverFrame(built);
    AbsorbedDates(built, env);
    AbsorbGrows(built, env);
    answered := RoundAnswered(built);
  }

  /** An undisturbed heartbeat for a date changes no row and dates every new web row,
      on either side, alike. */
  lemma {:induction false} RoundDates(s: State, date: Date)
    requires Sane(s) && s.exchange.Idle? && Acceptable(BuildRequest(s.disk, s.memory, date))
    ensures var s' := HeartbeatRound(s, date);
      && RowsDated(s.server.bonus, s'.server.bonus, date)
      && RowsDated(s.disk.bonus, s'.disk.bonus, date)
      && s'.history.credits == s.history.credits
  {
    hide Sane, BuildRequest, RowsDated, Acceptable;
    var built := RoundBuilt(s, date);
    RequestDate(s, date);
    var answered := DeliveredDates(built);
    RoundAppliesAll(answered);
    ApplyAllDates(answered.disk, answered.exchange.env.req, answered.exchange.resp, Acking(0));
    RoundKeepsServer(s, date, answered);
  }

  lemma RequestDate(s: State, date: Date)
    ensures BuildRequest(s.disk, s.memory, date).date == date
    ensures BuildRequest(s.disk, s.memory, date).secondsUsed == UsageOn(s.disk.usage, date)
  {
  }

  lemma {:induction false} RoundKeepsServer(s: State, date: Date, answered: State)
    requires answered == AfterDeliver(AfterBuild(s, date)) && Sane(answered) && answered.exchange.Answered?
    ensures HeartbeatRound(s, date).server == answered.server
    ensures var s' := HeartbeatRound(s, date);
      && s'.exchange.Idle? && s'.memory.session == answered.memory.session
      && s'.history == answered.history.(excess := s'.history.excess)
  {
    hide Inv, Shapes;
    var done := SettleReachesDone(answered);
  }

  /** A credit the agent does not hold, and a heartbeat that leaves no more commands
      waiting than one answer carries: both sides then hold it, and date it alike
      exactly if the server had no row for it before, or had dated it as this
      heartbeat does. */
  lemma {:induction false} CreditDatesAgreeIff(every: int, labels: seq<Label>, date: Date, id: Id)
    requires every > 0
    requires var s := Run(Init(every), labels);
      && s.exchange.Idle? && Acceptable(BuildRequest(s.disk, s.memory, date))
      && |Unacknowledged(HeartbeatRound(s, date).server.commands)| <= BATCH
      && id in s.history.credits && id !in s.disk.bonus
    ensures var s := Run(Init(every), labels);
      var s' := HeartbeatRound(s, date);
      && id in s'.server.bonus && id in s'.disk.bonus
      && (s'.server.bonus[id].date == s'.disk.bonus[id].date
          <==> id !in s.server.bonus || s.server.bonus[id].date == date)
  {
    hide Inv, Shapes, HeartbeatRound, BuildRequest;
    RunShapes(every, labels);
    var s := Run(Init(every), labels);
    var s' := RoundAgrees(s, date);
    RoundDates(s, date);
    WebRowsOf(s');
  }

  lemma WebRowsOf(s: State)
    requires Sane(s)
    ensures forall id :: id in s.server.bonus && id in s.history.credits ==> s.server.bonus[id].origin == Web
    ensures forall id :: id in s.disk.bonus && id in s.history.credits ==> s.disk.bonus[id].origin == Web
    ensures forall id :: id in s.disk.bonus && id in s.history.credits ==> id in s.server.bonus
  {
    hide PolicyInv, UsageInv, LocalInv, OrderInv, AnchorInv, Shapes, Commands, Requests, Replies;
    assert Rows(s.history, s.server.bonus) && Rows(s.history, s.disk.bonus);
  }

  /** Before a heartbeat for a date: a credit both sides hold counts for the date on
      both or on neither, and one only the server holds counts for it. */
  ghost predicate DatesMeet(s: State, date: Date) {
    forall id :: id in s.history.credits && id in s.server.bonus ==>
      if id in s.disk.bonus then s.server.bonus[id].date == date <==> s.disk.bonus[id].date == date
      else s.server.bonus[id].date == date
  }

  lemma {:induction false} DatesMeetIff(s: State, s': State, date: Date)
    requires Sane(s) && Sane(s') && s'.history.credits == s.history.credits
    requires RowsDated(s.server.bonus, s'.server.bonus, date) && RowsDated(s.disk.bonus, s'.disk.bonus, date)
    requires forall id :: id in s'.history.credits ==> id in s'.disk.bonus && id in s'.server.bonus
    ensures SameDates(s', date) <==> DatesMeet(s, date)
  {
    hide Sane;
    WebRowsOf(s);
    WebRowsOf(s');
  }

  lemma AgreedIsBalanced(s: State, date: Date)
    requires Agreed(s, date) && s.memory.session.active
    requires |Unacknowledged(s.server.commands)| <= BATCH
    ensures AnchorCurrent(s) && s.disk.anchor.value.date == date
    ensures Balanced(s) <==> SameDates(s, date)
  {
  }

  lemma {:induction false} RoundBalances(s: State, date: Date)
    requires Sane(s) && s.exchange.Idle? && s.memory.session.active
    requires Acceptable(BuildRequest(s.disk, s.memory, date))
    requires |Unacknowledged(HeartbeatRound(s, date).server.commands)| <= BATCH
    ensures var s' := HeartbeatRound(s, date);
      && s'.meter == s.meter && AnchorCurrent(s') && s'.disk.anchor.value.date == date
      && (Balanced(s') <==> DatesMeet(s, date))
  {
    hide Inv, Shapes, HeartbeatRound, BuildRequest, Balanced, DatesMeet, SameDates, RowsDated;
    var s' := RoundAgrees(s, date);
    RoundDates(s, date);
    DatesMeetIff(s, s', date);
    AgreedIsBalanced(s', date);
    RoundKeepsMeter(s, date);
  }

  /** After a completed heartbeat, with a session in front and no more commands waiting
      than one answer carries, the two authorities are balanced exactly if the dates met
      before it; then the anchor and the agent's own tables give the same balance, and
      if the server's clamp at zero fired, the anchor gives no less. */
  lemma {:induction false} HeartbeatBalances(every: int, labels: seq<Label>, date: Date)
    requires every > 0
    requires var s := Run(Init(every), labels);
      && s.exchange.Idle? && s.memory.session.active && Acceptable(BuildRequest(s.disk, s.memory, date))
      && s.meter.counter.Some? && s.meter.counter.value.date == date
      && |Unacknowledged(HeartbeatRound(s, date).server.commands)| <= BATCH
    ensures var s := Run(Init(every), labels);
      var s' := HeartbeatRound(s, date);
      && MetersAnchor(s')
      && (Balanced(s') <==> DatesMeet(s, date))
      && (DatesMeet(s, date) ==>
            var counter := s'.meter.counter.value;
            var online := AnchorBalance(s'.disk.anchor, counter);
            var offline := LocalBalance(s'.disk, counter, WeekdayOfDate(date));
            online >= offline && (s'.history.excess == 0 ==> online == offline))
  {
    hide Inv, Shapes, HeartbeatRound, BuildRequest, Balanced, DatesMeet, Unacknowledged;
    RunShapes(every, labels);
    var s := Run(Init(every), labels);
    RoundBalances(s, date);
    if DatesMeet(s, date) {
      var more, end := RoundIsRun(s, date);
      RunConcat(Init(every), labels, more);
      SwitchingKeepsBalance(every, labels + more);
    }
  }

  /** In particular the dates meet on a run whose heartbeats all fell on this date. */
  lemma {:induction false} OneDayMeets(every: int, labels: seq<Label>, date: Date)
    requires every > 0 && forall l :: l in labels && l.Build? ==> l.date == date
    ensures DatesMeet(Run(Init(every), labels), date)
  {
    hide Inv, Shapes;
    RunShapes(every, labels);
    OneDayRun(every, labels, date);
    WebRowsOf(Run(Init(every), labels));
  }

  lemma {:induction false} RoundKeepsMeter(s: State, date: Date)
    requires Sane(s) && s.exchange.Idle? && Acceptable(BuildRequest(s.disk, s.memory, date))
    ensures HeartbeatRound(s, date).meter == s.meter
  {
    var answered, done := RoundDone(s, date);
  }
}
