/**
  Two heartbeats: what the first delivers, the second confirms.
*/
module Progress {
  import opened Wrappers
  import opened Calendar
  import opened Records
  import opened AgentTables
  import opened Accounting
  import opened AccountingLaws
  import opened ServerTables
  import opened Heartbeat
  import opened System
  import opened OrderInvariant
  import opened Safety
  import opened ClientLaws
  import opened Rounds

  // ------------------------------------------------------------ one whole heartbeat

  ghost predicate CanBeat(s: State, date: Date) {
    Sane(s) && s.exchange.Idle? && Acceptable(BuildRequest(s.disk, s.memory, date))
  }

  /** A heartbeat in terms of what each side does to its tables. */
  lemma {:induction false} RoundTables(s: State, date: Date) returns (req: Request, resp: Response)
    requires CanBeat(s, date)
    ensures req == BuildRequest(s.disk, s.memory, date) && req.secondsUsed >= 0
    ensures var s' := HeartbeatRound(s, date);
      && s'.server == Absorb(s.server, req)
      && resp.acknowledgedCommands == req.acks && resp.commands == Offered(s'.server)
      && resp.control == s.server.control
      && ApplyAll(s.disk, req, resp, Acking(0)) == (s'.disk, true)
      && s'.history.completed == s.history.completed + NewlyCompleted(s.server, req.acks)
  {
    hide Inv, Shapes, BuildRequest, Settle, ApplyAll, Absorb;
    var built := RoundBuilt(s, date);
    RequestDate(s, date);
    req := built.exchange.env.req;
    Accepted(built, built.exchange.env) by {
      assert built.exchange.env in built.history.sent;
    }
    resp := DeliverFrame(built);
    var answered := RoundAnswered(built);
    RoundKeepsServer(s, date, answered);
    RoundAppliesAll(answered);
    var s' := RoundAgrees(s, date);
  }

  /** A heartbeat leaves no more commands waiting than there were: a hundred at most
      before it are a hundred at most after it. */
  lemma {:induction false} BacklogNeverGrows(s: State, date: Date)
    requires CanBeat(s, date)
    ensures |Unacknowledged(HeartbeatRound(s, date).server.commands)| <= |Unacknowledged(s.server.commands)|
  {
    hide Sane, Settle, HeartbeatRound, ApplyAll, AckAll;
    var req, resp := RoundTables(s, date);
    AckAllShrinks(s.server.commands, req.acks);
  }

  // ------------------------------------------------------ what an answer leaves behind

  function ControlsFrom(commands: seq<Command>, first: nat): nat
    requires first <= |commands|
    decreases |commands| - first
  {
    if first == |commands| then 0
    else ControlsFrom(commands, first + 1) + if commands[first].kind.IsControl() then 1 else 0
  }

  /** The commands from a position on, applied without a failure, add at most one
      acknowledgement for each credit among them. */
  lemma {:induction false} AppliedBounded(disk: Disk, req: Request, resp: Response, first: nat)
    requires first <= |resp.commands| && ApplyAll(disk, req, resp, Commanding(first)).1
    ensures var d := ApplyAll(disk, req, resp, Commanding(first)).0;
      |d.applied| + ControlsFrom(resp.commands, first) <= |disk.applied| + |resp.commands| - first
    decreases |resp.commands| - first
  {
    if first < |resp.commands| {
      var c := resp.commands[first];
      var taken := ApplyCommand(disk, c, resp.control.revision, req.date).value;
      assert ApplyAll(disk, req, resp, Commanding(first)) == ApplyAll(taken, req, resp, Commanding(first + 1));
      AppliedBounded(taken, req, resp, first + 1);
    }
  }

  lemma {:induction false} ControlCounted(commands: seq<Command>, first: nat, at: nat)
    requires first <= at && ControlAt(commands, at)
    ensures ControlsFrom(commands, first) >= 1
    decreases |commands| - first
  {
    if first < at {
      ControlCounted(commands, first + 1, at);
    }
  }

  // -------------------------------------------------------------------- two heartbeats

  /** One answer carries all that is waiting, one request all that is acknowledgeable. */
  predicate WithinBatch(s: State) {
    |Unacknowledged(s.server.commands)| <= BATCH && |s.disk.applied| <= BATCH
  }

  /** Every waiting credit is acknowledgeable. */
  predicate CreditsTaken(s: State) {
    forall c :: c in s.server.commands && c.kind == AddBonus && Pending(c) ==> c.id in s.disk.applied
  }

  predicate ControlWaits(s: State, c: CommandRow) {
    c in s.server.commands && PendingControl(c)
  }

  predicate ControlTaken(s: State, c: CommandRow) {
    && s.disk.staged == Some(Effect(c.id, s.server.control.revision, c.kind))
    && |s.disk.applied| < BATCH
  }

  /** A heartbeat queues no control and forgets no completion. */
  lemma {:induction false} RoundOnlyRemoves(s: State, date: Date)
    requires CanBeat(s, date)
    ensures var s' := HeartbeatRound(s, date);
      && s.history.completed <= s'.history.completed
      && (forall c :: c in s'.server.commands && (Pending(c) || c.kind.IsControl()) ==> c in s.server.commands)
  {
    hide Sane, Settle, HeartbeatRound, ApplyAll, AckAll;
    var req, resp := RoundTables(s, date);
    AllAcknowledged(s.server.commands, req.acks);
  }

  /** What a heartbeat acknowledges is no longer waiting. */
  lemma {:induction false} RoundAcknowledges(s: State, date: Date)
    requires CanBeat(s, date) && WithinBatch(s)
    ensures var s' := HeartbeatRound(s, date);
      && |Unacknowledged(s'.server.commands)| <= BATCH
      && (forall c :: c in s'.server.commands && c.id in s.disk.applied ==> c.kind == AddBonus && !Pending(c))
      && (forall c :: ControlWaits(s, c) ==>
            if c.id in s.disk.applied then c.id in s'.history.completed else c in s'.server.commands)
  {
    hide Sane, Settle, HeartbeatRound, ApplyAll, AckAll;
    var req, resp := RoundTables(s, date);
    assert req.acks == s.disk.applied;
    AllAcknowledged(s.server.commands, req.acks);
    BacklogNeverGrows(s, date);
  }

  /** What is waiting is offered, and what is offered is what is waiting. */
  lemma {:induction false} WaitingIsOffered(server: Server, c: CommandRow) returns (k: nat)
    requires |Unacknowledged(server.commands)| <= BATCH && c in server.commands && Pending(c)
    ensures k < |Offered(server)| && Offered(server)[k] == Command(c.id, c.kind, c.seconds)
  {
    var rows := Unacknowledged(server.commands);
    k :| 0 <= k < |rows| && rows[k] == c;
  }

  lemma {:induction false} OfferedIsWaiting(server: Server, k: nat) returns (c: CommandRow)
    requires k < |Offered(server)|
    ensures c in server.commands && Pending(c) && Offered(server)[k] == Command(c.id, c.kind, c.seconds)
  {
    c := First(Unacknowledged(server.commands), BATCH)[k];
    assert c in Unacknowledged(server.commands);
  }

  lemma {:induction false} OneControlOffered(s: State, i: nat, j: nat)
    requires OrderInv(s) && ControlAt(Offered(s.server), i) && ControlAt(Offered(s.server), j)
    ensures i == j
  {
    var c := OfferedIsWaiting(s.server, i);
    var d := OfferedIsWaiting(s.server, j);
    assert CurrentOrder(s.history, s.server.control, c) && CurrentOrder(s.history, s.server.control, d);
    UnacknowledgedDistinct(s.server.commands);
    var rows := Unacknowledged(s.server.commands);
    if i < j {
      DistinctPositions(rows, i, j);
    } else if j < i {
      DistinctPositions(rows, j, i);
    }
  }

  lemma {:induction false} UnacknowledgedDistinct(commands: seq<CommandRow>)
    requires DistinctCommands(commands)
    ensures DistinctCommands(Unacknowledged(commands))
  {
    if commands != [] {
      UnacknowledgedDistinct(commands[1..]);
      assert Unacknowledged(commands) == Unacknowledged(commands[1..])
          || Unacknowledged(commands)[1..] == Unacknowledged(commands[1..]);
    }
  }

  lemma SomeMember(ids: seq<Id>)
    ensures ids == [] || exists id :: id in ids
  {
    if ids != [] {
      assert ids[0] in ids;
    }
  }

  /** The agent's tables after a heartbeat, in terms of what was offered. */
  lemma {:induction false} RoundApplied(s: State, date: Date) returns (req: Request, resp: Response, before: Disk)
    requires CanBeat(s, date) && WithinBatch(s)
    ensures var s' := HeartbeatRound(s, date);
      && resp.commands == Offered(s'.server) && resp.control == s.server.control
      && ApplyAll(before, req, resp, Commanding(0)) == (s'.disk, true)
      && before.applied == []
  {
    hide Sane, Settle, HeartbeatRound, ApplyAll, Absorb;
    req, resp := RoundTables(s, date);
    assert req.acks == s.disk.applied;
    before := AnswerInstalled(s.disk, req, resp);
    SomeMember(before.applied);
  }

  /** After a heartbeat every credit still waiting is acknowledgeable, and a control
      still waiting is staged with the revision in force. */
  lemma {:induction false} RoundTakes(s: State, date: Date)
    requires CanBeat(s, date) && WithinBatch(s)
    ensures var s' := HeartbeatRound(s, date);
      && WithinBatch(s') && CreditsTaken(s')
      && forall c :: ControlWaits(s', c) ==> ControlTaken(s', c)
  {
    hide Sane, Settle, HeartbeatRound, ApplyAll, BuildRequest, Acceptable;
    var s' := RoundAgrees(s, date);
    RoundAcknowledges(s, date);
    var req, resp, before := RoundApplied(s, date);
    CommandsTake(before, req, resp, 0);
    AppliedBounded(before, req, resp, 0);
    forall c | c in s'.server.commands && c.kind == AddBonus && Pending(c)
      ensures c.id in s'.disk.applied
    {
      var k := WaitingIsOffered(s'.server, c);
      assert CreditAt(resp.commands, k, c.id) && HasCredit(resp.commands, 0, c.id);
    }
    forall c | ControlWaits(s', c)
      ensures ControlTaken(s', c)
    {
      SaneOrders(s');
      ControlIsTaken(s', c, req, resp, before);
    }
  }

  lemma SaneOrders(s: State)
    requires Sane(s)
    ensures OrderInv(s)
  {
  }

  lemma {:induction false} ControlIsTaken(s: State, c: CommandRow, req: Request, resp: Response, before: Disk)
    requires OrderInv(s) && ControlWaits(s, c) && |Unacknowledged(s.server.commands)| <= BATCH
    requires resp.commands == Offered(s.server) && resp.control == s.server.control
    requires ApplyAll(before, req, resp, Commanding(0)) == (s.disk, true) && before.applied == []
    ensures ControlTaken(s, c)
  {
    hide OrderInv, ApplyAll;
    var k := WaitingIsOffered(s.server, c);
    forall j: nat | ControlAt(resp.commands, j)
      ensures j == k
    {
      OneControlOffered(s, j, k);
    }
    LastControlStaged(before, req, resp, 0);
    ControlCounted(resp.commands, 0, k);
    AppliedBounded(before, req, resp, 0);
  }

  /** Two heartbeats, of whatever dates, from a state with no more waiting on either
      side than one message carries: no credit waits any longer, and the administrator
      is shown the server's whole bonus of every date. */
  lemma {:induction false} CreditsConfirmed(every: int, labels: seq<Label>, date: Date, next: Date)
    requires every > 0
    requires var s := Run(Init(every), labels);
      && s.exchange.Idle? && WithinBatch(s) && Acceptable(BuildRequest(s.disk, s.memory, date))
      && var s' := HeartbeatRound(s, date); Acceptable(BuildRequest(s'.disk, s'.memory, next))
    ensures var s := HeartbeatRound(HeartbeatRound(Run(Init(every), labels), date), next);
      && (forall c :: c in s.server.commands && c.kind == AddBonus ==> !Pending(c))
      && (forall d :: DisplayedBonus(s.server, d) == TotalBonus(s.server.bonus, d))
  {
    hide Inv, Shapes, HeartbeatRound, BuildRequest, Acceptable, OneRound, Agreed;
    RunShapes(every, labels);
    var s := Run(Init(every), labels);
    RoundTakes(s, date);
    var s' := RoundAgrees(s, date);
    assert s'.exchange.Idle? by { RoundIdles(s, s'); }
    RoundAcknowledges(s', next);
    RoundOnlyRemoves(s', next);
    var s'' := RoundAgrees(s', next);
    AllShown(s'');
  }

  lemma RoundIdles(s: State, s': State)
    requires OneRound(s, s')
    ensures s'.exchange.Idle?
  {
  }

  /** Nothing is left out of what is shown once no credit waits. */
  lemma AllShown(s: State)
    requires Inv(s) && forall c :: c in s.server.commands && c.kind == AddBonus ==> !Pending(c)
    ensures forall d :: DisplayedBonus(s.server, d) == TotalBonus(s.server.bonus, d)
  {
    hide Inv;
    assert UnacknowledgedBonus(s.server) == map[];
    forall id | id in s.server.bonus
      ensures s.server.bonus[id].seconds > 0
    {
      ServerRow(s, id);
    }
    forall d
      ensures TotalBonus(map[], d) == 0 <= TotalBonus(s.server.bonus, d)
    {
      assert Dated(map[], d) == map[];
      TotalBonusNonNegative(s.server.bonus, d);
    }
  }

  /** A control command from the administrator's request to its completion: one
      heartbeat stages it, one cycle sees its effect, and the next heartbeat completes
      it and takes it off the server's queue. */
  lemma {:induction false} ControlCompletes(every: int, labels: seq<Label>, c: CommandRow, date: Date, now: int,
                                            sessions: seq<Session>, next: Date)
    requires every > 0
    requires var s := Run(Init(every), labels);
      && s.exchange.Idle? && WithinBatch(s) && Acceptable(BuildRequest(s.disk, s.memory, date))
      && ControlWaits(s, c)
      && (c.kind == BlockNow ==> FirstActive(sessions).Some? && FirstActive(sessions).value.locked)
      && (c.kind == ClearManualBlock || c.kind == PauseMonitoring ==>
            FirstActive(sessions).None? || !FirstActive(sessions).value.locked)
      && var delivered := HeartbeatRound(s, date);
         && CanCycle(delivered, now)
         && var seen := AfterCycle(delivered, now, sessions);
            Acceptable(BuildRequest(seen.disk, seen.memory, next))
    ensures var delivered := HeartbeatRound(Run(Init(every), labels), date);
      var s := HeartbeatRound(AfterCycle(delivered, now, sessions), next);
      c.id in s.history.completed && forall x :: x in s.server.commands ==> x.id != c.id || !x.kind.IsControl()
  {
    hide Inv, Shapes, HeartbeatRound, BuildRequest, Acceptable, OneRound, Agreed, AfterCycle;
    RunShapes(every, labels);
    var s := Run(Init(every), labels);
    var delivered := RoundAgrees(s, date);
    var seen := AfterCycle(delivered, now, sessions);
    RoundIdles(s, delivered);
    RoundTakes(s, date);
    RoundAcknowledges(s, date);
    CycleShows(delivered, date, now, sessions, seen);
    RoundOnlyRemoves(seen, next);
    if c.id !in s.disk.applied {
      CycleConfirms(delivered, date, c, now, sessions, seen);
      RoundAcknowledges(seen, next);
    }
  }

  /** A cycle leaves the server and the completions alone. */
  lemma {:induction false} CycleShows(s: State, date: Date, now: int, sessions: seq<Session>, seen: State)
    requires Sane(s) && s.exchange.Idle? && seen == AfterCycle(s, now, sessions)
    ensures Sane(seen) && seen.exchange.Idle?
    ensures seen.server == s.server && seen.history.completed == s.history.completed
  {
    hide Inv, Shapes, AfterCycle;
    assert Next(s, Label.Cycle(now, sessions)) == seen;
    StepInv(s, Label.Cycle(now, sessions));
    ShapesStep(s, Label.Cycle(now, sessions));
    CycleFrame(s, now, sessions);
  }

  /** A cycle that sees the effect of the staged control makes it acknowledgeable. */
  lemma {:induction false} CycleConfirms(s: State, date: Date, c: CommandRow, now: int, sessions: seq<Session>,
                                         seen: State)
    requires Agreed(s, date) && ControlTaken(s, c)
    requires CanCycle(s, now) && Confirms(c.kind, FirstActive(sessions)) && seen == AfterCycle(s, now, sessions)
    ensures c.id in seen.disk.applied && |seen.disk.applied| <= BATCH
  {
    hide Step;
    StepSound(s.meter, s.disk, s.memory.control, sessions, now, s.every);
  }

  // ---------------------------------------------------------------- what is reported

  /** A request built after a cycle tells the server which session the cycle saw in
      front, and whether it was locked. */
  lemma {:induction false} CycleIsReported(s: State, now: int, sessions: seq<Session>, date: Date)
    requires CanCycle(s, now) && s.exchange.Idle?
    ensures var reported := Next(Next(s, Label.Cycle(now, sessions)), Build(date)).exchange;
      var front := FirstActive(sessions);
      && reported.Sent?
      && reported.env.req.sessionActive == front.Some?
      && reported.env.req.sessionId == (if front.Some? then front.value.key else "")
      && reported.env.req.sessionLocked == (front.Some? && front.value.locked)
      && reported.env.req.controlRevision == s.memory.control.revision
  {
    hide Step;
    CycleFrame(s, now, sessions);
  }

  /** A second heartbeat of the date, with nothing new on the server, has nothing to
      bring: the request carries the revisions in force, and the answer neither a policy
      nor a balance. */
  lemma {:induction false} SecondHeartbeatIsQuiet(every: int, labels: seq<Label>, date: Date)
    requires every > 0
    requires var s := Run(Init(every), labels);
      s.exchange.Idle? && Acceptable(BuildRequest(s.disk, s.memory, date))
    ensures var s := HeartbeatRound(Run(Init(every), labels), date);
      var req := BuildRequest(s.disk, s.memory, date);
      && req.policyRevision == s.server.policy.revision && req.controlRevision == s.server.control.revision
      && !req.requestSessionState
      && Receive(s.server, req).Success?
      && Receive(s.server, req).value.1.policy.None? && Receive(s.server, req).value.1.sessionState.None?
  {
    hide Inv, Shapes, HeartbeatRound, OneRound, Receive;
    RunShapes(every, labels);
    var s := RoundAgrees(Run(Init(every), labels), date);
    assert Acceptable(BuildRequest(s.disk, s.memory, date)) by {
      RoundStillAcceptable(Run(Init(every), labels), s, date);
    }
    QuietAnswer(s, date);
  }

  lemma RoundStillAcceptable(s: State, s': State, date: Date)
    requires OneRound(s, s') && Acceptable(BuildRequest(s.disk, s.memory, date))
    ensures Acceptable(BuildRequest(s'.disk, s'.memory, date)) && s'.exchange.Idle?
  {
    StillAcceptable(s, s', date);
  }

  lemma {:induction false} QuietAnswer(s: State, date: Date)
    requires Sane(s) && s.exchange.Idle? && Agreed(s, date) && Acceptable(BuildRequest(s.disk, s.memory, date))
    ensures var req := BuildRequest(s.disk, s.memory, date);
      && Receive(s.server, req).Success?
      && Receive(s.server, req).value.1.policy.None? && Receive(s.server, req).value.1.sessionState.None?
  {
    hide Inv, Shapes;
    var built := RoundBuilt(s, date);
    Accepted(built, built.exchange.env);
    assert s.server.deviceRevision == s.server.policy.revision by { SaneRevisions(s); }
  }

  lemma SaneRevisions(s: State)
    requires Sane(s)
    ensures s.server.deviceRevision == s.server.policy.revision
  {
  }
}
