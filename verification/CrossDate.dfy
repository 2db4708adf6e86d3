/**
  Across midnight: a run in which server and agent date one credit differently, so
  that the two authorities do not agree although every credit was delivered.
*/
module CrossDate {
  import opened Wrappers
  import opened Calendar
  import opened Policy
  import opened Records
  import opened AgentTables
  import opened Usage
  import opened Accounting
  import opened AccountingLaws
  import opened ServerTables
  import opened Heartbeat
  import opened System
  import opened AnchorInvariant
  import opened Safety
  import opened Balances
  import opened Rounds

  const Installed: Disk := EmptyDisk.(policy := Some(NewDevice.policy))
  const Confirmed: RemoteControl := RemoteControl(true, false, false, 1)
  const InFront: Session := Session("k", true, false)
  const Credited: CommandRow := CommandRow("c", AddBonus, 600, false)
  const Met: Server := NewDevice.(usage := map[0 := 0])
  const Queued: Server :=
    Met.(policy := NewDevice.policy.(revision := 2), deviceRevision := 2, commands := [Credited])
  const Dated0: Server := Queued.(bonus := map["c" := BonusRow(0, 600, Web)])
  const Watching: SessionView := SessionView(true, "k", false)

  /** The tables and the session of a state, whatever its meter and history. */
  predicate Shows(s: State, server: Server, disk: Disk, memory: Memory) {
    s.server == server && s.disk == disk && s.memory == memory && s.exchange == Idle
  }

  lemma SumOne(m: map<Id, int>, id: Id)
    requires m.Keys == {id}
    ensures Sum(m) == m[id]
  {
    SumSplit(m, id);
    assert m - {id} == map[];
  }

  // ---------------------------------------------------------------- the first date

  /** The first heartbeat installs the policy. */
  lemma {:induction false} FirstHeartbeat(every: int) returns (labels: seq<Label>, s: State)
    requires every > 0
    ensures s == Run(Init(every), labels) && Sane(s)
    ensures Shows(s, Met, Installed, Memory(NoSession, Confirmed))
    ensures s.meter == FreshMeter && s.history.used == {}
  {
    hide Inv, Shapes, Receive, Absorb, BuildRequest, ApplyAll, Settle;
    var start := Init(every);
    RunShapes(every, []);
    assert start == Run(start, []);
    var built, answered := FirstAnswered(start);
    ClientSteps(start, 0);
    labels, s := RoundIsRun(start, 0);
    RoundKeepsServer(start, 0, answered);
    RoundAppliesAll(answered);
    FirstApplied(built.exchange.env.req, answered.exchange.resp);
    RoundKeepsMeter(start, 0);
    assert labels == [] + labels;
    RunConcat(start, [], labels);
    RunShapes(every, labels);
  }

  lemma {:induction false} FirstAnswered(start: State) returns (built: State, answered: State)
    requires start.every > 0 && start == Init(start.every) && Sane(start)
    ensures built == AfterBuild(start, 0) && built.exchange.Sent?
    ensures built.exchange.env.req == BuildRequest(EmptyDisk, FreshMemory, 0)
    ensures answered == AfterDeliver(built) && Sane(answered) && answered.exchange.Answered?
    ensures answered.exchange.env == built.exchange.env && answered.disk == EmptyDisk
    ensures answered.memory == FreshMemory && answered.meter == FreshMeter
    ensures answered.server == NewDevice.(usage := map[0 := 0]) && answered.history.used == {}
    ensures answered.exchange.resp == Response([], [], Some(NewDevice.policy), None, [], NewDevice.control)
    ensures Acceptable(BuildRequest(EmptyDisk, FreshMemory, 0))
  {
    hide Inv, Shapes, Receive;
    built := RoundBuilt(start, 0);
    var resp := FirstAnswer(built.exchange.env.req);
    answered := RoundAnswered(built);
    assert answered.exchange.resp == resp;
  }

  lemma {:induction false} FirstAnswer(req: Request) returns (resp: Response)
    requires req == BuildRequest(EmptyDisk, FreshMemory, 0)
    ensures Receive(NewDevice, req).Success?
    ensures Receive(NewDevice, req).value == (NewDevice.(usage := map[0 := 0]), resp)
    ensures resp == Response([], [], Some(NewDevice.policy), None, [], NewDevice.control)
  {
    var after := Absorb(NewDevice, req);
    assert after == NewDevice.(usage := map[0 := 0]);
    resp := Answer(after, req);
  }

  lemma {:induction false} FirstApplied(req: Request, resp: Response)
    requires req == BuildRequest(EmptyDisk, FreshMemory, 0)
    requires resp == Response([], [], Some(NewDevice.policy), None, [], NewDevice.control)
    ensures ApplyAll(EmptyDisk, req, resp, Acking(0)) == (Installed, true)
  {
    assert ApplyAll(Installed, req, resp, Commanding(0)) == (Installed, true);
    assert ApplyAll(Installed, req, resp, Anchoring) == (Installed, true);
    assert ApplyAll(EmptyDisk, req, resp, Replacing) == (Installed, true);
    assert ApplyAll(EmptyDisk, req, resp, Forgetting) == (Installed, true);
  }

  /** A cycle puts a session in front and counts nothing. */
  lemma {:induction false} SessionAppears(s: State) returns (next: State)
    requires Sane(s) && s.meter == FreshMeter && s.history.used == {}
    requires Shows(s, Met, Installed, Memory(NoSession, Confirmed))
    ensures next == Next(s, Label.Cycle(0, [InFront]))
    ensures Shows(next, Met, Installed, Memory(Watching, Confirmed)) && next.history.used == {}
  {
    hide Shapes, Step;
    assert CanCycle(s, 0);
    CycleFrame(s, 0, [InFront]);
    FirstStep(s.every);
    next := AfterCycle(s, 0, [InFront]);
  }

  lemma {:induction false} FirstStep(every: int)
    requires Ready(FreshMeter, Installed, every)
    ensures Step(FreshMeter, Installed, Confirmed, [InFront], 0, every).disk == Installed
    ensures ViewOf(FirstActive([InFront])) == Watching
  {
    assert FirstActive([InFront]) == Some(InFront);
    assert Account(FreshMeter, Installed, Confirmed, true, 0, every) == Books(Counter(0, 0, 0), map[], 0, 0);
  }

  lemma CreditIsQueued(s: State) returns (next: State)
    requires Shows(s, Met, Installed, Memory(Watching, Confirmed)) && s.history.used == {}
    ensures next == Next(s, QueueCredit("c", 600)) && Shows(next, Queued, Installed, Memory(Watching, Confirmed))
  {
    next := AfterQueueCredit(s, "c", 600);
  }

  /** The server credits the first date; the agent never learns of it. */
  lemma {:induction false} AnswerIsLost(s: State) returns (next: State)
    requires Shows(s, Queued, Installed, Memory(Watching, Confirmed))
    ensures next == Next(Next(Next(s, Build(0)), Deliver), LoseAnswer)
    ensures Shows(next, Dated0, Installed, Memory(Watching, Offline))
  {
    hide Receive, Absorb, BuildRequest;
    var built := AfterBuild(s, 0);
    QueuedOffered(built.exchange.env.req);
    var resp := DeliverFrame(built);
    next := Next(Next(built, Deliver), LoseAnswer);
  }

  lemma {:induction false} QueuedOffered(req: Request)
    requires req == BuildRequest(Installed, Memory(Watching, Confirmed), 0)
    ensures Receive(Queued, req).Success? && req.secondsUsed == 0 && Absorb(Queued, req) == Dated0
  {
    assert QueuedCredits([Credited], map[]) == [Credited];
    assert [Credited][..0] == [];
    assert InsertCredits(map[], [Credited], 0) == map["c" := BonusRow(0, 600, Web)];
  }

  // ---------------------------------------------------------------- the next date

  lemma {:induction false} NextAnswer(req: Request) returns (resp: Response)
    requires req == BuildRequest(Installed, Memory(Watching, Offline), 1)
    ensures Receive(Dated0, req).Success?
    ensures Receive(Dated0, req).value == (Dated0.(usage := map[0 := 0, 1 := 0]), resp)
    ensures resp == Response([], [], Some(Dated0.policy), Some(SessionState(2, "k", 1, 0, 0)),
                             [Command("c", AddBonus, 600)], Dated0.control)
  {
    assert QueuedCredits([Credited], Dated0.bonus) == [];
    var after := Absorb(Dated0, req);
    assert after == Dated0.(usage := map[0 := 0, 1 := 0]);
    resp := Answer(after, req);
    assert Unacknowledged([Credited]) == [Credited];
    assert resp.commands == [Command("c", AddBonus, 600)];
    assert Dated(after.bonus, 1) == map[];
    assert Balance(after, 1) == 0;
  }

  const Anchored: Disk :=
    Installed.(policy := Some(Queued.policy), anchor := Some(Anchor(2, "k", 1, 0, 0)), usage := map[1 := 0])
  const Taken: Disk := Anchored.(applied := ["c"], bonus := map["c" := BonusRow(1, 600, Web)])

  predicate NextResponse(resp: Response) {
    resp == Response([], [], Some(Queued.policy), Some(SessionState(2, "k", 1, 0, 0)), [Command("c", AddBonus, 600)],
                     resp.control)
  }

  lemma {:induction false} NextCredited(req: Request, resp: Response)
    requires req.date == 1 && NextResponse(resp)
    ensures ApplyAll(Anchored, req, resp, Commanding(0)) == (Taken, true)
  {
    assert Anchored.applied + ["c"] == ["c"];
    assert InsertBonus(Anchored.bonus, "c", BonusRow(1, 600, Web)) == Taken.bonus;
    assert resp.commands[0] == Command("c", AddBonus, 600) && "c" != "";
    assert ApplyCommand(Anchored, resp.commands[0], resp.control.revision, 1) == Success(Taken);
    assert ApplyAll(Taken, req, resp, Commanding(1)) == (Taken, true);
  }

  lemma {:induction false} NextSaved()
    ensures SaveAnchor(Installed.(policy := Some(Queued.policy)), Anchor(2, "k", 1, 0, 0)) == Success(Anchored)
  {
    assert PendingLocal(Installed.(policy := Some(Queued.policy))) == map[];
    assert Dated(map[], 1) == map[];
  }

  lemma {:induction false} NextAnchored(req: Request, resp: Response)
    requires req.date == 1 && req.sessionActive && req.sessionId == "k" && NextResponse(resp)
    ensures ApplyPhase(Installed.(policy := Some(Queued.policy)), req, resp, Anchoring)
         == Success((Anchored, Commanding(0)))
  {
    hide SaveAnchor;
    NextSaved();
  }

  lemma {:induction false} NextApplied(req: Request, resp: Response)
    requires req.date == 1 && req.sessionActive && req.sessionId == "k" && NextResponse(resp)
    ensures ApplyAll(Installed, req, resp, Acking(0)) == (Taken, true)
  {
    hide SaveAnchor, ApplyCommand, Coherent;
    NextCredited(req, resp);
    NextAnchored(req, resp);
    assert ApplyAll(Installed.(policy := Some(Queued.policy)), req, resp, Anchoring) == (Taken, true);
    assert ApplyAll(Installed, req, resp, Replacing) == (Taken, true);
    assert ApplyAll(Installed, req, resp, Forgetting) == (Taken, true);
  }

  lemma {:induction false} NextAnswered(s: State) returns (answered: State)
    requires Sane(s) && Shows(s, Dated0, Installed, Memory(Watching, Offline))
    ensures answered == AfterDeliver(AfterBuild(s, 1)) && Sane(answered) && answered.exchange.Answered?
    ensures Acceptable(BuildRequest(s.disk, s.memory, 1))
    ensures var req := answered.exchange.env.req; req.date == 1 && req.sessionActive && req.sessionId == "k"
    ensures answered.disk == Installed && answered.server == Dated0.(usage := map[0 := 0, 1 := 0])
    ensures NextResponse(answered.exchange.resp)
  {
    hide Inv, Shapes, Receive;
    var built := RoundBuilt(s, 1);
    var resp := NextAnswer(built.exchange.env.req);
    answered := RoundAnswered(built);
    assert answered.exchange.resp == resp;
  }

  /** The heartbeat of the next date delivers everything, with other dates. */
  lemma {:induction false} NextHeartbeat(s: State) returns (labels: seq<Label>, s': State)
    requires Sane(s) && Shows(s, Dated0, Installed, Memory(Watching, Offline))
    ensures s' == HeartbeatRound(s, 1) == Run(s, labels)
    ensures s'.server == Dated0.(usage := map[0 := 0, 1 := 0]) && s'.disk == Taken && s'.exchange.Idle?
  {
    hide Inv, Shapes, Receive, Absorb, BuildRequest, ApplyAll, Settle;
    var answered := NextAnswered(s);
    labels, s' := RoundIsRun(s, 1);
    RoundKeepsServer(s, 1, answered);
    RoundAppliesAll(answered);
    NextApplied(answered.exchange.env.req, answered.exchange.resp);
  }

  lemma {:induction false} TakenBalances()
    ensures AnchorBalance(Taken.anchor, Counter(1, 0, 0)) == 0
    ensures LocalBalance(Taken, Counter(1, 0, 0), 1) == 600
  {
    assert Dated(Taken.bonus, 1) == map["c" := 600];
    SumOne(Dated(Taken.bonus, 1), "c");
  }

  lemma OneMore(every: int, labels: seq<Label>, l: Label) returns (longer: seq<Label>)
    requires every > 0
    ensures longer == labels + [l] && Run(Init(every), longer) == Next(Run(Init(every), labels), l)
  {
    longer := labels + [l];
  }

  lemma {:induction false} BeforeMidnight(every: int) returns (labels: seq<Label>, s: State)
    requires every > 0
    ensures s == Run(Init(every), labels) && Sane(s) && Shows(s, Dated0, Installed, Memory(Watching, Offline))
  {
    hide Sane, Shows, Next, Run;
    labels, s := FirstHeartbeat(every);
    s := SessionAppears(s);
    labels := OneMore(every, labels, Label.Cycle(0, [InFront]));
    s := CreditIsQueued(s);
    labels := OneMore(every, labels, QueueCredit("c", 600));
    s := AnswerIsLost(s);
    labels := OneMore(every, labels, Build(0));
    labels := OneMore(every, labels, Deliver);
    labels := OneMore(every, labels, LoseAnswer);
    RunShapes(every, labels);
    assert Sane(s) by { ShapesAreSane(s); }
  }

  lemma ShapesAreSane(s: State)
    requires Inv(s) && Shapes(s)
    ensures Sane(s)
  {
  }

  /** A run in which a credit is first offered on one date, its answer lost, and taken
      by the agent on the next: the server counts it for the first date, the agent for
      the second, and there the anchor lacks what the agent's own tables have. */
  lemma {:induction false} CrossDateExample(every: int) returns (labels: seq<Label>)
    requires every > 0
    ensures var s := Run(Init(every), labels);
      && s.exchange.Idle? && s.disk.policy == Some(s.server.policy)
      && s.server.bonus == map["c" := BonusRow(0, 600, Web)]
      && s.disk.bonus == map["c" := BonusRow(1, 600, Web)]
      && AnchorCurrent(s) && s.disk.anchor.value.date == 1
      && AnchorBalance(s.disk.anchor, Counter(1, 0, 0)) == 0
      && LocalBalance(s.disk, Counter(1, 0, 0), 1) == 600
  {
    hide Sane, Run, HeartbeatRound, AnchorBalance, LocalBalance;
    var first, s := BeforeMidnight(every);
    var more, end := NextHeartbeat(s);
    RunConcat(Init(every), first, more);
    labels := first + more;
    TakenBalances();
  }
}
