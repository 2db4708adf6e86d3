/**
  Control commands over every run: at most one is unacknowledged, it is the one
  behind the current control flags, and the server completes it only after a
  daemon cycle saw the requested lock state while holding the revision the command
  was created with.
*/
module OrderInvariant {
  import opened Records
  import opened AgentTables
  import opened AdminLaws
  import opened Accounting
  import opened ServerTables
  import opened Heartbeat
  import opened System
  import opened PolicyInvariant
  import opened CreditInvariant

  // ---------------------------------------------------------- distinct commands

  ghost predicate DistinctCommands(commands: seq<CommandRow>) {
    commands == []
    || ((forall c :: c in commands[1..] ==> c.id != commands[0].id) && DistinctCommands(commands[1..]))
  }

  lemma {:induction false} AppendDistinct(commands: seq<CommandRow>, row: CommandRow)
    requires DistinctCommands(commands) && forall c :: c in commands ==> c.id != row.id
    ensures DistinctCommands(commands + [row])
  {
    if commands == [] {
      assert commands + [row] == [row];
    } else {
      AppendDistinct(commands[1..], row);
      assert (commands + [row])[1..] == commands[1..] + [row];
    }
  }

  lemma {:induction false} DropDistinct(commands: seq<CommandRow>)
    requires DistinctCommands(commands)
    ensures DistinctCommands(DropPendingControls(commands))
  {
    if commands != [] {
      DropDistinct(commands[1..]);
    }
  }

  lemma {:induction false} AckOneDistinct(commands: seq<CommandRow>, id: Id)
    requires DistinctCommands(commands)
    ensures DistinctCommands(AckOne(commands, id))
  {
    if commands != [] {
      AckOneDistinct(commands[1..], id);
      var rest := AckOne(commands[1..], id);
      forall c | c in rest
        ensures c.id != commands[0].id
      {
        assert c in commands[1..] || c.(acknowledged := false) in commands[1..];
      }
    }
  }

  lemma {:induction false} AckAllDistinct(commands: seq<CommandRow>, acks: seq<Id>)
    requires DistinctCommands(commands)
    ensures DistinctCommands(AckAll(commands, acks))
  {
    if acks != [] {
      AckAllDistinct(commands, acks[..|acks| - 1]);
      AckOneDistinct(AckAll(commands, acks[..|acks| - 1]), acks[|acks| - 1]);
    }
  }

  lemma {:induction false} DistinctPositions(commands: seq<CommandRow>, i: nat, j: nat)
    requires DistinctCommands(commands) && i < j < |commands|
    ensures commands[i].id != commands[j].id
  {
    if i > 0 {
      DistinctPositions(commands[1..], i - 1, j - 1);
    }
  }

  // ------------------------------------------------------------------ invariant

  /** Some cycle saw what the order asked for while holding its revision. */
  ghost predicate Confirmed(h: History, id: Id) {
    id in h.orders
    && exists g :: g in h.sightings && g.revision == h.orders[id].revision && Confirms(h.orders[id].kind, g.session)
  }

  ghost predicate Acknowledgeable(h: History, ids: seq<Id>) {
    forall id :: id in ids && id in h.orders ==> Confirmed(h, id)
  }

  ghost predicate Orders(h: History, revision: int) {
    && (forall id :: id in h.orders ==> h.orders[id].kind.IsControl() && 1 < h.orders[id].revision <= revision)
    && (forall a, b :: a in h.orders && b in h.orders && h.orders[a].revision == h.orders[b].revision ==> a == b)
  }

  /** A control row is the order behind the current flags and revision. */
  ghost predicate CurrentOrder(h: History, control: Control, c: CommandRow) {
    c.kind.IsControl() ==>
      && c.id in h.orders && c.id !in h.completed
      && h.orders[c.id] == Order(c.kind, control.revision)
      && control == Control(control.revision, c.kind.PauseMonitoring?, c.kind.BlockNow?)
  }

  ghost predicate OrderedBy(h: History, c: Command, revision: int) {
    c.kind.IsControl() ==> c.id in h.orders && h.orders[c.id] == Order(c.kind, revision)
  }

  ghost predicate Answers(s: State) {
    (s.exchange.Answered? || s.exchange.Applying?) ==>
      var resp := s.exchange.resp;
      && resp.control.revision <= s.server.control.revision
      && forall c :: c in resp.commands ==> OrderedBy(s.history, c, resp.control.revision)
  }

  ghost predicate OrderInv(s: State) {
    && s.server.control.revision >= 1
    && DistinctCommands(s.server.commands)
    && Orders(s.history, s.server.control.revision)
    && (forall c :: c in s.server.commands ==> CurrentOrder(s.history, s.server.control, c))
    && (s.disk.staged.Some? ==>
          var e := s.disk.staged.value;
          e.commandId in s.history.orders && s.history.orders[e.commandId] == Order(e.kind, e.revision))
    && Acknowledgeable(s.history, s.disk.applied)
    && (forall env :: env in s.history.sent ==> Acknowledgeable(s.history, env.req.acks))
    && (forall id :: id in s.history.completed ==> Confirmed(s.history, id))
    && Answers(s)
  }

  // ---------------------------------------------------------------------- steps

  lemma SentKept(h: History, h': History)
    requires forall env :: env in h.sent ==> Acknowledgeable(h, env.req.acks)
    requires h'.sent == h.sent && h'.orders == h.orders && h.sightings <= h'.sightings
    ensures forall env :: env in h'.sent ==> Acknowledgeable(h', env.req.acks)
  {
    forall env | env in h.sent
      ensures Acknowledgeable(h', env.req.acks)
    {
      assert Acknowledgeable(h, env.req.acks);
      forall id | id in env.req.acks && id in h'.orders
        ensures Confirmed(h', id)
      {
        assert Confirmed(h, id);
      }
    }
  }

  /** Nothing the invariant reads moved, except that more was seen. */
  lemma SameFor(s: State, s': State)
    requires OrderInv(s)
    requires s'.server.control == s.server.control && s'.server.commands == s.server.commands
    requires s'.disk.staged == s.disk.staged && s'.disk.applied == s.disk.applied
    requires s'.history.orders == s.history.orders && s'.history.sent == s.history.sent
    requires s'.history.completed == s.history.completed && s.history.sightings <= s'.history.sightings
    requires s'.exchange == s.exchange || !(s'.exchange.Answered? || s'.exchange.Applying?)
      || (s.exchange.Answered? && s'.exchange.Applying? && s'.exchange.resp == s.exchange.resp)
      || (s.exchange.Applying? && s'.exchange.Applying? && s'.exchange.resp == s.exchange.resp)
    ensures OrderInv(s')
  {
    SentKept(s.history, s'.history);
    forall id | id in s'.history.orders && Confirmed(s.history, id)
      ensures Confirmed(s'.history, id)
    {
    }
    forall c | c in s'.server.commands
      ensures CurrentOrder(s'.history, s'.server.control, c)
    {
      assert CurrentOrder(s.history, s.server.control, c);
    }
  }

  lemma QueueCreditKeeps(s: State, id: Id, seconds: int)
    requires CreditInv(s) && OrderInv(s)
    ensures OrderInv(AfterQueueCredit(s, id, seconds))
  {
    var s' := AfterQueueCredit(s, id, seconds);
    if s' != s {
      forall c | c in s.server.commands
        ensures c.id != id && CurrentOrder(s'.history, s'.server.control, c)
      {
        assert SoundCommand(s.history, s.disk.bonus, c);
        assert CurrentOrder(s.history, s.server.control, c);
      }
      AppendDistinct(s.server.commands, CommandRow(id, AddBonus, seconds, false));
      var server := s'.server.(commands := s.server.commands);
      SameFor(s.(server := server), s'.(server := server));
    }
  }

  lemma ConfirmedStays(s: State, h': History, id: Id, order: Order)
    requires CreditInv(s) && OrderInv(s) && id !in s.history.used
    requires h'.orders == s.history.orders[id := order]
    requires h'.sightings == s.history.sightings && h'.sent == s.history.sent
    ensures forall c :: Confirmed(s.history, c) ==> Confirmed(h', c)
    ensures Acknowledgeable(h', s.disk.applied)
    ensures forall env :: env in h'.sent ==> Acknowledgeable(h', env.req.acks)
  {
    forall c | Confirmed(s.history, c)
      ensures Confirmed(h', c)
    {
    }
    forall env | env in h'.sent
      ensures Acknowledgeable(h', env.req.acks)
    {
      assert Acknowledgeable(s.history, env.req.acks);
      assert Applied(s.history, s.disk.bonus, env.req.acks);
    }
  }

  /** The rows after a control request: the new order is the only control left. */
  lemma OrderReplaces(commands: seq<CommandRow>, row: CommandRow)
    requires DistinctCommands(commands) && forall c :: c in commands ==> c.id != row.id
    requires forall c :: c in commands && c.kind.IsControl() ==> !c.acknowledged
    ensures var after := DropPendingControls(commands) + [row];
      DistinctCommands(after) && forall c :: c in after ==> c == row || !c.kind.IsControl()
  {
    DropDistinct(commands);
    AppendDistinct(DropPendingControls(commands), row);
  }

  lemma QueueOrderKeeps(s: State, id: Id, kind: CommandKind)
    requires CreditInv(s) && OrderInv(s)
    ensures OrderInv(AfterQueueOrder(s, id, kind))
  {
    hide Rows, Requests, Revisions, Replies, LatestPendingControl, DropPendingControls, DistinctCommands;
    var s' := AfterQueueOrder(s, id, kind);
    if s' != s {
      var row := CommandRow(id, kind, 0, false);
      ConfirmedStays(s, s'.history, id, s'.history.orders[id]);
      forall c | c in s.server.commands
        ensures c.id != id && (c.kind.IsControl() ==> !c.acknowledged)
      {
        assert SoundCommand(s.history, s.disk.bonus, c);
      }
      OrderReplaces(s.server.commands, row);
      assert forall c :: c in s.history.completed ==> Confirmed(s.history, c);
    }
  }

  lemma CycleKeeps(s: State, now: int, sessions: seq<Session>)
    requires OrderInv(s)
    ensures OrderInv(AfterCycle(s, now, sessions))
  {
    CycleFrame(s, now, sessions);
    var s' := AfterCycle(s, now, sessions);
    var quiet := s'.(disk := s'.disk.(staged := s.disk.staged, applied := s.disk.applied));
    SameFor(s, quiet);
    if Observed(s, s', sessions) {
      assert Confirmed(s'.history, s.disk.staged.value.commandId);
    }
  }

  lemma BuildKeeps(s: State, date: Date)
    requires OrderInv(s)
    ensures OrderInv(AfterBuild(s, date))
  {
    var s' := AfterBuild(s, date);
    if s' != s {
      SameFor(s, s'.(history := s.history));
      forall id | Confirmed(s.history, id)
        ensures Confirmed(s'.history, id)
      {
      }
      forall env | env in s'.history.sent
        ensures Acknowledgeable(s'.history, env.req.acks)
      {
        if env in s.history.sent {
          assert Acknowledgeable(s.history, env.req.acks);
        } else {
          assert forall id :: id in env.req.acks ==> id in s.disk.applied;
        }
      }
      forall c | c in s'.server.commands
        ensures CurrentOrder(s'.history, s'.server.control, c)
      {
        assert CurrentOrder(s.history, s.server.control, c);
      }
    }
  }

  /** Only a control the request acknowledges is completed, and its row is gone. */
  lemma HeardKeeps(s: State, env: Envelope)
    requires CreditInv(s) && OrderInv(s) && env in s.history.sent && env.req.secondsUsed >= 0
    ensures OrderInv(Heard(s, env))
  {
    var s' := Heard(s, env);
    AckAllDistinct(s.server.commands, env.req.acks);
    AllAcknowledged(s.server.commands, env.req.acks);
    SentKept(s.history, s'.history);
    forall id | Confirmed(s.history, id)
      ensures Confirmed(s'.history, id)
    {
    }
    forall id | id in NewlyCompleted(s.server, env.req.acks)
      ensures Confirmed(s.history, id)
    {
      var c :| c in s.server.commands && PendingControl(c) && c.id == id;
      assert CurrentOrder(s.history, s.server.control, c);
      assert Acknowledgeable(s.history, env.req.acks);
    }
    forall c | c in s'.server.commands
      ensures CurrentOrder(s'.history, s'.server.control, c)
    {
      if c.kind.IsControl() {
        assert c in s.server.commands && CurrentOrder(s.history, s.server.control, c);
      }
    }
  }

  lemma DeliverKeeps(s: State)
    requires CreditInv(s) && OrderInv(s)
    requires forall env :: env in s.history.sent ==> env.req.secondsUsed >= 0
    requires s.exchange.Sent? ==> s.exchange.env in s.history.sent
    ensures OrderInv(AfterDeliver(s))
  {
    if s.exchange.Sent? && Receive(s.server, s.exchange.env.req).Success? {
      var env := s.exchange.env;
      var resp := DeliverFrame(s);
      HeardKeeps(s, env);
      var heard, s' := Heard(s, env), AfterDeliver(s);
      SameFor(heard.(exchange := Idle), s'.(exchange := Idle));
      var rows := First(Unacknowledged(heard.server.commands), BATCH);
      forall c | c in resp.commands
        ensures OrderedBy(s'.history, c, resp.control.revision)
      {
        var k :| 0 <= k < |resp.commands| && resp.commands[k] == c;
        assert rows[k] in heard.server.commands;
        assert CurrentOrder(heard.history, heard.server.control, rows[k]);
      }
    }
  }

  lemma ForgettingKeeps(h: History, applied: seq<Id>, ids: seq<Id>)
    requires Acknowledgeable(h, applied)
    ensures Acknowledgeable(h, WithoutIds(applied, ids))
  {
  }

  lemma PhaseKeeps(s: State, env: Envelope, resp: Response, excess: int, phase: Phase)
    requires CreditInv(s) && OrderInv(s)
    requires s.exchange == Applying(env, resp, excess, phase) && !phase.Done?
    requires ApplyPhase(s.disk, env.req, resp, phase).Success?
    ensures var d := ApplyPhase(s.disk, env.req, resp, phase).value.0;
      && Acknowledgeable(s.history, d.applied)
      && (d.staged.Some? ==>
            var e := d.staged.value;
            e.commandId in s.history.orders && s.history.orders[e.commandId] == Order(e.kind, e.revision))
  {
    PhaseFrame(s.disk, env.req, resp, phase);
    ForgettingKeeps(s.history, s.disk.applied, resp.acknowledgedCommands);
    if phase.Commanding? && phase.next < |resp.commands| {
      var c := resp.commands[phase.next];
      assert OrderedBy(s.history, c, resp.control.revision);
      assert SoundOffer(s.history, s.server.bonus, ReplyRevision(env, resp), c);
    }
  }

  lemma ApplyKeeps(s: State)
    requires CreditInv(s) && OrderInv(s)
    ensures OrderInv(AfterApply(s))
  {
    var s' := AfterApply(s);
    if s.exchange.Applying? && !s.exchange.phase.Done? {
      var env, resp, excess, phase := s.exchange.env, s.exchange.resp, s.exchange.excess, s.exchange.phase;
      if ApplyPhase(s.disk, env.req, resp, phase).Success? {
        PhaseKeeps(s, env, resp, excess, phase);
        var d := ApplyPhase(s.disk, env.req, resp, phase).value.0;
        SameFor(s.(disk := s.disk.(staged := d.staged, applied := d.applied)), s');
      } else {
        SameFor(s, s');
      }
    } else {
      SameFor(s, s');
    }
  }

  lemma AbandonKeeps(s: State)
    requires OrderInv(s)
    ensures OrderInv(Failed(s)) && OrderInv(AfterCrash(s))
  {
    SameFor(s, Failed(s));
    SameFor(s, AfterCrash(s));
  }

  lemma ChangeKeeps(s: State, op: AdminOp)
    requires OrderInv(s)
    ensures OrderInv(AfterChange(s, op))
  {
    hide OrderInv;
    AdminRevision(s.server, op);
    SameFor(s, AfterChange(s, op));
  }

  lemma GrantKeeps(s: State, id: Id, date: Date, seconds: int)
    requires OrderInv(s)
    ensures OrderInv(AfterGrant(s, id, date, seconds))
  {
    hide OrderInv;
    SameFor(s, AfterGrant(s, id, date, seconds));
  }

  lemma OrderStep(s: State, l: Label)
    requires CreditInv(s) && OrderInv(s)
    requires forall env :: env in s.history.sent ==> env.req.secondsUsed >= 0
    requires s.exchange.Sent? ==> s.exchange.env in s.history.sent
    ensures OrderInv(Next(s, l))
  {
    hide OrderInv, CreditInv;
    AbandonKeeps(s);
    match l
    case Admin(op) => ChangeKeeps(s, op);
    case QueueCredit(id, seconds) => QueueCreditKeeps(s, id, seconds);
    case QueueOrder(id, kind) => QueueOrderKeeps(s, id, kind);
    case Grant(id, date, seconds) => GrantKeeps(s, id, date, seconds);
    case Cycle(now, sessions) => CycleKeeps(s, now, sessions);
    case Build(date) => BuildKeeps(s, date);
    case Deliver => DeliverKeeps(s);
    case Stray(env) =>
      if env in s.history.sent { HeardKeeps(s, env); }
    case LoseRequest =>
    case LoseAnswer =>
    case Apply => ApplyKeeps(s);
    case Crash =>
  }
}
