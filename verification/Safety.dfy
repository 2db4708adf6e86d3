/**
  The invariants together, over every run of the system, and what they say about
  replication, exactly-once delivery, usage and control.
*/
module Safety {
  import opened Wrappers
  import opened Calendar
  import opened Records
  import opened AgentTables
  import opened Usage
  import opened Accounting
  import opened AccountingLaws
  import opened ServerTables
  import opened AdminLaws
  import opened Heartbeat
  import opened System
  import opened PolicyInvariant
  import opened UsageInvariant
  import opened CreditInvariant
  import opened LocalInvariant
  import opened OrderInvariant
  import opened AnchorInvariant

  ghost predicate Inv(s: State) {
    PolicyInv(s) && UsageInv(s) && CreditInv(s) && LocalInv(s) && OrderInv(s) && AnchorInv(s)
  }

  lemma {:induction false} InitInv(every: int)
    requires every > 0
    ensures Inv(Init(every))
  {
    var s := Init(every);
    assert OfOrigin(s.disk.bonus, Local) == map[] && OfOrigin(s.server.bonus, Local) == map[];
  }

  lemma {:induction false} StepInv(s: State, l: Label)
    requires Inv(s)
    ensures Inv(Next(s, l))
  {
    assert forall e :: e in s.disk.pending ==> e in s.history.grants;
    PolicyStep(s, l);
    UsageStep(s, l);
    CreditStep(s, l);
    LocalStep(s, l);
    OrderStep(s, l);
    AnchorStep(s, l);
  }

  lemma {:induction false} RunInv(every: int, labels: seq<Label>)
    requires every > 0
    ensures Inv(Run(Init(every), labels))
    decreases |labels|
  {
    if labels == [] {
      InitInv(every);
    } else {
      RunInv(every, labels[..|labels| - 1]);
      StepInv(Run(Init(every), labels[..|labels| - 1]), labels[|labels| - 1]);
    }
  }

  // ------------------------------------------------------------ policy replication

  /** In every reachable state the agent's policy is the server's policy of that
      revision, and neither the policy nor the anchor runs ahead of the server. */
  lemma {:induction false} PolicyReplicated(every: int, labels: seq<Label>)
    requires every > 0
    ensures var s := Run(Init(every), labels);
      && (s.disk.policy.Some? ==>
            && s.disk.policy.value.revision in s.history.policies
            && s.disk.policy.value == s.history.policies[s.disk.policy.value.revision])
      && AnchorRevision(s.disk) <= PolicyRevision(s.disk) <= s.server.policy.revision
      && s.server.policy.revision in s.history.policies
      && s.history.policies[s.server.policy.revision] == s.server.policy
      && (PolicyRevision(s.disk) == s.server.policy.revision ==> s.disk.policy == Some(s.server.policy))
  {
    RunInv(every, labels);
  }

  /** The record of policies is what the server held: a revision never gets a
      second policy. */
  lemma RevisionsNeverMove(s: State, l: Label)
    requires ServerPolicies(s)
    ensures var s' := Next(s, l);
      && s.server.policy.revision <= s'.server.policy.revision
      && (s'.server.policy.revision == s.server.policy.revision ==> s'.server.policy == s.server.policy)
      && (forall r :: r in s.history.policies ==>
            r in s'.history.policies && s'.history.policies[r] == s.history.policies[r])
  {
    match l
    case Admin(op) => AdminRevision(s.server, op);
    case Cycle(now, sessions) => CycleFrame(s, now, sessions);
    case Deliver =>
      if s.exchange.Sent? && Receive(s.server, s.exchange.env.req).Success? {
        var resp := DeliverFrame(s);
      }
    case _ =>
  }

  // ---------------------------------------------------------- nothing goes backwards

  ghost predicate RowsStay(before: BonusTable, after: BonusTable) {
    forall id :: id in before ==> id in after && after[id] == before[id]
  }

  ghost predicate DiskGrows(d: Disk, d': Disk) {
    && PolicyRevision(d) <= PolicyRevision(d')
    && AnchorRevision(d) <= AnchorRevision(d')
    && RowsStay(d.bonus, d'.bonus)
    && forall date :: UsageOn(d.usage, date) <= UsageOn(d'.usage, date)
  }

  ghost predicate ServerGrows(r: Server, r': Server) {
    && r.policy.revision <= r'.policy.revision
    && r.control.revision <= r'.control.revision
    && RowsStay(r.bonus, r'.bonus)
    && forall date :: UsageOn(r.usage, date) <= UsageOn(r'.usage, date)
  }

  lemma PhaseGrows(s: State, env: Envelope, resp: Response, excess: int, phase: Phase)
    requires PolicyInv(s) && UsageInv(s)
    requires s.exchange == Applying(env, resp, excess, phase) && !phase.Done?
    requires ApplyPhase(s.disk, env.req, resp, phase).Success?
    ensures DiskGrows(s.disk, ApplyPhase(s.disk, env.req, resp, phase).value.0)
  {
    PhaseFrame(s.disk, env.req, resp, phase);
  }

  lemma AbsorbGrows(s: State, env: Envelope)
    requires PolicyInv(s) && CreditInv(s) && env in s.history.sent && env.req.secondsUsed >= 0
    ensures ServerGrows(s.server, Heard(s, env).server)
  {
    AbsorbedRows(s.history, s.disk.bonus, s.server, env.req);
  }

  lemma AgentStepGrows(s: State, l: Label)
    requires l.Grant? || l.Cycle? || l.Build? || l.Crash? || l.LoseRequest? || l.LoseAnswer?
    ensures DiskGrows(s.disk, Next(s, l).disk) && Next(s, l).server == s.server
  {
    hide Step;
    if l.Cycle? {
      CycleFrame(s, l.now, l.sessions);
      if CanCycle(s, l.now) {
        StepSound(s.meter, s.disk, s.memory.control, l.sessions, l.now, s.every);
      }
    }
  }

  lemma {:induction false} ApplyGrows(s: State)
    requires Inv(s)
    ensures DiskGrows(s.disk, AfterApply(s).disk) && AfterApply(s).server == s.server
  {
    if s.exchange.Applying? && !s.exchange.phase.Done? {
      var env, resp, phase := s.exchange.env, s.exchange.resp, s.exchange.phase;
      if ApplyPhase(s.disk, env.req, resp, phase).Success? {
        PhaseGrows(s, env, resp, s.exchange.excess, phase);
      }
    }
  }

  lemma {:induction false} DeliverGrows(s: State)
    requires Inv(s)
    ensures AfterDeliver(s).disk == s.disk && ServerGrows(s.server, AfterDeliver(s).server)
  {
    if s.exchange.Sent? && Receive(s.server, s.exchange.env.req).Success? {
      var resp := DeliverFrame(s);
      AbsorbGrows(s, s.exchange.env);
    }
  }

  lemma AdminGrows(s: State, l: Label)
    requires l.Admin? || l.QueueCredit? || l.QueueOrder?
    ensures Next(s, l).disk == s.disk && ServerGrows(s.server, Next(s, l).server)
  {
    if l.Admin? {
      AdminRevision(s.server, l.op);
    }
  }

  lemma {:induction false} StrayGrows(s: State, env: Envelope)
    requires Inv(s)
    ensures AfterStray(s, env).disk == s.disk && ServerGrows(s.server, AfterStray(s, env).server)
  {
    if env in s.history.sent && Receive(s.server, env.req).Success? {
      AbsorbGrows(s, env);
    }
  }

  /** No step takes a revision or a usage counter back, and none changes or removes
      a bonus row, on either side. */
  lemma {:induction false} NothingGoesBack(s: State, l: Label)
    requires Inv(s)
    ensures DiskGrows(s.disk, Next(s, l).disk)
    ensures ServerGrows(s.server, Next(s, l).server)
  {
    match l
    case Admin(_) => AdminGrows(s, l);
    case QueueCredit(_, _) => AdminGrows(s, l);
    case QueueOrder(_, _) => AdminGrows(s, l);
    case Deliver => DeliverGrows(s);
    case Stray(env) => StrayGrows(s, env);
    case Apply => ApplyGrows(s);
    case _ => AgentStepGrows(s, l);
  }

  lemma {:induction false} DiskGrowsOn(a: Disk, b: Disk, c: Disk)
    requires DiskGrows(a, b) && DiskGrows(b, c)
    ensures DiskGrows(a, c)
  {
    forall date
      ensures UsageOn(a.usage, date) <= UsageOn(c.usage, date)
    {
      assert UsageOn(a.usage, date) <= UsageOn(b.usage, date) <= UsageOn(c.usage, date);
    }
  }

  lemma {:induction false} ServerGrowsOn(a: Server, b: Server, c: Server)
    requires ServerGrows(a, b) && ServerGrows(b, c)
    ensures ServerGrows(a, c)
  {
    forall date
      ensures UsageOn(a.usage, date) <= UsageOn(c.usage, date)
    {
      assert UsageOn(a.usage, date) <= UsageOn(b.usage, date) <= UsageOn(c.usage, date);
    }
  }

  /** However a run goes on, no revision and no usage counter of either side falls,
      and every bonus row stays what it was. */
  lemma {:induction false} RunsOnlyGrow(every: int, labels: seq<Label>, more: seq<Label>)
    requires every > 0
    ensures var s, s' := Run(Init(every), labels), Run(Init(every), labels + more);
      DiskGrows(s.disk, s'.disk) && ServerGrows(s.server, s'.server)
    decreases |more|
  {
    hide Inv, DiskGrows, ServerGrows, Next;
    var s := Run(Init(every), labels);
    if more == [] {
      assert labels + more == labels;
      GrowsReflexively(s);
    } else {
      var front, l := more[..|more| - 1], more[|more| - 1];
      RunsOnlyGrow(every, labels, front);
      RunInv(every, labels + front);
      var before := Run(Init(every), labels + front);
      NothingGoesBack(before, l);
      assert (labels + more)[..|labels + more| - 1] == labels + front;
      DiskGrowsOn(s.disk, before.disk, Next(before, l).disk);
      ServerGrowsOn(s.server, before.server, Next(before, l).server);
    }
  }

  lemma GrowsReflexively(s: State)
    ensures DiskGrows(s.disk, s.disk) && ServerGrows(s.server, s.server)
  {
  }

  // ---------------------------------------------------------- exactly-once credit

  /** A credit queued by the administrator: at most one row on either side, with
      the queued seconds; the server's row comes first; an acknowledged command
      means a row on both. */
  lemma {:induction false} CreditExactlyOnce(every: int, labels: seq<Label>, id: Id)
    requires every > 0 && id in Run(Init(every), labels).history.credits
    ensures var s := Run(Init(every), labels);
      var seconds := s.history.credits[id].seconds;
      && (id in s.server.bonus ==> s.server.bonus[id] == BonusRow(s.server.bonus[id].date, seconds, Web))
      && (id in s.disk.bonus ==>
            id in s.server.bonus && s.disk.bonus[id] == BonusRow(s.disk.bonus[id].date, seconds, Web))
      && exists c :: (
           && c in s.server.commands && c == CommandRow(id, AddBonus, seconds, c.acknowledged)
           && (forall d :: d in s.server.commands && d.id == id ==> d == c)
           && (c.acknowledged ==> id in s.disk.bonus && id in s.server.bonus))
  {
    RunInv(every, labels);
    var s := Run(Init(every), labels);
    var c :| c in s.server.commands && IsCreditRow(c, id);
    assert SoundCommand(s.history, s.disk.bonus, c);
    assert c == CommandRow(id, AddBonus, s.history.credits[id].seconds, c.acknowledged);
  }

  /** A web row on either side is a queued credit's: nothing is made up. */
  lemma {:induction false} NoForeignRows(every: int, labels: seq<Label>, id: Id)
    requires every > 0
    ensures var s := Run(Init(every), labels);
      && (id in s.server.bonus && s.server.bonus[id].origin == Web ==> id in s.history.credits)
      && (id in s.disk.bonus && s.disk.bonus[id].origin == Web ==> id in s.history.credits)
      && (id in s.disk.bonus && s.disk.bonus[id].origin == Local ==>
            exists e :: e in s.history.grants && e.id == id && s.disk.bonus[id] == RowOf(e))
      && (id in s.server.bonus && s.server.bonus[id].origin == Local ==>
            id in s.disk.bonus && s.server.bonus[id] == s.disk.bonus[id])
  {
    RunInv(every, labels);
    var s := Run(Init(every), labels);
    var grants, known := s.history.grants, s.history.known;
    GrantRowsHold(grants);
    DistinctSlices(grants, known);
    GrantRowsHold(grants[..known]);
    if id in s.disk.bonus && s.disk.bonus[id].origin == Local {
      assert id in OfOrigin(s.disk.bonus, Local);
    }
    if id in s.server.bonus && s.server.bonus[id].origin == Local {
      assert id in OfOrigin(s.server.bonus, Local);
      var e :| e in grants[..known] && e.id == id;
      assert e in grants;
      assert id in OfOrigin(s.disk.bonus, Local);
    }
  }

  /** A local bonus is on the agent exactly once, and is still pending or already
      on the server with the same date and seconds. */
  lemma {:induction false} GrantNeverLost(every: int, labels: seq<Label>, e: Event)
    requires every > 0 && e in Run(Init(every), labels).history.grants
    ensures var s := Run(Init(every), labels);
      && e.id in s.disk.bonus && s.disk.bonus[e.id] == RowOf(e)
      && (e in s.disk.pending || (e.id in s.server.bonus && s.server.bonus[e.id] == RowOf(e)))
      && (e.id in s.server.bonus ==> s.server.bonus[e.id] == RowOf(e))
  {
    hide Inv, Run;
    RunInv(every, labels);
    var s := Run(Init(every), labels);
    var i :| 0 <= i < |s.history.grants| && s.history.grants[i] == e;
    GrantHeld(s, i);
  }

  lemma GrantHeld(s: State, i: nat)
    requires Inv(s) && i < |s.history.grants|
    ensures var e := s.history.grants[i];
      && e.id in s.disk.bonus && s.disk.bonus[e.id] == RowOf(e)
      && (i >= s.history.known ==> e in s.disk.pending && e.id !in s.server.bonus)
      && (i < s.history.known ==> e.id in s.server.bonus && s.server.bonus[e.id] == RowOf(e))
  {
    hide PolicyInv, UsageInv, OrderInv, AnchorInv, Sendings, GrantRows, Commands, Requests, Revisions, Replies;
    var grants, known := s.history.grants, s.history.known;
    var e := grants[i];
    GrantRowsHold(grants);
    assert e in grants && e.id in OfOrigin(s.disk.bonus, Local);
    if i < known {
      DistinctSlices(grants, known);
      GrantRowsHold(grants[..known]);
      assert e in grants[..known] && e.id in OfOrigin(s.server.bonus, Local);
    } else {
      LaterGrantUnknown(grants, known, i);
      assert s.disk.pending[i - Acked(s)] == e;
      assert e.id in s.server.bonus ==> e.id in OfOrigin(s.server.bonus, Local);
    }
  }

  /** The pending events the server knows are a prefix of the queue, one batch long
      at most. */
  lemma {:induction false} KnownIsPrefix(every: int, labels: seq<Label>) returns (n: nat)
    requires every > 0
    ensures var s := Run(Init(every), labels);
      && n <= BATCH && n <= |s.disk.pending|
      && (forall k :: 0 <= k < |s.disk.pending| ==> (s.disk.pending[k].id in s.server.bonus <==> k < n))
  {
    RunInv(every, labels);
    var s := Run(Init(every), labels);
    n := s.history.known - Acked(s);
    forall k | 0 <= k < |s.disk.pending|
      ensures s.disk.pending[k].id in s.server.bonus <==> k < n
    {
      PendingKnown(s, k);
    }
  }

  lemma PendingKnown(s: State, k: nat)
    requires Inv(s) && k < |s.disk.pending|
    ensures s.disk.pending[k].id in s.server.bonus <==> k < s.history.known - Acked(s)
  {
    var grants, known := s.history.grants, s.history.known;
    var e := s.disk.pending[k];
    assert e == grants[Acked(s) + k] && e in grants;
    assert e.id in s.server.bonus <==> e.id in OfOrigin(s.server.bonus, Local);
    if Acked(s) + k < known {
      DistinctSlices(grants, known);
      GrantRowsHold(grants[..known]);
      assert e in grants[..known];
    } else {
      LaterGrantUnknown(grants, known, Acked(s) + k);
    }
  }

  // ------------------------------------------------------------------------ usage

  /** The server's counter of a date never falls and never exceeds the agent's
      durable one; the live counter is ahead of that by less than one checkpoint
      interval, which is all a crash can return. */
  lemma {:induction false} UsageBounded(every: int, labels: seq<Label>, date: Date)
    requires every > 0
    ensures var s := Run(Init(every), labels);
      && 0 <= UsageOn(s.server.usage, date) <= UsageOn(s.disk.usage, date)
      && (s.meter.counter.Some? && s.meter.counter.value.date == date ==>
            var lost := s.meter.counter.value.seconds - UsageOn(s.disk.usage, date);
            0 <= lost * SECOND < every && lost * SECOND == s.meter.counter.value.uncheckpointed)
      && UsageOn(AfterCrash(s).disk.usage, date) == UsageOn(s.disk.usage, date)
  {
    RunInv(every, labels);
    EveryIsFixed(every, labels);
    var s := Run(Init(every), labels);
    if s.meter.counter.Some? && s.meter.counter.value.date == date {
      assert Exact(Metered(s.meter.counter.value, s.disk.usage));
      assert Sound(Metered(s.meter.counter.value, s.disk.usage), every);
    }
  }

  lemma {:induction false} EveryIsFixed(every: int, labels: seq<Label>)
    ensures Run(Init(every), labels).every == every
    decreases |labels|
  {
    if labels != [] {
      EveryIsFixed(every, labels[..|labels| - 1]);
      var s, l := Run(Init(every), labels[..|labels| - 1]), labels[|labels| - 1];
      if l.Cycle? {
        CycleFrame(s, l.now, l.sessions);
      }
    }
  }

  /** Raising the counter to the confirmed usage never does anything: the tracker
      can only be behind if agent state was lost. */
  lemma {:induction false} ConfirmedUsageIsKnown(every: int, labels: seq<Label>, now: int, sessions: seq<Session>)
    requires every > 0 && CanCycle(Run(Init(every), labels), now)
    ensures var s := Run(Init(every), labels);
      var seen := ObserveEffect(s.disk, s.memory.control, FirstActive(sessions));
      && Ready(s.meter, seen, s.every)
      && var b := Account(s.meter, seen, s.memory.control, sessions != [], now, s.every);
         Reconcile(b, s.disk.anchor, DateOf(now)) == b
  {
    RunInv(every, labels);
    var s := Run(Init(every), labels);
    EffectKeepsRows(s.disk, s.memory.control, FirstActive(sessions));
    var seen := ObserveEffect(s.disk, s.memory.control, FirstActive(sessions));
    ReconcileIdle(s.meter, seen, s.memory.control, sessions != [], now, s.every);
  }

  // ---------------------------------------------------------------- control commands

  /** Only a cycle that holds a control revision puts a sighting on record. */
  lemma {:induction false} NewSighting(s: State, l: Label, g: Sighting)
    requires g in Next(s, l).history.sightings && g !in s.history.sightings
    ensures l.Cycle? && FirstActive(l.sessions) == g.session
    ensures s.memory.control.online && s.memory.control.revision == g.revision
  {
    hide Step, Receive, ApplyPhase, Absorb, BuildRequest, InsertGrant, QueueControl, AfterAdmin;
  }

  /** Every sighting on record is what some earlier cycle of the run saw. */
  lemma {:induction false} SightingsAreCycles(every: int, labels: seq<Label>, g: Sighting) returns (k: nat)
    requires g in Run(Init(every), labels).history.sightings
    ensures k < |labels| && labels[k].Cycle?
    ensures FirstActive(labels[k].sessions) == g.session
    ensures var before := Run(Init(every), labels[..k]);
      before.memory.control.online && before.memory.control.revision == g.revision
    decreases |labels|
  {
    hide Next;
    var front, l := labels[..|labels| - 1], labels[|labels| - 1];
    var s := Run(Init(every), front);
    if g in s.history.sightings {
      k := SightingsAreCycles(every, front, g);
      assert labels[..k] == front[..k];
    } else {
      k := |labels| - 1;
      NewSighting(s, l, g);
    }
  }

  /** The server completes a control command only if an earlier daemon cycle saw
      the requested lock state while holding the revision created with it. */
  lemma {:induction false} CompletedWasSeen(every: int, labels: seq<Label>, id: Id) returns (k: nat)
    requires every > 0 && id in Run(Init(every), labels).history.completed
    ensures k < |labels| && labels[k].Cycle?
    ensures var order, before := Run(Init(every), labels).history.orders, Run(Init(every), labels[..k]);
      && id in order
      && before.memory.control.online && before.memory.control.revision == order[id].revision
      && var front := FirstActive(labels[k].sessions);
         match order[id].kind
         case BlockNow => front.Some? && front.value.locked
         case ClearManualBlock => front.None? || !front.value.locked
         case PauseMonitoring => front.None? || !front.value.locked
         case ResumeMonitoring => true
         case AddBonus => false
  {
    RunInv(every, labels);
    var s := Run(Init(every), labels);
    assert Confirmed(s.history, id);
    var g :| g in s.history.sightings && g.revision == s.history.orders[id].revision
             && Confirms(s.history.orders[id].kind, g.session);
    k := SightingsAreCycles(every, labels, g);
  }

  /** A control request in any reachable state, with a new identifier: afterwards the
      flags are those of the kind requested, and the identifier answered is a pending
      command of that kind.  If one was pending already nothing changes; otherwise the
      new command takes the place of any pending control, at the next revision. */
  lemma {:induction false} ControlRequested(every: int, labels: seq<Label>, kind: CommandKind, id: Id)
    requires every > 0 && kind != AddBonus && Fresh(Run(Init(every), labels), id)
    ensures var s := Run(Init(every), labels).server;
      var r := QueueControl(s, kind, id);
      && r.Success?
      && var after, answer := r.value.0, r.value.1;
         && AfterQueueOrder(Run(Init(every), labels), id, kind).server == after
         && after.control.paused == (kind == PauseMonitoring) && after.control.blocked == (kind == BlockNow)
         && (exists c :: c in after.commands && c.id == answer && c.kind == kind && !c.acknowledged)
         && after == s.(control := after.control, commands := after.commands)
         && if exists c :: c in s.commands && c.kind == kind && !c.acknowledged then after == s else
              && answer == id && after.control.revision == s.control.revision + 1
              && forall c :: c in after.commands <==>
                   c == CommandRow(id, kind, 0, false) || (c in s.commands && (c.acknowledged || c.kind == AddBonus))
  {
    hide PolicyInv, UsageInv, CreditInv, LocalInv, AnchorInv;
    RunInv(every, labels);
    PendingIsLatest(Run(Init(every), labels));
  }

  /** A pending control is the latest one. */
  lemma {:induction false} PendingIsLatest(s: State)
    requires OrderInv(s)
    ensures forall c :: c in s.server.commands && PendingControl(c) ==>
      && LatestPendingControl(s.server.commands).Some?
      && LatestPendingControl(s.server.commands).value.kind == c.kind
      && s.server.control == Control(s.server.control.revision, c.kind.PauseMonitoring?, c.kind.BlockNow?)
  {
    forall c | c in s.server.commands && PendingControl(c)
      ensures LatestPendingControl(s.server.commands).Some?
      ensures LatestPendingControl(s.server.commands).value.kind == c.kind
      ensures s.server.control == Control(s.server.control.revision, c.kind.PauseMonitoring?, c.kind.BlockNow?)
    {
      var latest := LatestPendingControl(s.server.commands).value;
      assert CurrentOrder(s.history, s.server.control, latest) && CurrentOrder(s.history, s.server.control, c);
    }
  }

  /** At most one control command is unacknowledged; it carries the current revision
      and the flags are the ones it asks for. */
  lemma {:induction false} OneControlAtATime(every: int, labels: seq<Label>, i: nat, j: nat)
    requires every > 0
    requires i < |Run(Init(every), labels).server.commands| && j < |Run(Init(every), labels).server.commands|
    requires Run(Init(every), labels).server.commands[i].kind.IsControl()
    ensures var s := Run(Init(every), labels);
      var c, d := s.server.commands[i], s.server.commands[j];
      && (d.kind.IsControl() ==> i == j)
      && !c.acknowledged && c.id !in s.history.completed
      && c.id in s.history.orders && s.history.orders[c.id] == Order(c.kind, s.server.control.revision)
      && s.server.control == Control(s.server.control.revision, c.kind.PauseMonitoring?, c.kind.BlockNow?)
  {
    RunInv(every, labels);
    var s := Run(Init(every), labels);
    var c, d := s.server.commands[i], s.server.commands[j];
    assert c in s.server.commands && SoundCommand(s.history, s.disk.bonus, c);
    assert CurrentOrder(s.history, s.server.control, c);
    if d.kind.IsControl() {
      assert d in s.server.commands && CurrentOrder(s.history, s.server.control, d);
      if i < j {
        DistinctPositions(s.server.commands, i, j);
      } else if j < i {
        DistinctPositions(s.server.commands, j, i);
      }
    }
  }

  /** Acknowledging an order the server has replaced, or has completed, changes
      nothing at all. */
  lemma {:induction false} LateAckIsIdle(every: int, labels: seq<Label>, id: Id)
    requires every > 0
    requires var s := Run(Init(every), labels);
      && id in s.history.orders
      && (s.history.orders[id].revision < s.server.control.revision || id in s.history.completed)
    ensures var s := Run(Init(every), labels);
      AckOne(s.server.commands, id) == s.server.commands && NewlyCompleted(s.server, [id]) == {}
  {
    RunInv(every, labels);
    var s := Run(Init(every), labels);
    forall c | c in s.server.commands
      ensures c.id != id
    {
      assert SoundCommand(s.history, s.disk.bonus, c);
      assert CurrentOrder(s.history, s.server.control, c);
    }
    AckNothing(s.server.commands, id);
  }

  lemma {:induction false} AckNothing(commands: seq<CommandRow>, id: Id)
    requires forall c :: c in commands ==> c.id != id
    ensures AckOne(commands, id) == commands
  {
    if commands != [] {
      AckNothing(commands[1..], id);
    }
  }

  // ------------------------------------------------------------- displayed credit

  /** The rows of web credits the device has acknowledged. */
  function AcknowledgedWeb(s: Server): BonusTable {
    map id | id in s.bonus && s.bonus[id].origin == Web && !AwaitsAck(s.commands, id) :: s.bonus[id]
  }

  /** What the administrator is shown is confirmed credit: local rows plus
      acknowledged web rows; the clamp at zero never fires; and every web bonus
      in it is already on the agent. */
  lemma {:induction false} DisplayedIsConfirmed(every: int, labels: seq<Label>, date: Date)
    requires every > 0
    ensures var s := Run(Init(every), labels);
      && DisplayedBonus(s.server, date)
         == TotalBonus(OfOrigin(s.server.bonus, Local), date) + TotalBonus(AcknowledgedWeb(s.server), date)
      && TotalBonus(s.server.bonus, date) >= TotalBonus(UnacknowledgedBonus(s.server), date)
      && forall id :: id in AcknowledgedWeb(s.server) ==> id in s.disk.bonus
  {
    RunInv(every, labels);
    var s := Run(Init(every), labels);
    forall id | id in s.server.bonus
      ensures s.server.bonus[id].seconds > 0
      ensures AwaitsAck(s.server.commands, id) ==> s.server.bonus[id].origin == Web
      ensures id in AcknowledgedWeb(s.server) ==> id in s.disk.bonus
    {
      ServerRow(s, id);
    }
    DisplayedParts(s.server, date);
  }

  /** The remaining time the administrator is shown is the quota and the confirmed bonus
      less the usage reported; it is never more than the balance the next answer would
      authorise, and exactly that balance once no credit waits. */
  lemma {:induction false} DisplayedRemainingIsConfirmed(every: int, labels: seq<Label>, date: Date)
    requires every > 0
    ensures var s := Run(Init(every), labels).server;
      var left := s.policy.quota[date % 7] + TotalBonus(OfOrigin(s.bonus, Local), date)
                  + TotalBonus(AcknowledgedWeb(s), date) - UsageOn(s.usage, date);
      && (left >= 0 ==> DisplayedRemaining(s, date) == left)
      && (left <= 0 ==> DisplayedRemaining(s, date) == 0)
      && DisplayedRemaining(s, date) <= ConfirmedState(s, "", date).remaining
      && ((forall c :: c in s.commands && c.kind == AddBonus ==> c.acknowledged) ==>
            DisplayedRemaining(s, date) == ConfirmedState(s, "", date).remaining)
  {
    hide Inv;
    DisplayedIsConfirmed(every, labels, date);
    var s := Run(Init(every), labels).server;
    RunInv(every, labels);
    WaitingNonNegative(Run(Init(every), labels), date);
    if forall c :: c in s.commands && c.kind == AddBonus ==> c.acknowledged {
      assert UnacknowledgedBonus(s) == map[] && Dated(map[], date) == map[];
    }
  }

  lemma WaitingNonNegative(s: State, date: Date)
    requires Inv(s)
    ensures TotalBonus(UnacknowledgedBonus(s.server), date) >= 0
  {
    hide Inv;
    forall id | id in UnacknowledgedBonus(s.server)
      ensures UnacknowledgedBonus(s.server)[id].seconds > 0
    {
      ServerRow(s, id);
    }
    TotalBonusNonNegative(UnacknowledgedBonus(s.server), date);
  }

  lemma DisplayedParts(server: Server, date: Date)
    requires forall id :: id in server.bonus ==> server.bonus[id].seconds > 0
    requires forall id :: id in server.bonus && AwaitsAck(server.commands, id) ==> server.bonus[id].origin == Web
    ensures TotalBonus(server.bonus, date) - TotalBonus(UnacknowledgedBonus(server), date)
         == TotalBonus(OfOrigin(server.bonus, Local), date) + TotalBonus(AcknowledgedWeb(server), date) >= 0
  {
    var local, web, waiting := OfOrigin(server.bonus, Local), AcknowledgedWeb(server), UnacknowledgedBonus(server);
    assert server.bonus == (local + web) + waiting;
    TotalOfUnion(local + web, waiting, date);
    TotalOfUnion(local, web, date);
    TotalBonusNonNegative(local, date);
    TotalBonusNonNegative(web, date);
  }

  lemma ServerRow(s: State, id: Id)
    requires Inv(s) && id in s.server.bonus
    ensures s.server.bonus[id].seconds > 0
    ensures AwaitsAck(s.server.commands, id) ==> s.server.bonus[id].origin == Web
    ensures id in AcknowledgedWeb(s.server) ==> id in s.disk.bonus
  {
    if s.server.bonus[id].origin == Local {
      var early := s.history.grants[..s.history.known];
      DistinctSlices(s.history.grants, s.history.known);
      GrantRowsHold(early);
      assert id in OfOrigin(s.server.bonus, Local);
      var e :| e in early && e.id == id;
      assert e in s.history.grants;
      forall c | c in s.server.commands
        ensures c.id != id
      {
        assert SoundCommand(s.history, s.disk.bonus, c);
      }
    } else {
      var c :| c in s.server.commands && IsCreditRow(c, id);
      assert SoundCommand(s.history, s.disk.bonus, c);
    }
  }
}
