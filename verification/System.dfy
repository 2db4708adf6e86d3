/**
  Agent, server and network as one step system.  Every step is one transaction,
  one message or one crash; a run is any sequence of them.  A request may be lost
  before or after the server saw it, and the server may see one that the agent
  has long given up, any number of times.
*/
module System {
  import opened Wrappers
  import opened Records
  import opened AgentTables
  import opened Accounting
  import opened AccountingLaws
  import opened ServerTables
  import opened AdminLaws
  import opened Heartbeat

  /** A request, with the number of grants that were acknowledged when it was built. */
  datatype Envelope = Envelope(req: Request, from: nat)

  function End(env: Envelope): nat {
    env.from + |env.req.events|
  }

  /** The one exchange the client is engaged in; `excess` is what the server's
      clamp at zero added to the balance it answered with. */
  datatype Exchange =
    | Idle
    | Sent(env: Envelope)
    | Answered(env: Envelope, resp: Response, excess: int)
    | Applying(env: Envelope, resp: Response, excess: int, phase: Phase)

  datatype Credit = Credit(seconds: int, revision: int)

  datatype Order = Order(kind: CommandKind, revision: int)

  /** What a daemon cycle saw while it held a control revision. */
  datatype Sighting = Sighting(revision: int, session: Option<Session>)

  /** What happened so far, kept only to state properties: `backlog` is how many
      commands were unacknowledged when the server last answered, `excess` what its
      clamp added to the anchor in force. */
  datatype History = History(
    used: set<Id>,
    policies: map<int, PolicyRow>,
    grants: seq<Event>,
    known: nat,
    credits: map<Id, Credit>,
    orders: map<Id, Order>,
    sightings: set<Sighting>,
    completed: set<Id>,
    sent: set<Envelope>,
    excess: int,
    backlog: nat)

  datatype State = State(
    every: int,
    server: Server,
    disk: Disk,
    meter: Meter,
    memory: Memory,
    exchange: Exchange,
    history: History)

  function Init(every: int): State {
    State(every, NewDevice, EmptyDisk, FreshMeter, FreshMemory, Idle,
          History({}, map[1 := NewDevice.policy], [], 0, map[], map[], {}, {}, {}, 0, 0))
  }

  datatype Label =
    | Admin(op: AdminOp)
    | QueueCredit(creditId: Id, creditSeconds: int)
    | QueueOrder(orderId: Id, kind: CommandKind)
    | Grant(grantId: Id, grantDate: Date, grantSeconds: int)
    | Cycle(now: int, sessions: seq<Session>)
    | Build(date: Date)
    | Deliver
    | Stray(envelope: Envelope)
    | LoseRequest
    | LoseAnswer
    | Apply
    | Crash

  const MIN_GRANT: int := 60

  predicate Fresh(s: State, id: Id) {
    ValidOpaqueIdentifier(id) && id !in s.history.used
  }

  // ------------------------------------------------------- administrator's steps

  function AfterChange(s: State, op: AdminOp): State {
    var server := AfterAdmin(s.server, op);
    s.(server := server,
       history := s.history.(policies := s.history.policies[server.policy.revision := server.policy]))
  }

  function AfterQueueCredit(s: State, id: Id, seconds: int): State {
    if !Fresh(s, id) then s else
    match QueueRemoteBonus(s.server, seconds, id)
    case Failure(_) => s
    case Success(server) => s.(
      server := server,
      history := s.history.(
        used := s.history.used + {id},
        policies := s.history.policies[server.policy.revision := server.policy],
        credits := s.history.credits[id := Credit(seconds, server.policy.revision)]))
  }

  function AfterQueueOrder(s: State, id: Id, kind: CommandKind): State {
    if !Fresh(s, id) then s else
    match QueueControl(s.server, kind, id)
    case Failure(_) => s
    case Success(r) =>
      if r.0 == s.server then s else s.(
        server := r.0,
        history := s.history.(
          used := s.history.used + {id},
          orders := s.history.orders[id := Order(kind, r.0.control.revision)]))
  }

  // --------------------------------------------------------------- agent's steps

  function GrantEvent(id: Id, date: Date, seconds: int): Event {
    Event(id, "bonus_added", date, seconds, Local)
  }

  predicate CanGrant(s: State, id: Id, seconds: int) {
    && Fresh(s, id)
    && MIN_GRANT <= seconds <= MAX_LOCAL_BONUS
    && s.disk.policy.Some? && s.disk.policy.value.verifier != ""
  }

  function AfterGrant(s: State, id: Id, date: Date, seconds: int): State {
    if !CanGrant(s, id, seconds) then s else
    match InsertGrant(s.disk, GrantEvent(id, date, seconds))
    case Failure(_) => s
    case Success(disk) => s.(
      disk := disk,
      history := s.history.(
        used := s.history.used + {id},
        grants := s.history.grants + [GrantEvent(id, date, seconds)]))
  }

  ghost predicate CanCycle(s: State, now: int) {
    && Ready(s.meter, s.disk, s.every)
    && (s.meter.lastAt.Some? ==> s.meter.lastAt.value <= now)
  }

  ghost function AfterCycle(s: State, now: int, sessions: seq<Session>): State {
    if !CanCycle(s, now) then s else
    var c := Step(s.meter, s.disk, s.memory.control, sessions, now, s.every);
    var session := FirstActive(sessions);
    s.(meter := c.meter,
       disk := c.disk,
       memory := s.memory.(session := ViewOf(session)),
       history := if s.memory.control.online
                  then s.history.(sightings := s.history.sightings + {Sighting(s.memory.control.revision, session)})
                  else s.history)
  }

  function AfterCrash(s: State): State {
    s.(meter := FreshMeter, memory := FreshMemory, exchange := Idle)
  }

  // ------------------------------------------------------------ the network's steps

  function AfterBuild(s: State, date: Date): State {
    if !s.exchange.Idle? then s else
    var env := Envelope(BuildRequest(s.disk, s.memory, date),
                        if |s.disk.pending| <= |s.history.grants| then |s.history.grants| - |s.disk.pending| else 0);
    s.(exchange := Sent(env), history := s.history.(sent := s.history.sent + {env}))
  }

  function Failed(s: State): State {
    s.(exchange := Idle, memory := s.memory.(control := Offline))
  }

  /** The controls whose acknowledgement the server receives. */
  function NewlyCompleted(server: Server, acks: seq<Id>): set<Id> {
    set c | c in server.commands && PendingControl(c) && c.id in acks :: c.id
  }

  /** Server and history once the server has absorbed a request. */
  function Heard(s: State, env: Envelope): State
    requires env.req.secondsUsed >= 0
  {
    s.(server := Absorb(s.server, env.req),
       history := s.history.(
         known := if End(env) > s.history.known then End(env) else s.history.known,
         completed := s.history.completed + NewlyCompleted(s.server, env.req.acks)))
  }

  ghost function Shortfall(server: Server, date: Date): int {
    if Balance(server, date) < 0 then -Balance(server, date) else 0
  }

  ghost function AfterDeliver(s: State): State {
    if !s.exchange.Sent? then s else
    var env := s.exchange.env;
    match Receive(s.server, env.req)
    case Failure(_) => Failed(s)
    case Success(r) =>
      var heard := Heard(s, env);
      heard.(exchange := Answered(env, r.1, Shortfall(heard.server, env.req.date)),
             history := heard.history.(backlog := |Unacknowledged(heard.server.commands)|))
  }

  /** The server handles a request whose sender no longer listens. */
  ghost function AfterStray(s: State, env: Envelope): State {
    if env in s.history.sent && Receive(s.server, env.req).Success? then Heard(s, env) else s
  }

  ghost function AfterApply(s: State): State {
    match s.exchange
    case Answered(env, resp, excess) =>
      s.(memory := s.memory.(control := ControlOf(resp)), exchange := Applying(env, resp, excess, Acking(0)))
    case Applying(env, resp, excess, phase) =>
      if phase.Done? then s.(exchange := Idle) else
      (match ApplyPhase(s.disk, env.req, resp, phase)
       case Failure(_) => Failed(s)
       case Success(r) => s.(
         disk := r.0,
         exchange := Applying(env, resp, excess, r.1),
         history := if phase.Anchoring? && resp.sessionState.Some?
                    then s.history.(excess := excess) else s.history))
    case _ => s
  }

  ghost function Next(s: State, l: Label): State {
    match l
    case Admin(op) => AfterChange(s, op)
    case QueueCredit(id, seconds) => AfterQueueCredit(s, id, seconds)
    case QueueOrder(id, kind) => AfterQueueOrder(s, id, kind)
    case Grant(id, date, seconds) => AfterGrant(s, id, date, seconds)
    case Cycle(now, sessions) => AfterCycle(s, now, sessions)
    case Build(date) => AfterBuild(s, date)
    case Deliver => AfterDeliver(s)
    case Stray(env) => AfterStray(s, env)
    case LoseRequest => if s.exchange.Sent? then Failed(s) else s
    case LoseAnswer => if s.exchange.Answered? then Failed(s) else s
    case Apply => AfterApply(s)
    case Crash => AfterCrash(s)
  }

  ghost function Run(s: State, labels: seq<Label>): State {
    if labels == [] then s else Next(Run(s, labels[..|labels| - 1]), labels[|labels| - 1])
  }

  /** A cycle that confirmed the staged order moved it to the applied commands;
      the sighting that confirmed it is on record. */
  ghost predicate Observed(s: State, s': State, sessions: seq<Session>) {
    && EffectCurrent(s.disk, s.memory.control)
    && Confirms(s.disk.staged.value.kind, FirstActive(sessions))
    && Sighting(s.memory.control.revision, FirstActive(sessions)) in s'.history.sightings
    && s'.disk.staged == None
    && s'.disk.applied == InsertApplied(s.disk.applied, s.disk.staged.value.commandId)
  }

  lemma {:induction false} CycleFrame(s: State, now: int, sessions: seq<Session>)
    ensures var s' := AfterCycle(s, now, sessions);
      && s' == s.(meter := s'.meter, disk := s'.disk, memory := s'.memory, history := s'.history)
      && s'.memory.control == s.memory.control
      && s'.disk == s.disk.(usage := s'.disk.usage, staged := s'.disk.staged, applied := s'.disk.applied)
      && s'.history == s.history.(sightings := s'.history.sightings)
      && s.history.sightings <= s'.history.sightings
      && (Observed(s, s', sessions) || (s'.disk.staged == s.disk.staged && s'.disk.applied == s.disk.applied))
  {
    if CanCycle(s, now) {
      StepSound(s.meter, s.disk, s.memory.control, sessions, now, s.every);
    }
  }

  /** What the answer to a delivered request says, and the state it leaves. */
  lemma {:induction false} DeliverFrame(s: State) returns (resp: Response)
    requires s.exchange.Sent? && Receive(s.server, s.exchange.env.req).Success?
    ensures var env, heard := s.exchange.env, Heard(s, s.exchange.env);
      && resp == Answer(heard.server, env.req)
      && AfterDeliver(s) == heard.(
           exchange := Answered(env, resp, Shortfall(heard.server, env.req.date)),
           history := heard.history.(backlog := |Unacknowledged(heard.server.commands)|))
    ensures resp.commands == Offered(Heard(s, s.exchange.env).server)
    ensures resp.control == s.server.control && resp.acknowledgedCommands == s.exchange.env.req.acks
    ensures resp.acknowledgedEvents == EventIds(s.exchange.env.req.events)
    ensures resp.policy == if s.exchange.env.req.policyRevision < s.server.deviceRevision
                           then Some(s.server.policy) else None
  {
    resp := Answer(Heard(s, s.exchange.env).server, s.exchange.env.req);
  }

  lemma {:induction false} RunConcat(s: State, a: seq<Label>, b: seq<Label>)
    ensures Run(s, a + b) == Run(Run(s, a), b)
    decreases |b|
  {
    if b == [] {
      assert a + b == a;
    } else {
      assert (a + b)[..|a + b| - 1] == a + b[..|b| - 1];
      RunConcat(s, a, b[..|b| - 1]);
    }
  }
}
