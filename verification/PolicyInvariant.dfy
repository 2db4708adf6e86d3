/**
  Replication of the policy: in every reachable state the agent holds exactly the
  server's policy of some revision, and no revision ever runs ahead or back.
*/
module PolicyInvariant {
  import opened Records
  import opened ServerTables
  import opened AdminLaws
  import opened Heartbeat
  import opened System

  ghost predicate ServerPolicies(s: State) {
    var rev := s.server.policy.revision;
    && s.server.deviceRevision == rev >= 1
    && ValidPolicy(s.server.policy) && DisjointRoutines(s.server.policy.routines)
    && rev in s.history.policies && s.history.policies[rev] == s.server.policy
    && (forall r :: r in s.history.policies ==>
          1 <= r <= rev && s.history.policies[r].revision == r && ValidPolicy(s.history.policies[r]))
  }

  ghost predicate AgentPolicy(s: State) {
    && (s.disk.policy.Some? ==>
          var p := s.disk.policy.value;
          p.revision in s.history.policies && s.history.policies[p.revision] == p)
    && (s.disk.anchor.Some? ==>
          && s.disk.policy.Some?
          && s.disk.anchor.value.revision in s.history.policies
          && s.disk.anchor.value.revision <= s.disk.policy.value.revision)
  }

  predicate RequestRevisions(s: State, env: Envelope) {
    && 0 <= env.req.policyRevision <= s.server.policy.revision
    && 0 <= env.req.sessionStateRevision <= s.server.policy.revision
    && (env.req.requestSessionState ==> env.req.sessionActive)
  }

  function ReplyRevision(env: Envelope, resp: Response): int {
    if resp.policy.Some? then resp.policy.value.revision else env.req.policyRevision
  }

  /** What every answer promises about revisions and the session it speaks of. */
  predicate SoundReply(policies: map<int, PolicyRow>, env: Envelope, resp: Response) {
    && ReplyRevision(env, resp) in policies
    && (resp.policy.Some? ==>
          && resp.policy.value == policies[resp.policy.value.revision]
          && resp.policy.value.revision > env.req.policyRevision)
    && (env.req.requestSessionState ==> resp.sessionState.Some?)
    && (resp.policy.Some? && env.req.sessionActive && resp.policy.value.revision > env.req.sessionStateRevision ==>
          resp.sessionState.Some?)
    && (resp.sessionState.Some? ==>
          var state := resp.sessionState.value;
          && env.req.sessionActive && ValidOpaqueIdentifier(env.req.sessionId)
          && state.sessionId == env.req.sessionId && state.date == env.req.date
          && state.revision == ReplyRevision(env, resp) && state.remaining >= 0)
  }

  predicate BeforeReplacing(phase: Phase) {
    phase.Acking? || phase.Forgetting? || phase.Replacing?
  }

  predicate ExchangePolicy(s: State) {
    match s.exchange
    case Idle => true
    case Sent(env) =>
      env in s.history.sent && env.req.policyRevision == PolicyRevision(s.disk)
    case Answered(env, resp, _) =>
      && env in s.history.sent && SoundReply(s.history.policies, env, resp)
      && env.req.policyRevision == PolicyRevision(s.disk)
    case Applying(env, resp, _, phase) =>
      && env in s.history.sent && SoundReply(s.history.policies, env, resp)
      && (if BeforeReplacing(phase) then env.req.policyRevision == PolicyRevision(s.disk)
          else s.disk.policy.Some? && PolicyRevision(s.disk) == ReplyRevision(env, resp))
  }

  ghost predicate PolicyInv(s: State) {
    && ServerPolicies(s)
    && AgentPolicy(s)
    && (forall env :: env in s.history.sent ==> RequestRevisions(s, env))
    && ExchangePolicy(s)
  }

  // ------------------------------------------------------------------ steps

  /** A server step that only moves to the next revision keeps everything. */
  lemma NextRevision(s: State, server: Server, s': State)
    requires PolicyInv(s)
    requires ValidPolicy(server.policy) && DisjointRoutines(server.policy.routines)
    requires server.deviceRevision == server.policy.revision
    requires server.policy.revision == s.server.policy.revision + 1
    requires s'.server == server && s'.disk == s.disk && s'.exchange == s.exchange && s'.history.sent == s.history.sent
    requires s'.history.policies == s.history.policies[server.policy.revision := server.policy]
    ensures PolicyInv(s')
  {
  }

  lemma AdminRevision(server: Server, op: AdminOp)
    ensures AfterAdmin(server, op) == server
         || AfterAdmin(server, op) == Bump(AfterAdmin(server, op).(
              deviceRevision := server.deviceRevision,
              policy := AfterAdmin(server, op).policy.(revision := server.policy.revision)))
  {
  }

  lemma ChangeKeeps(s: State, op: AdminOp)
    requires PolicyInv(s)
    ensures PolicyInv(AfterChange(s, op))
  {
    AdminRevision(s.server, op);
    AdminKeepsValid(s.server, op);
    AdminKeepsDisjoint(s.server, op);
    if AfterAdmin(s.server, op) != s.server {
      NextRevision(s, AfterAdmin(s.server, op), AfterChange(s, op));
    }
  }

  lemma CreditKeeps(s: State, id: Id, seconds: int)
    requires PolicyInv(s)
    ensures PolicyInv(AfterQueueCredit(s, id, seconds))
  {
    if Fresh(s, id) && QueueRemoteBonus(s.server, seconds, id).Success? {
      NextRevision(s, QueueRemoteBonus(s.server, seconds, id).value, AfterQueueCredit(s, id, seconds));
    }
  }

  lemma BuildKeeps(s: State, date: Date)
    requires PolicyInv(s)
    ensures PolicyInv(AfterBuild(s, date))
  {
  }

  /** A step that moves no policy, no request and no anchor revision. */
  lemma QuietKeeps(s: State, s': State)
    requires PolicyInv(s)
    requires s'.server.policy == s.server.policy && s'.server.deviceRevision == s.server.deviceRevision
    requires s'.history.policies == s.history.policies && s'.history.sent == s.history.sent
    requires s'.disk.policy == s.disk.policy && AnchorRevision(s'.disk) == AnchorRevision(s.disk)
    requires s'.disk.anchor.Some? <==> s.disk.anchor.Some?
    requires s'.exchange == s.exchange || s'.exchange == Idle
    ensures PolicyInv(s')
  {
  }

  lemma AnswerIsSound(s: State, env: Envelope, resp: Response, s': State)
    requires PolicyInv(s) && s.exchange == Sent(env) && resp == Answer(s.server, env.req)
    requires !env.req.sessionActive || ValidOpaqueIdentifier(env.req.sessionId)
    requires s'.server.policy == s.server.policy && s'.server.deviceRevision == s.server.deviceRevision
    requires s'.disk == s.disk
    requires s'.history.policies == s.history.policies && s'.history.sent == s.history.sent
    requires s'.exchange.Answered? && s'.exchange.env == env && s'.exchange.resp == resp
    ensures PolicyInv(s')
  {
    assert RequestRevisions(s, env);
  }

  lemma DeliverKeeps(s: State)
    requires PolicyInv(s)
    ensures PolicyInv(AfterDeliver(s))
  {
    hide PolicyInv;
    QuietKeeps(s, Failed(s));
    if s.exchange.Sent? && Receive(s.server, s.exchange.env.req).Success? {
      var env := s.exchange.env;
      var resp := DeliverFrame(s);
      AnswerIsSound(s.(server := Absorb(s.server, env.req)), env, resp, AfterDeliver(s)) by {
        ServerTablesKeep(s, s.(server := Absorb(s.server, env.req)));
      }
    }
  }

  lemma ServerTablesKeep(s: State, s': State)
    requires PolicyInv(s) && s' == s.(server := s'.server)
    requires s'.server.policy == s.server.policy && s'.server.deviceRevision == s.server.deviceRevision
    ensures PolicyInv(s')
  {
  }

  lemma StrayKeeps(s: State, env: Envelope)
    requires PolicyInv(s)
    ensures PolicyInv(AfterStray(s, env))
  {
    QuietKeeps(s, AfterStray(s, env));
  }

  lemma PhaseKeeps(s: State, env: Envelope, resp: Response, excess: int, phase: Phase)
    requires PolicyInv(s) && s.exchange == Applying(env, resp, excess, phase) && !phase.Done?
    requires ApplyPhase(s.disk, env.req, resp, phase).Success?
    ensures var r := ApplyPhase(s.disk, env.req, resp, phase).value;
      var s' := s.(disk := r.0, exchange := Applying(env, resp, excess, r.1));
      AgentPolicy(s') && ExchangePolicy(s')
  {
    PhaseFrame(s.disk, env.req, resp, phase);
  }

  lemma {:induction false} ApplyKeeps(s: State)
    requires PolicyInv(s)
    ensures PolicyInv(AfterApply(s))
  {
    if s.exchange.Applying? && !s.exchange.phase.Done? {
      var env, resp, excess, phase := s.exchange.env, s.exchange.resp, s.exchange.excess, s.exchange.phase;
      if ApplyPhase(s.disk, env.req, resp, phase).Success? {
        PhaseKeeps(s, env, resp, excess, phase);
        var r := ApplyPhase(s.disk, env.req, resp, phase).value;
        SameFor(s.(disk := r.0, exchange := Applying(env, resp, excess, r.1)), AfterApply(s));
        assert forall e :: e in s.history.sent ==> RequestRevisions(s, e);
      }
    }
  }

  /** The invariant reads neither the clocks nor the rest of the history. */
  lemma SameFor(s: State, s': State)
    requires AgentPolicy(s) && ExchangePolicy(s)
    requires s'.disk == s.disk && s'.exchange == s.exchange
    requires s'.history.policies == s.history.policies && s'.history.sent == s.history.sent
    ensures AgentPolicy(s') && ExchangePolicy(s')
  {
  }

  lemma {:induction false} PolicyStep(s: State, l: Label)
    requires PolicyInv(s)
    ensures PolicyInv(Next(s, l))
  {
    hide PolicyInv;
    match l
    case Admin(op) => ChangeKeeps(s, op);
    case QueueCredit(id, seconds) => CreditKeeps(s, id, seconds);
    case QueueOrder(id, kind) => QuietKeeps(s, AfterQueueOrder(s, id, kind));
    case Grant(id, date, seconds) => QuietKeeps(s, AfterGrant(s, id, date, seconds));
    case Cycle(now, sessions) =>
      CycleFrame(s, now, sessions);
      QuietKeeps(s, AfterCycle(s, now, sessions));
    case Build(date) => BuildKeeps(s, date);
    case Deliver => DeliverKeeps(s);
    case Stray(env) => StrayKeeps(s, env);
    case LoseRequest => QuietKeeps(s, Failed(s));
    case LoseAnswer => QuietKeeps(s, Failed(s));
    case Apply => ApplyKeeps(s);
    case Crash => QuietKeeps(s, AfterCrash(s));
  }
}
