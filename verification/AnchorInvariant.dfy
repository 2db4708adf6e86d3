/**
  The anchor as a cache: remaining plus usage is always the quota of its policy
  revision, plus every local grant and every credit of that revision for its date,
  plus what the server's clamp at zero added.
*/
module AnchorInvariant {
  import opened Wrappers
  import opened Calendar
  import opened Records
  import opened AgentTables
  import opened ServerTables
  import opened AdminLaws
  import opened Heartbeat
  import opened System
  import opened PolicyInvariant
  import opened CreditInvariant
  import opened LocalInvariant

  // ------------------------------------------------------------------- totals

  lemma TotalOfUnion(a: BonusTable, b: BonusTable, date: Date)
    requires a.Keys !! b.Keys
    ensures TotalBonus(a + b, date) == TotalBonus(a, date) + TotalBonus(b, date)
  {
    assert Dated(a + b, date) == Dated(a, date) + Dated(b, date);
    SumUnion(Dated(a, date), Dated(b, date));
  }

  lemma TotalOfInsert(rows: BonusTable, id: Id, row: BonusRow, date: Date)
    requires id !in rows
    ensures TotalBonus(rows[id := row], date) == TotalBonus(rows, date) + if row.date == date then row.seconds else 0
  {
    if row.date == date {
      assert Dated(rows[id := row], date) == Dated(rows, date)[id := row.seconds];
      SumInsert(Dated(rows, date), id, row.seconds);
    } else {
      assert Dated(rows[id := row], date) == Dated(rows, date);
    }
  }

  /** The grants up to a point and after it are disjoint and add up. */
  lemma {:induction false} GrantTotals(grants: seq<Event>, cut: nat, date: Date)
    requires Distinct(grants) && cut <= |grants|
    ensures TotalBonus(GrantRows(grants), date)
         == TotalBonus(GrantRows(grants[..cut]), date) + TotalBonus(GrantRows(grants[cut..]), date)
  {
    var early, late := GrantRows(grants[..cut]), GrantRows(grants[cut..]);
    assert grants == grants[..cut] + grants[cut..];
    GrantRowsConcat(grants[..cut], grants[cut..]);
    DistinctSlices(grants, cut);
    GrantRowsHold(grants[..cut]);
    GrantRowsHold(grants[cut..]);
    assert early.Keys !! late.Keys;
    TotalOfUnion(early, late, date);
  }

  // ---------------------------------------------------------------- invariant

  function CreditedRows(rows: BonusTable, credits: map<Id, Credit>, revision: int): BonusTable {
    map id | id in rows && id in credits && credits[id].revision <= revision :: rows[id]
  }

  /** What the server means a date to allow at a revision, given some grants. */
  ghost function Authorised(s: State, revision: int, events: seq<Event>, date: Date): int
    requires revision in s.history.policies
  {
    s.history.policies[revision].quota[WeekdayOfDate(date)]
    + TotalBonus(GrantRows(events), date)
    + TotalBonus(CreditedRows(s.server.bonus, s.history.credits, revision), date)
  }

  ghost predicate AnchorExact(s: State) {
    s.disk.anchor.Some? ==>
      var a := s.disk.anchor.value;
      && a.revision in s.history.policies
      && s.history.excess >= 0
      && a.remaining + a.usage == Authorised(s, a.revision, s.history.grants, a.date) + s.history.excess
  }

  ghost predicate ReplyExact(s: State, env: Envelope, resp: Response, excess: int) {
    resp.sessionState.Some? ==>
      var state := resp.sessionState.value;
      && state.revision in s.history.policies && End(env) <= |s.history.grants|
      && excess >= 0
      && state.remaining + state.usage
         == Authorised(s, state.revision, s.history.grants[..End(env)], state.date) + excess
  }

  /** Once the anchor of an answer is stored, it is the one in force. */
  ghost predicate AnchorInForce(s: State, resp: Response, phase: Phase) {
    (phase.Commanding? || phase.Done?) && resp.sessionState.Some? ==>
      && s.disk.anchor.Some?
      && s.disk.anchor.value.revision == resp.sessionState.value.revision
      && s.disk.anchor.value.date == resp.sessionState.value.date
      && s.disk.anchor.value.sessionId == resp.sessionState.value.sessionId
  }

  ghost predicate AnchorInv(s: State) {
    && AnchorExact(s)
    && (match s.exchange
        case Answered(env, resp, excess) => ReplyExact(s, env, resp, excess)
        case Applying(env, resp, excess, phase) => ReplyExact(s, env, resp, excess) && AnchorInForce(s, resp, phase)
        case _ => true)
  }

  // -------------------------------------------------------------------- steps

  /** Past revisions are settled: their policy is fixed and every credit they
      cover has its row, so nothing later changes what they allow. */
  lemma AuthorisedStays(s: State, s': State, revision: int, events: seq<Event>, date: Date)
    requires revision in s.history.policies && Credited(s.history, s.server.bonus, revision)
    requires revision in s'.history.policies && s'.history.policies[revision] == s.history.policies[revision]
    requires forall id :: id in s.server.bonus ==> id in s'.server.bonus && s'.server.bonus[id] == s.server.bonus[id]
    requires forall id :: id in s.history.credits ==>
      id in s'.history.credits && s'.history.credits[id] == s.history.credits[id]
    requires forall id :: id in s'.history.credits && id !in s.history.credits ==>
      s'.history.credits[id].revision > revision
    ensures Authorised(s', revision, events, date) == Authorised(s, revision, events, date)
  {
    assert CreditedRows(s'.server.bonus, s'.history.credits, revision)
        == CreditedRows(s.server.bonus, s.history.credits, revision);
  }

  /** A step that stores no anchor and grants nothing. */
  lemma {:induction false} ServerStepKeeps(s: State, s': State)
    requires PolicyInv(s) && CreditInv(s) && AnchorInv(s)
    requires s'.disk.anchor == s.disk.anchor && s'.exchange == s.exchange
    requires s'.history.excess == s.history.excess && s'.history.grants == s.history.grants
    requires forall r :: r in s.history.policies ==>
      r in s'.history.policies && s'.history.policies[r] == s.history.policies[r]
    requires forall id :: id in s.server.bonus ==> id in s'.server.bonus && s'.server.bonus[id] == s.server.bonus[id]
    requires forall id :: id in s.history.credits ==>
      id in s'.history.credits && s'.history.credits[id] == s.history.credits[id]
    requires forall id :: id in s'.history.credits && id !in s.history.credits ==>
      s'.history.credits[id].revision > s.server.policy.revision
    ensures AnchorInv(s')
  {
    if s.disk.anchor.Some? {
      var a := s.disk.anchor.value;
      AuthorisedStays(s, s', a.revision, s.history.grants, a.date);
    }
    if (s.exchange.Answered? || s.exchange.Applying?) && s.exchange.resp.sessionState.Some? {
      var state := s.exchange.resp.sessionState.value;
      AuthorisedStays(s, s', state.revision, s.history.grants[..End(s.exchange.env)], state.date);
    }
  }

  lemma ChangeKeeps(s: State, op: AdminOp)
    requires PolicyInv(s) && CreditInv(s) && AnchorInv(s)
    ensures AnchorInv(AfterChange(s, op))
  {
    hide AnchorInv, CreditInv, AgentPolicy, ExchangePolicy;
    AdminRevision(s.server, op);
    ServerStepKeeps(s, AfterChange(s, op));
  }

  lemma QueueCreditKeeps(s: State, id: Id, seconds: int)
    requires PolicyInv(s) && CreditInv(s) && AnchorInv(s)
    ensures AnchorInv(AfterQueueCredit(s, id, seconds))
  {
    hide AnchorInv, CreditInv, AgentPolicy, ExchangePolicy;
    NamesOf(s);
    ServerStepKeeps(s, AfterQueueCredit(s, id, seconds));
  }

  lemma QueueOrderKeeps(s: State, id: Id, kind: CommandKind)
    requires PolicyInv(s) && CreditInv(s) && AnchorInv(s)
    ensures AnchorInv(AfterQueueOrder(s, id, kind))
  {
    hide AnchorInv, CreditInv, PolicyInv;
    ServerStepKeeps(s, AfterQueueOrder(s, id, kind));
  }

  lemma NamesOf(s: State)
    requires CreditInv(s)
    ensures Names(s.history)
  {
  }

  /** One more grant raises what its own date is allowed by its seconds. */
  lemma AuthorisedGrant(s: State, e: Event, revision: int, date: Date)
    requires revision in s.history.policies && e.id !in GrantRows(s.history.grants)
    ensures Authorised(s, revision, s.history.grants + [e], date)
         == Authorised(s, revision, s.history.grants, date) + if e.date == date then e.seconds else 0
  {
    assert (s.history.grants + [e])[..|s.history.grants|] == s.history.grants;
    TotalOfInsert(GrantRows(s.history.grants), e.id, RowOf(e), date);
  }

  /** What a date is allowed reads policies, credits and the server's rows only. */
  lemma AuthorisedFor(s: State, s': State, revision: int, events: seq<Event>, date: Date)
    requires revision in s.history.policies && s'.history.policies == s.history.policies
    requires s'.server.bonus == s.server.bonus && s'.history.credits == s.history.credits
    ensures Authorised(s', revision, events, date) == Authorised(s, revision, events, date)
  {
  }

  lemma GrantRaisesAnchor(s: State, s': State, e: Event)
    requires AnchorExact(s) && e.id !in GrantRows(s.history.grants)
    requires s'.history == s.history.(used := s'.history.used, grants := s.history.grants + [e])
    requires s'.server == s.server
    requires s'.disk.anchor == if s.disk.anchor.Some? && s.disk.anchor.value.date == e.date
                               then Some(s.disk.anchor.value.(remaining := s.disk.anchor.value.remaining + e.seconds))
                               else s.disk.anchor
    ensures AnchorExact(s')
  {
    hide Authorised;
    if s.disk.anchor.Some? {
      var a := s.disk.anchor.value;
      AuthorisedGrant(s, e, a.revision, a.date);
      AuthorisedFor(s, s', a.revision, s'.history.grants, a.date);
    }
  }

  lemma GrantKeepsReply(s: State, s': State, e: Event, env: Envelope, resp: Response, excess: int)
    requires ReplyExact(s, env, resp, excess)
    requires s'.history == s.history.(used := s'.history.used, grants := s.history.grants + [e])
    requires s'.server == s.server
    ensures ReplyExact(s', env, resp, excess)
  {
    hide Authorised;
    if resp.sessionState.Some? {
      var state := resp.sessionState.value;
      assert s'.history.grants[..End(env)] == s.history.grants[..End(env)];
      AuthorisedFor(s, s', state.revision, s.history.grants[..End(env)], state.date);
    }
  }

  lemma NewGrantHasNoRow(s: State, id: Id)
    requires CreditInv(s) && LocalInv(s) && Fresh(s, id)
    ensures id !in s.disk.bonus && id !in GrantRows(s.history.grants)
  {
    assert Rows(s.history, s.disk.bonus) && OfOrigin(s.disk.bonus, Local) == GrantRows(s.history.grants);
  }

  lemma {:induction false} GrantKeeps(s: State, id: Id, date: Date, seconds: int)
    requires CreditInv(s) && LocalInv(s) && AnchorInv(s)
    ensures AnchorInv(AfterGrant(s, id, date, seconds))
  {
    hide CreditInv, LocalInv, AnchorExact, ReplyExact;
    var s' := AfterGrant(s, id, date, seconds);
    if s' != s {
      var e := GrantEvent(id, date, seconds);
      NewGrantHasNoRow(s, id);
      GrantRaisesAnchor(s, s', e);
      if s.exchange.Answered? || s.exchange.Applying? {
        GrantKeepsReply(s, s', e, s.exchange.env, s.exchange.resp, s.exchange.excess);
      }
    }
  }

  /** Web rows are exactly the credits' rows. */
  lemma WebRowsAreCredits(h: History, rows: BonusTable, revision: int)
    requires Rows(h, rows)
    requires forall id :: id in h.credits ==> h.credits[id].revision <= revision
    ensures OfOrigin(rows, Web) == CreditedRows(rows, h.credits, revision)
  {
  }

  /** The balance a heartbeat answers with, in terms of what was granted. */
  lemma BalanceExact(s: State, env: Envelope, date: Date)
    requires PolicyInv(s) && CreditInv(s) && LocalInv(s)
    requires s.history.known == End(env) && End(env) <= |s.history.grants|
    ensures Balance(s.server, date) + UsageOn(s.server.usage, date)
         == Authorised(s, s.server.policy.revision, s.history.grants[..End(env)], date)
  {
    TotalByOrigin(s.server.bonus, date);
    WebRowsAreCredits(s.history, s.server.bonus, s.server.policy.revision);
  }

  lemma {:induction false} HeardKeeps(s: State, env: Envelope)
    requires PolicyInv(s) && CreditInv(s) && AnchorInv(s) && env in s.history.sent && env.req.secondsUsed >= 0
    ensures AnchorInv(Heard(s, env))
  {
    AbsorbedRows(s.history, s.disk.bonus, s.server, env.req);
    ServerStepKeeps(s, Heard(s, env));
  }

  lemma {:induction false} DeliverKeeps(s: State)
    requires PolicyInv(s) && CreditInv(s) && LocalInv(s) && AnchorInv(s)
    requires forall env :: env in s.history.sent ==> env.req.secondsUsed >= 0
    ensures AnchorInv(AfterDeliver(s))
  {
    if s.exchange.Sent? && Receive(s.server, s.exchange.env.req).Success? {
      var env := s.exchange.env;
      var resp := DeliverFrame(s);
      HeardKeeps(s, env);
      CreditInvariant.HeardKeeps(s, env);
      LocalInvariant.HeardKeeps(s, env);
      StrayKeeps(s, env);
      assert Slice(s.history.grants, env, Acked(s));
      BalanceExact(Heard(s, env), env, env.req.date);
    }
  }

  lemma PendingIsSuffix(grants: seq<Event>, pending: seq<Event>, disk: Disk)
    requires Distinct(grants) && Distinct(pending)
    requires forall e :: e in pending ==> e in grants
    requires disk.pending == pending && OfOrigin(disk.bonus, Local) == GrantRows(grants)
    ensures PendingLocal(disk) == GrantRows(pending)
  {
    hide GrantRows, Distinct;
    GrantRowsHold(grants);
    GrantRowsHold(pending);
    var local := OfOrigin(disk.bonus, Local);
    assert PendingLocal(disk) == map id | id in local && id in PendingIds(pending) :: local[id];
    forall id | id in PendingIds(pending)
      ensures id in local && id in GrantRows(pending) && local[id] == GrantRows(pending)[id]
    {
      var e :| e in pending && e.id == id;
    }
  }

  /** The local bonuses awaiting upload are the grants not acknowledged yet. */
  lemma PendingRows(s: State)
    requires LocalInv(s)
    ensures PendingLocal(s.disk) == GrantRows(s.history.grants[Acked(s)..])
  {
    DistinctSlices(s.history.grants, Acked(s));
    PendingIsSuffix(s.history.grants, s.disk.pending, s.disk);
  }

  lemma {:induction false} AnchoringKeeps(s: State, env: Envelope, resp: Response, excess: int)
    requires PolicyInv(s) && LocalInv(s) && AnchorInv(s)
    requires s.exchange == Applying(env, resp, excess, Anchoring)
    requires ApplyPhase(s.disk, env.req, resp, Anchoring).Success?
    ensures AnchorInv(AfterApply(s))
  {
    if resp.sessionState.Some? {
      PendingRows(s);
      GrantTotals(s.history.grants, End(env), resp.sessionState.value.date);
    }
  }

  lemma {:induction false} ApplyKeeps(s: State)
    requires PolicyInv(s) && LocalInv(s) && AnchorInv(s)
    ensures AnchorInv(AfterApply(s))
  {
    hide PolicyInv, LocalInv, UsageOn;
    if s.exchange.Applying? && !s.exchange.phase.Done? {
      var env, resp, excess, phase := s.exchange.env, s.exchange.resp, s.exchange.excess, s.exchange.phase;
      if ApplyPhase(s.disk, env.req, resp, phase).Success? {
        if phase.Anchoring? {
          AnchoringKeeps(s, env, resp, excess);
        } else {
          PhaseFrame(s.disk, env.req, resp, phase);
        }
      }
    }
  }

  lemma {:induction false} AnchorStep(s: State, l: Label)
    requires PolicyInv(s) && CreditInv(s) && LocalInv(s) && AnchorInv(s)
    requires forall env :: env in s.history.sent ==> env.req.secondsUsed >= 0
    ensures AnchorInv(Next(s, l))
  {
    hide PolicyInv, CreditInv, LocalInv, AnchorInv;
    match l
    case Admin(op) => ChangeKeeps(s, op);
    case QueueCredit(id, seconds) => QueueCreditKeeps(s, id, seconds);
    case QueueOrder(id, kind) => QueueOrderKeeps(s, id, kind);
    case Grant(id, date, seconds) => GrantKeeps(s, id, date, seconds);
    case Cycle(now, sessions) =>
      CycleFrame(s, now, sessions);
      ServerStepKeeps(s, AfterCycle(s, now, sessions));
    case Deliver => DeliverKeeps(s);
    case Stray(env) =>
      if env in s.history.sent { HeardKeeps(s, env); }
    case Apply => ApplyKeeps(s);
    case _ => ClientStepKeeps(s, l);
  }

  /** Building a request, losing a message and a crash store no anchor. */
  lemma {:induction false} ClientStepKeeps(s: State, l: Label)
    requires AnchorInv(s) && (l.Build? || l.LoseRequest? || l.LoseAnswer? || l.Crash?)
    ensures AnchorInv(Next(s, l))
  {
  }
}
