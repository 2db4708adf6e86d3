/**
  Locally granted bonuses over every run: each is on the agent exactly once, and
  is still pending or already on the server.  The pending events the server
  already knows are a prefix of the queue no longer than one batch, so applying an
  answer removes all of them.
*/
module LocalInvariant {
  import opened Records
  import opened AgentTables
  import opened Accounting
  import opened ServerTables
  import opened Heartbeat
  import opened System
  import opened PolicyInvariant
  import opened CreditInvariant

  // ------------------------------------------------------------------ grant rows

  ghost predicate Distinct(events: seq<Event>) {
    forall i, j :: 0 <= i < j < |events| ==> events[i].id != events[j].id
  }

  /** The bonus table that holds exactly these grants. */
  function GrantRows(events: seq<Event>): BonusTable {
    if events == [] then map[]
    else GrantRows(events[..|events| - 1])[events[|events| - 1].id := RowOf(events[|events| - 1])]
  }

  lemma {:induction false} GrantRowsHold(events: seq<Event>)
    requires Distinct(events)
    ensures forall e :: e in events ==> e.id in GrantRows(events) && GrantRows(events)[e.id] == RowOf(e)
    ensures forall id :: id in GrantRows(events) ==> exists e :: e in events && e.id == id
  {
    hide RowOf;
    if events != [] {
      var front, last := events[..|events| - 1], events[|events| - 1];
      GrantRowsHold(front);
      assert events == front + [last];
      LastDiffers(events);
      forall e | e in events
        ensures e.id in GrantRows(events) && GrantRows(events)[e.id] == RowOf(e)
      {
        assert e in front || e == last;
      }
      forall id | id in GrantRows(events)
        ensures exists e :: e in events && e.id == id
      {
        var e :| (e in front || e == last) && e.id == id;
        assert e in events;
      }
    }
  }

  lemma {:induction false} LastDiffers(events: seq<Event>)
    requires Distinct(events) && events != []
    ensures Distinct(events[..|events| - 1])
    ensures forall e :: e in events[..|events| - 1] ==> e.id != events[|events| - 1].id
  {
    forall e | e in events[..|events| - 1]
      ensures e.id != events[|events| - 1].id
    {
      var i :| 0 <= i < |events| - 1 && events[i] == e;
    }
  }

  lemma {:induction false} GrantRowsConcat(a: seq<Event>, b: seq<Event>)
    ensures GrantRows(a + b) == GrantRows(a) + GrantRows(b)
    decreases |b|
  {
    if b == [] {
      assert a + b == a;
    } else {
      var front := b[..|b| - 1];
      assert (a + b)[..|a + b| - 1] == a + front;
      GrantRowsConcat(a, front);
    }
  }

  lemma DistinctSlices(grants: seq<Event>, cut: nat)
    requires Distinct(grants) && cut <= |grants|
    ensures Distinct(grants[..cut]) && Distinct(grants[cut..])
    ensures forall e, f :: e in grants[..cut] && f in grants[cut..] ==> e.id != f.id
  {
    var late := grants[cut..];
    forall i, j | 0 <= i < j < |late|
      ensures late[i].id != late[j].id
    {
      assert late[i] == grants[cut + i] && late[j] == grants[cut + j];
    }
    forall e, f | e in grants[..cut] && f in late
      ensures e.id != f.id
    {
      var i :| 0 <= i < cut && grants[i] == e;
      var j :| cut <= j < |grants| && grants[j] == f;
    }
  }

  // -------------------------------------------------------------------- invariant

  function Acked(s: State): int {
    |s.history.grants| - |s.disk.pending|
  }

  /** A sent batch is a slice of the grants that starts where nothing is pending
      any more. */
  ghost predicate Slice(grants: seq<Event>, env: Envelope, acked: int) {
    && env.from <= acked
    && |env.req.events| <= BATCH
    && End(env) <= |grants|
    && env.req.events == grants[env.from..End(env)]
  }

  ghost predicate Queue(grants: seq<Event>, pending: seq<Event>, known: nat) {
    && |pending| <= |grants|
    && pending == grants[|grants| - |pending|..]
    && |grants| - |pending| <= known <= |grants|
    && known <= |grants| - |pending| + BATCH
  }

  ghost predicate Ledger(s: State) {
    var grants := s.history.grants;
    && Distinct(grants)
    && (forall e :: e in grants ==> ValidEvent(e) && e.seconds >= MIN_GRANT)
    && Queue(grants, s.disk.pending, s.history.known)
    && OfOrigin(s.disk.bonus, Local) == GrantRows(grants)
    && OfOrigin(s.server.bonus, Local) == GrantRows(grants[..s.history.known])
  }

  ghost predicate Sendings(s: State) {
    && (forall env :: env in s.history.sent ==> Slice(s.history.grants, env, Acked(s)))
    && (match s.exchange
        case Idle => true
        case Sent(env) => Latest(s, env) && Acked(s) == env.from
        case Answered(env, resp, _) =>
          && Latest(s, env) && Acked(s) == env.from && s.history.known == End(env)
          && resp.acknowledgedEvents == EventIds(env.req.events)
        case Applying(env, resp, _, phase) =>
          && Latest(s, env) && s.history.known == End(env)
          && resp.acknowledgedEvents == EventIds(env.req.events)
          && (if phase.Acking? then phase.next <= |env.req.events| && Acked(s) == env.from + phase.next
              else Acked(s) == End(env)))
  }

  /** No request ever sent reaches further than the one in flight. */
  ghost predicate Latest(s: State, env: Envelope) {
    && env in s.history.sent
    && s.history.known <= End(env)
    && forall e :: e in s.history.sent ==> End(e) <= End(env)
  }

  ghost predicate LocalInv(s: State) {
    Ledger(s) && Sendings(s)
  }

  // ------------------------------------------------------------------------ steps

  lemma GrantExtends(grants: seq<Event>, pending: seq<Event>, known: nat, rows: BonusTable, e: Event)
    requires Distinct(grants) && Queue(grants, pending, known)
    requires forall g :: g in grants ==> g.id != e.id
    requires e.origin == Local && e.id !in rows && OfOrigin(rows, Local) == GrantRows(grants)
    ensures Distinct(grants + [e]) && Queue(grants + [e], pending + [e], known)
    ensures (grants + [e])[..known] == grants[..known]
    ensures OfOrigin(rows[e.id := RowOf(e)], Local) == GrantRows(grants + [e])
  {
    assert (grants + [e])[..|grants|] == grants;
    assert OfOrigin(rows[e.id := RowOf(e)], Local) == OfOrigin(rows, Local)[e.id := RowOf(e)];
  }

  lemma GrantSlices(s: State, e: Event)
    requires forall env :: env in s.history.sent ==> Slice(s.history.grants, env, Acked(s))
    ensures forall env :: env in s.history.sent ==> Slice(s.history.grants + [e], env, Acked(s))
  {
    forall env | env in s.history.sent
      ensures Slice(s.history.grants + [e], env, Acked(s))
    {
      assert Slice(s.history.grants, env, Acked(s));
    }
  }

  lemma FreshIsUnused(s: State, id: Id)
    requires CreditInv(s) && Fresh(s, id)
    ensures id !in s.disk.bonus && forall g :: g in s.history.grants ==> g.id != id
  {
    hide Commands, Requests, Replies, Revisions, Applied;
  }

  lemma {:induction false} GrantStored(s: State, e: Event)
    requires Ledger(s) && e.id !in s.disk.bonus && forall g :: g in s.history.grants ==> g.id != e.id
    requires InsertGrant(s.disk, e).Success?
    ensures var disk := InsertGrant(s.disk, e).value;
      disk.pending == s.disk.pending + [e] && disk.bonus == s.disk.bonus[e.id := RowOf(e)]
  {
    hide Distinct, GrantRows;
    assert forall p :: p in s.disk.pending ==> p in s.history.grants;
  }

  lemma {:induction false} GrantKeeps(s: State, id: Id, date: Date, seconds: int)
    requires CreditInv(s) && LocalInv(s)
    ensures LocalInv(AfterGrant(s, id, date, seconds))
  {
    hide CreditInv, InsertGrant, Distinct, GrantRows, Queue, Slice;
    var s' := AfterGrant(s, id, date, seconds);
    if s' != s {
      var e := GrantEvent(id, date, seconds);
      FreshIsUnused(s, id);
      GrantStored(s, e);
      GrantExtends(s.history.grants, s.disk.pending, s.history.known, s.disk.bonus, e);
      GrantSlices(s, e);
      assert Acked(s') == Acked(s);
    }
  }

  lemma BuildKeeps(s: State, date: Date)
    requires LocalInv(s)
    ensures LocalInv(AfterBuild(s, date))
  {
    if s.exchange.Idle? {
      var s' := AfterBuild(s, date);
      var env := s'.exchange.env;
      assert Slice(s.history.grants, env, Acked(s));
      forall e | e in s'.history.sent
        ensures End(e) <= End(env)
      {
        assert Slice(s.history.grants, e, Acked(s));
      }
    }
  }

  lemma LaterGrantUnknown(grants: seq<Event>, known: nat, k: nat)
    requires Distinct(grants) && known <= k < |grants|
    ensures grants[k].id !in GrantRows(grants[..known])
  {
    DistinctSlices(grants, known);
    GrantRowsHold(grants[..known]);
    assert grants[k] == grants[known..][k - known];
    assert grants[k] in grants[known..];
  }

  lemma LocalRowAdded(rows: BonusTable, e: Event)
    requires e.id !in rows && e.origin == Local
    ensures OfOrigin(rows[e.id := RowOf(e)], Local) == OfOrigin(rows, Local)[e.id := RowOf(e)]
  {
  }

  /** One more event: a no-op if the server knows it, the next grant if not. */
  lemma {:induction false} EventExtends(rows: BonusTable, grants: seq<Event>, known: nat, k: nat)
    requires Distinct(grants)
    requires k <= known <= |grants| && k < |grants|
    requires OfOrigin(rows, Local) == GrantRows(grants[..known])
    requires grants[k].origin == Local
    requires grants[k].id in rows ==> rows[grants[k].id].origin == Local
    ensures OfOrigin(InsertBonus(rows, grants[k].id, RowOf(grants[k])), Local)
         == GrantRows(grants[..if k < known then known else k + 1])
  {
    var e := grants[k];
    if k < known {
      GrantRowsHold(grants[..known]);
      assert e in grants[..known];
      assert e.id in OfOrigin(rows, Local);
    } else {
      LaterGrantUnknown(grants, k, k);
      assert e.id in rows ==> e.id in OfOrigin(rows, Local);
      LocalRowAdded(rows, e);
      assert grants[..k + 1][..k] == grants[..k];
    }
  }

  /** Redelivered events are no-ops; new ones extend the server's prefix. */
  lemma {:induction false} EventsExtend(rows: BonusTable, grants: seq<Event>, known: nat, from: nat, end: nat)
    requires Distinct(grants)
    requires forall e :: e in grants && e.id in rows ==> rows[e.id].origin == Local
    requires forall e :: e in grants ==> e.origin == Local
    requires from <= known <= |grants| && from <= end <= |grants|
    requires OfOrigin(rows, Local) == GrantRows(grants[..known])
    ensures OfOrigin(InsertEvents(rows, grants[from..end]), Local)
         == GrantRows(grants[..if end > known then end else known])
    decreases end
  {
    hide GrantRows, OfOrigin, InsertBonus;
    if from < end {
      var k := end - 1;
      assert grants[from..end][..|grants[from..end]| - 1] == grants[from..k];
      EventsExtend(rows, grants, known, from, k);
      InsertedLocal(rows, grants, from, k, grants[k].id);
      EventExtends(InsertEvents(rows, grants[from..k]), grants, if k > known then k else known, k);
    } else {
      assert grants[from..end] == [];
    }
  }

  lemma InsertedLocal(rows: BonusTable, grants: seq<Event>, from: nat, end: nat, id: Id)
    requires from <= end <= |grants|
    requires forall e :: e in grants ==> e.origin == Local
    requires id in rows ==> rows[id].origin == Local
    ensures var after := InsertEvents(rows, grants[from..end]); id in after ==> after[id].origin == Local
  {
    EventsInserted(rows, grants[from..end]);
  }

  lemma CreditsKeepLocal(rows: BonusTable, credits: seq<CommandRow>, date: Date)
    ensures OfOrigin(InsertCredits(rows, credits, date), Local) == OfOrigin(rows, Local)
  {
    CreditsInserted(rows, credits, date);
    assert OfOrigin(InsertCredits(rows, credits, date), Local) == OfOrigin(rows, Local);
  }

  lemma CreditsAreNotGrants(s: State, date: Date)
    requires CreditInv(s)
    ensures var credited := InsertCredits(s.server.bonus, QueuedCredits(s.server.commands, s.server.bonus), date);
      forall e :: e in s.history.grants && e.id in credited ==> credited[e.id].origin == Local
  {
    var queued := QueuedCredits(s.server.commands, s.server.bonus);
    CreditsInserted(s.server.bonus, queued, date);
    forall c | c in queued
      ensures c.id in s.history.credits
    {
      assert SoundCommand(s.history, s.disk.bonus, c);
    }
  }

  lemma HeardRows(s: State, env: Envelope)
    requires CreditInv(s) && Ledger(s) && Slice(s.history.grants, env, Acked(s)) && env.req.secondsUsed >= 0
    ensures OfOrigin(Absorb(s.server, env.req).bonus, Local)
         == GrantRows(s.history.grants[..if End(env) > s.history.known then End(env) else s.history.known])
  {
    var queued := QueuedCredits(s.server.commands, s.server.bonus);
    CreditsKeepLocal(s.server.bonus, queued, env.req.date);
    CreditsAreNotGrants(s, env.req.date);
    EventsExtend(InsertCredits(s.server.bonus, queued, env.req.date),
                 s.history.grants, s.history.known, env.from, End(env));
  }

  lemma {:induction false} HeardLedger(s: State, env: Envelope)
    requires CreditInv(s) && LocalInv(s) && env in s.history.sent && env.req.secondsUsed >= 0
    ensures Ledger(Heard(s, env))
  {
    assert Slice(s.history.grants, env, Acked(s));
    HeardRows(s, env);
    var s' := Heard(s, env);
    assert s'.disk == s.disk && s'.history.grants == s.history.grants;
  }

  lemma {:induction false} HeardKeeps(s: State, env: Envelope)
    requires CreditInv(s) && LocalInv(s) && env in s.history.sent && env.req.secondsUsed >= 0
    ensures LocalInv(Heard(s, env))
  {
    HeardLedger(s, env);
    var s' := Heard(s, env);
    assert Slice(s.history.grants, env, Acked(s));
    forall e | e in s'.history.sent
      ensures Slice(s'.history.grants, e, Acked(s'))
    {
      assert Slice(s.history.grants, e, Acked(s));
    }
  }

  lemma {:induction false} DeliverKeeps(s: State)
    requires CreditInv(s) && LocalInv(s)
    requires forall env :: env in s.history.sent ==> env.req.secondsUsed >= 0
    ensures LocalInv(AfterDeliver(s))
  {
    if s.exchange.Sent? && Receive(s.server, s.exchange.env.req).Success? {
      var resp := DeliverFrame(s);
      HeardKeeps(s, s.exchange.env);
    }
  }

  /** Acknowledging the oldest pending event removes exactly it. */
  lemma {:induction false} AcknowledgeOldest(pending: seq<Event>)
    requires pending != [] && Distinct(pending)
    ensures WithoutId(pending, pending[0].id) == pending[1..]
  {
    NothingWithout(pending[1..], pending[0].id);
  }

  lemma {:induction false} NothingWithout(pending: seq<Event>, id: Id)
    requires forall e :: e in pending ==> e.id != id
    ensures WithoutId(pending, id) == pending
  {
    if pending != [] {
      NothingWithout(pending[1..], id);
    }
  }

  lemma QueueAcknowledged(grants: seq<Event>, pending: seq<Event>, known: nat, e: Event)
    requires Distinct(grants) && Queue(grants, pending, known) && known <= |grants|
    requires pending != [] && pending[0] == e && |grants| - |pending| < known
    ensures WithoutId(pending, e.id) == pending[1..]
    ensures Queue(grants, pending[1..], known)
  {
    var acked := |grants| - |pending|;
    DistinctSlices(grants, acked);
    hide Distinct;
    AcknowledgeOldest(pending);
    assert pending[1..] == grants[acked + 1..];
  }

  lemma {:induction false} AckPhaseKeeps(s: State, env: Envelope, resp: Response, excess: int, k: nat)
    requires LocalInv(s) && s.exchange == Applying(env, resp, excess, Acking(k))
    requires ApplyPhase(s.disk, env.req, resp, Acking(k)).Success?
    ensures var r := ApplyPhase(s.disk, env.req, resp, Acking(k)).value;
      LocalInv(s.(disk := r.0, exchange := Applying(env, resp, excess, r.1)))
  {
    hide GrantRows, Distinct;
    assert Slice(s.history.grants, env, Acked(s));
    if k < |resp.acknowledgedEvents| {
      assert s.disk.pending[0] == s.history.grants[env.from + k] == env.req.events[k];
      QueueAcknowledged(s.history.grants, s.disk.pending, s.history.known, env.req.events[k]);
      FurtherSlices(s);
    }
  }

  /** What was sent still starts where nothing is pending once more is acknowledged. */
  lemma FurtherSlices(s: State)
    requires forall e :: e in s.history.sent ==> Slice(s.history.grants, e, Acked(s))
    ensures forall e :: e in s.history.sent ==> Slice(s.history.grants, e, Acked(s) + 1)
  {
    forall e | e in s.history.sent
      ensures Slice(s.history.grants, e, Acked(s) + 1)
    {
      assert Slice(s.history.grants, e, Acked(s));
    }
  }

  /** Commands in an answer only ever add web rows. */
  lemma CommandKeepsLocal(disk: Disk, c: Command, revision: int, date: Date)
    requires ApplyCommand(disk, c, revision, date).Success?
    ensures var d := ApplyCommand(disk, c, revision, date).value;
      OfOrigin(d.bonus, Local) == OfOrigin(disk.bonus, Local) && d.pending == disk.pending
  {
    var d := ApplyCommand(disk, c, revision, date).value;
    assert OfOrigin(d.bonus, Local) == OfOrigin(disk.bonus, Local);
  }

  lemma OtherPhaseKeeps(s: State, env: Envelope, resp: Response, excess: int, phase: Phase)
    requires LocalInv(s) && s.exchange == Applying(env, resp, excess, phase) && !phase.Acking? && !phase.Done?
    requires ApplyPhase(s.disk, env.req, resp, phase).Success?
    ensures var r := ApplyPhase(s.disk, env.req, resp, phase).value;
      LocalInv(s.(disk := r.0, exchange := Applying(env, resp, excess, r.1)))
  {
    var r := ApplyPhase(s.disk, env.req, resp, phase).value;
    PhaseFrame(s.disk, env.req, resp, phase);
    if phase.Commanding? && phase.next < |resp.commands| {
      CommandKeepsLocal(s.disk, resp.commands[phase.next], resp.control.revision, env.req.date);
    }
    assert !r.1.Acking?;
    var moved := s.(exchange := Applying(env, resp, excess, r.1));
    SameSlices(s, moved);
    SameLedger(moved, moved.(disk := r.0));
  }

  lemma ApplyKeeps(s: State)
    requires LocalInv(s)
    ensures LocalInv(AfterApply(s))
  {
    hide ApplyPhase, Slice, Distinct, GrantRows, Queue;
    SameSlices(s, AfterApply(s).(disk := s.disk));
    if s.exchange.Applying? && !s.exchange.phase.Done? {
      var env, resp, excess, phase := s.exchange.env, s.exchange.resp, s.exchange.excess, s.exchange.phase;
      if ApplyPhase(s.disk, env.req, resp, phase).Success? {
        var r := ApplyPhase(s.disk, env.req, resp, phase).value;
        if phase.Acking? {
          AckPhaseKeeps(s, env, resp, excess, phase.next);
        } else {
          OtherPhaseKeeps(s, env, resp, excess, phase);
        }
        SameLedger(s.(disk := r.0, exchange := Applying(env, resp, excess, r.1)), AfterApply(s));
      }
    }
  }

  lemma SameSlices(s: State, s': State)
    requires LocalInv(s)
    requires s'.history.sent == s.history.sent && s'.history.grants == s.history.grants
    requires s'.disk.pending == s.disk.pending
    ensures forall env :: env in s'.history.sent ==> Slice(s'.history.grants, env, Acked(s'))
  {
    forall e | e in s.history.sent
      ensures Slice(s'.history.grants, e, Acked(s'))
    {
      assert Slice(s.history.grants, e, Acked(s));
    }
  }

  /** The invariant reads the queue, the grants, and the local rows. */
  lemma SameLedger(s: State, s': State)
    requires LocalInv(s)
    requires s'.exchange == s.exchange && s'.disk.pending == s.disk.pending
    requires s'.history.grants == s.history.grants && s'.history.known == s.history.known
    requires s'.history.sent == s.history.sent
    requires OfOrigin(s'.disk.bonus, Local) == OfOrigin(s.disk.bonus, Local)
    requires OfOrigin(s'.server.bonus, Local) == OfOrigin(s.server.bonus, Local)
    ensures LocalInv(s')
  {
    SameSlices(s, s');
  }

  lemma AbandonKeeps(s: State)
    requires LocalInv(s)
    ensures LocalInv(Failed(s)) && LocalInv(AfterCrash(s))
  {
    SameSlices(s, Failed(s));
    SameSlices(s, AfterCrash(s));
  }

  lemma AdminKeeps(s: State, l: Label)
    requires LocalInv(s) && (l.Admin? || l.QueueCredit? || l.QueueOrder?)
    ensures LocalInv(Next(s, l))
  {
    hide LocalInv;
    match l
    case Admin(op) =>
      AdminRevision(s.server, op);
      SameLedger(s, AfterChange(s, op));
    case QueueCredit(id, seconds) => SameLedger(s, AfterQueueCredit(s, id, seconds));
    case QueueOrder(id, kind) => SameLedger(s, AfterQueueOrder(s, id, kind));
  }

  lemma CycleKeeps(s: State, now: int, sessions: seq<Session>)
    requires LocalInv(s)
    ensures LocalInv(AfterCycle(s, now, sessions))
  {
    CycleFrame(s, now, sessions);
    SameLedger(s, AfterCycle(s, now, sessions));
  }

  lemma {:induction false} LocalStep(s: State, l: Label)
    requires CreditInv(s) && LocalInv(s)
    requires forall env :: env in s.history.sent ==> env.req.secondsUsed >= 0
    ensures LocalInv(Next(s, l))
  {
    hide LocalInv, CreditInv;
    AbandonKeeps(s);
    match l
    case Admin(_) => AdminKeeps(s, l);
    case QueueCredit(_, _) => AdminKeeps(s, l);
    case QueueOrder(_, _) => AdminKeeps(s, l);
    case Grant(id, date, seconds) => GrantKeeps(s, id, date, seconds);
    case Cycle(now, sessions) => CycleKeeps(s, now, sessions);
    case Build(date) => BuildKeeps(s, date);
    case Deliver => DeliverKeeps(s);
    case Stray(env) =>
      if env in s.history.sent { HeardKeeps(s, env); }
    case LoseRequest =>
    case LoseAnswer =>
    case Apply => ApplyKeeps(s);
    case Crash =>
  }
}
