/**
  Remote credits over every run: one row on each side at most, with the queued
  seconds; the server's row comes first, and an acknowledgement proves the
  agent's.
*/
module CreditInvariant {
  import opened Wrappers
  import opened Records
  import opened AgentTables
  import opened Accounting
  import opened ServerTables
  import opened AdminLaws
  import opened Heartbeat
  import opened System
  import opened PolicyInvariant

  /** Credits, orders and grants never share an identifier. */
  ghost predicate Names(h: History) {
    && h.credits.Keys !! h.orders.Keys
    && h.credits.Keys <= h.used && h.orders.Keys <= h.used
    && (forall id :: id in h.used ==> ValidOpaqueIdentifier(id))
    && (forall id :: id in h.credits ==> h.credits[id].seconds > 0)
    && (forall e :: e in h.grants ==>
          e.origin == Local && e.id in h.used && e.id !in h.credits && e.id !in h.orders)
  }

  /** A row is a credit's exactly if it is marked as coming from the web. */
  ghost predicate Rows(h: History, rows: BonusTable) {
    forall id :: id in rows ==>
      && id in h.used
      && (rows[id].origin == Web <==> id in h.credits)
      && (id in h.credits ==> rows[id].seconds == h.credits[id].seconds)
  }

  /** An acknowledged credit has a row in the agent's table. */
  ghost predicate SoundCommand(h: History, held: BonusTable, c: CommandRow) {
    if c.kind == AddBonus then
      c.id in h.credits && c.seconds == h.credits[c.id].seconds && (c.acknowledged ==> c.id in held)
    else c.id in h.orders && !c.acknowledged
  }

  predicate IsCreditRow(c: CommandRow, id: Id) {
    c.id == id && c.kind == AddBonus
  }

  ghost predicate Commands(h: History, held: BonusTable, commands: seq<CommandRow>) {
    && (forall c :: c in commands ==> SoundCommand(h, held, c))
    && (forall c, d :: c in commands && d in commands && c.id == d.id ==> c == d)
    && (forall id :: id in h.credits ==> exists c :: c in commands && IsCreditRow(c, id))
  }

  /** What an agent may report as applied: a credit it holds, or an order. */
  ghost predicate Applied(h: History, held: BonusTable, ids: seq<Id>) {
    forall id :: id in ids ==> (id in h.credits && id in held) || id in h.orders
  }

  ghost predicate Requests(h: History, held: BonusTable) {
    forall env :: env in h.sent ==>
      Applied(h, held, env.req.acks) && forall e :: e in env.req.events ==> e in h.grants
  }

  /** Every credit queued up to a revision has its row on the server. */
  ghost predicate Credited(h: History, rows: BonusTable, revision: int) {
    forall id :: id in h.credits && h.credits[id].revision <= revision ==> id in rows
  }

  ghost predicate SoundOffer(h: History, rows: BonusTable, revision: int, c: Command) {
    && ValidOpaqueIdentifier(c.id)
    && if c.kind == AddBonus then
         && c.id in h.credits && c.seconds == h.credits[c.id].seconds
         && c.id in rows && h.credits[c.id].revision <= revision
       else c.id in h.orders
  }

  function NextCommand(resp: Response, phase: Phase): nat {
    match phase
    case Commanding(k) => k
    case Done => |resp.commands|
    case _ => 0
  }

  predicate StillOffered(resp: Response, first: nat, id: Id) {
    exists k :: first <= k < |resp.commands| && resp.commands[k].id == id
  }

  /** An answer covers every credit of its revision: the agent holds it, or is
      about to take it from the answer, unless the batch was too small. */
  ghost predicate Offer(h: History, rows: BonusTable, held: BonusTable, revision: int, resp: Response, first: nat) {
    && Credited(h, rows, revision)
    && (forall c :: c in resp.commands ==> SoundOffer(h, rows, revision, c))
    && (h.backlog <= BATCH ==>
          forall id :: id in h.credits && h.credits[id].revision <= revision ==>
            id in held || StillOffered(resp, first, id))
  }

  ghost predicate Replies(s: State) {
    match s.exchange
    case Answered(env, resp, _) =>
      Offer(s.history, s.server.bonus, s.disk.bonus, ReplyRevision(env, resp), resp, 0)
    case Applying(env, resp, _, phase) =>
      Offer(s.history, s.server.bonus, s.disk.bonus, ReplyRevision(env, resp), resp, NextCommand(resp, phase))
    case _ => true
  }

  /** Where a credit's revision stands relative to the two policies. */
  ghost predicate Revisions(s: State) {
    && (forall id :: id in s.history.credits ==> 1 <= s.history.credits[id].revision <= s.server.policy.revision)
    && (forall id :: id in s.disk.bonus && id in s.history.credits ==>
          id in s.server.bonus && s.history.credits[id].revision <= PolicyRevision(s.disk))
    && (s.disk.anchor.Some? ==> Credited(s.history, s.server.bonus, s.disk.anchor.value.revision))
  }

  ghost predicate CreditInv(s: State) {
    && Names(s.history)
    && Rows(s.history, s.server.bonus)
    && Rows(s.history, s.disk.bonus)
    && Commands(s.history, s.disk.bonus, s.server.commands)
    && Applied(s.history, s.disk.bonus, s.disk.applied)
    && (s.disk.staged.Some? ==> s.disk.staged.value.commandId in s.history.orders)
    && Requests(s.history, s.disk.bonus)
    && Revisions(s)
    && Replies(s)
  }

  // ------------------------------------------------------- administrator's steps

  lemma ChangeKeeps(s: State, op: AdminOp)
    requires CreditInv(s)
    ensures CreditInv(AfterChange(s, op))
  {
    AdminRevision(s.server, op);
    var server := AfterAdmin(s.server, op);
    assert server.bonus == s.server.bonus && server.commands == s.server.commands;
    var h, h' := s.history, AfterChange(s, op).history;
    assert h' == h.(policies := h'.policies);
  }

  lemma RequestsKept(h: History, held: BonusTable, h': History, held': BonusTable)
    requires Requests(h, held) && h'.sent == h.sent
    requires h.credits.Keys <= h'.credits.Keys && h.orders.Keys <= h'.orders.Keys && held.Keys <= held'.Keys
    requires forall e :: e in h.grants ==> e in h'.grants
    ensures Requests(h', held')
  {
  }

  /** A credit queued now is of a later revision than any answer on its way. */
  lemma RepliesBeforeCredit(s: State, id: Id, seconds: int)
    requires PolicyInv(s) && Replies(s) && id !in s.history.credits
    ensures Replies(AfterQueueCredit(s, id, seconds))
  {
    hide UsageOn, Commands;
  }

  lemma CommandQueued(h: History, h': History, held: BonusTable, commands: seq<CommandRow>, id: Id, credit: Credit)
    requires Commands(h, held, commands)
    requires id !in h.credits && id !in h.orders
    requires h'.credits == h.credits[id := credit] && h'.orders == h.orders
    ensures Commands(h', held, commands + [CommandRow(id, AddBonus, credit.seconds, false)])
  {
    var row := CommandRow(id, AddBonus, credit.seconds, false);
    forall c | c in commands
      ensures SoundCommand(h', held, c) && c.id != id
    {
      assert SoundCommand(h, held, c);
    }
    forall c | c in h'.credits
      ensures exists r :: r in commands + [row] && IsCreditRow(r, c)
    {
      if c == id {
        assert row in commands + [row] && IsCreditRow(row, c);
      } else {
        var r :| r in commands && IsCreditRow(r, c);
        assert r in commands + [row];
      }
    }
  }

  /** A fresh credit leaves every row what it was, and is of a later revision than the
      agent's policy and anchor. */
  lemma NewCreditHasNoRow(s: State, s': State, id: Id)
    requires PolicyInv(s) && Revisions(s) && Names(s.history) && Fresh(s, id)
    requires Rows(s.history, s.server.bonus) && Rows(s.history, s.disk.bonus)
    requires Applied(s.history, s.disk.bonus, s.disk.applied)
    requires s'.server.bonus == s.server.bonus && s'.disk == s.disk
    requires s'.server.policy.revision == s.server.policy.revision + 1
    requires s'.history.used == s.history.used + {id}
    requires id in s'.history.credits && s'.history.credits[id].revision == s'.server.policy.revision
    requires s'.history.credits == s.history.credits[id := s'.history.credits[id]]
    requires s'.history.orders == s.history.orders
    ensures Revisions(s') && Rows(s'.history, s'.server.bonus) && Rows(s'.history, s'.disk.bonus)
    ensures Applied(s'.history, s'.disk.bonus, s'.disk.applied)
  {
    hide PolicyInv;
    AnchorBehind(s);
  }

  lemma AnchorBehind(s: State)
    requires PolicyInv(s)
    ensures AnchorRevision(s.disk) <= s.server.policy.revision && 1 <= s.server.policy.revision
  {
  }

  lemma {:induction false} QueueCreditKeeps(s: State, id: Id, seconds: int)
    requires PolicyInv(s) && CreditInv(s)
    ensures CreditInv(AfterQueueCredit(s, id, seconds))
  {
    hide Replies, Requests, Commands, Rows, Revisions, Applied, PolicyInv;
    if Fresh(s, id) && QueueRemoteBonus(s.server, seconds, id).Success? {
      var s' := AfterQueueCredit(s, id, seconds);
      NewCreditHasNoRow(s, s', id);
      CommandQueued(s.history, s'.history, s.disk.bonus, s.server.commands, id, s'.history.credits[id]);
      RequestsKept(s.history, s.disk.bonus, s'.history, s'.disk.bonus);
      RepliesBeforeCredit(s, id, seconds);
    }
  }

  lemma CommandReplaced(h: History, h': History, held: BonusTable, commands: seq<CommandRow>, id: Id, order: Order)
    requires Commands(h, held, commands) && order.kind.IsControl()
    requires id !in h.credits && id !in h.orders
    requires h'.credits == h.credits && h'.orders == h.orders[id := order]
    ensures Commands(h', held, DropPendingControls(commands) + [CommandRow(id, order.kind, 0, false)])
  {
    var row := CommandRow(id, order.kind, 0, false);
    forall c | c in commands
      ensures SoundCommand(h', held, c) && c.id != id
    {
      assert SoundCommand(h, held, c);
    }
    forall credit | credit in h'.credits
      ensures exists c :: c in DropPendingControls(commands) + [row] && IsCreditRow(c, credit)
    {
      var c :| c in commands && IsCreditRow(c, credit);
      assert c in DropPendingControls(commands) + [row];
    }
  }

  lemma {:induction false} QueueOrderKeeps(s: State, id: Id, kind: CommandKind)
    requires CreditInv(s)
    ensures CreditInv(AfterQueueOrder(s, id, kind))
  {
    hide Commands, Requests, Replies, Rows, Revisions, Applied, LatestPendingControl;
    var s' := AfterQueueOrder(s, id, kind);
    if s' != s {
      NewOrderHasNoRow(s, s', id);
      CommandReplaced(s.history, s'.history, s.disk.bonus, s.server.commands, id, s'.history.orders[id]);
      RequestsKept(s.history, s.disk.bonus, s'.history, s'.disk.bonus);
      OfferedBeforeOrder(s, s');
    }
  }

  lemma NewOrderHasNoRow(s: State, s': State, id: Id)
    requires Revisions(s) && Rows(s.history, s.server.bonus) && Rows(s.history, s.disk.bonus)
    requires Applied(s.history, s.disk.bonus, s.disk.applied)
    requires s'.server.bonus == s.server.bonus && s'.disk == s.disk && s'.server.policy == s.server.policy
    requires s'.history.used == s.history.used + {id} && s'.history.credits == s.history.credits
    requires s.history.orders.Keys <= s'.history.orders.Keys
    ensures Revisions(s') && Rows(s'.history, s'.server.bonus) && Rows(s'.history, s'.disk.bonus)
    ensures Applied(s'.history, s'.disk.bonus, s'.disk.applied)
  {
  }

  /** More orders than an answer knew of do not unsettle it. */
  lemma OfferedBeforeOrder(s: State, s': State)
    requires Replies(s) && s'.exchange == s.exchange && s'.server.bonus == s.server.bonus && s'.disk == s.disk
    requires s'.history.credits == s.history.credits && s'.history.backlog == s.history.backlog
    requires s.history.orders.Keys <= s'.history.orders.Keys
    ensures Replies(s')
  {
  }

  // --------------------------------------------------------------- agent's steps

  lemma GrantKeeps(s: State, id: Id, date: Date, seconds: int)
    requires CreditInv(s)
    ensures CreditInv(AfterGrant(s, id, date, seconds))
  {
    hide Commands, Requests, Replies;
    var s' := AfterGrant(s, id, date, seconds);
    if s' != s {
      assert s'.disk.bonus == s.disk.bonus[id := RowOf(GrantEvent(id, date, seconds))];
      RequestsKept(s.history, s.disk.bonus, s'.history, s'.disk.bonus);
      MoreHeld(s, s');
    }
  }

  /** More rows on the agent and more grants unsettle neither commands nor answers. */
  lemma MoreHeld(s: State, s': State)
    requires Commands(s.history, s.disk.bonus, s.server.commands) && Replies(s)
    requires s'.server == s.server && s'.exchange == s.exchange && s.disk.bonus.Keys <= s'.disk.bonus.Keys
    requires s'.history.credits == s.history.credits && s'.history.orders == s.history.orders
    requires s'.history.backlog == s.history.backlog
    ensures Commands(s'.history, s'.disk.bonus, s'.server.commands) && Replies(s')
  {
    forall c | c in s.server.commands
      ensures SoundCommand(s'.history, s'.disk.bonus, c)
    {
      assert SoundCommand(s.history, s.disk.bonus, c);
    }
  }

  /** A step that leaves credits and rows alone and moves at most the staged
      order into the applied commands. */
  lemma QuietStep(s: State, s': State)
    requires CreditInv(s)
    requires s'.server == s.server && s'.exchange == s.exchange
    requires s'.disk == s.disk.(usage := s'.disk.usage, staged := s'.disk.staged, applied := s'.disk.applied)
    requires s'.history == s.history.(sightings := s'.history.sightings)
    requires s'.disk.staged == s.disk.staged || s'.disk.staged == None
    requires s'.disk.applied == s.disk.applied
      || (s.disk.staged.Some? && s'.disk.applied == InsertApplied(s.disk.applied, s.disk.staged.value.commandId))
    ensures CreditInv(s')
  {
    hide Requests, Commands, Rows, Credited, Offer;
    RequestsKept(s.history, s.disk.bonus, s'.history, s'.disk.bonus);
    QuietTables(s, s');
  }

  /** Tables and answers read credits, orders and rows, not sightings. */
  lemma QuietTables(s: State, s': State)
    requires s'.server == s.server && s'.exchange == s.exchange
    requires s'.disk == s.disk.(usage := s'.disk.usage, staged := s'.disk.staged, applied := s'.disk.applied)
    requires s'.history == s.history.(sightings := s'.history.sightings)
    ensures Rows(s.history, s.server.bonus) ==> Rows(s'.history, s'.server.bonus)
    ensures Rows(s.history, s.disk.bonus) ==> Rows(s'.history, s'.disk.bonus)
    ensures Commands(s.history, s.disk.bonus, s.server.commands) ==>
      Commands(s'.history, s'.disk.bonus, s'.server.commands)
    ensures Revisions(s) ==> Revisions(s')
    ensures Replies(s) ==> Replies(s')
  {
    if Commands(s.history, s.disk.bonus, s.server.commands) {
      forall c | c in s.server.commands
        ensures SoundCommand(s'.history, s'.disk.bonus, c)
      {
        assert SoundCommand(s.history, s.disk.bonus, c);
      }
    }
  }

  lemma {:induction false} CycleKeeps(s: State, now: int, sessions: seq<Session>)
    requires CreditInv(s)
    ensures CreditInv(AfterCycle(s, now, sessions))
  {
    CycleFrame(s, now, sessions);
    QuietStep(s, AfterCycle(s, now, sessions));
  }

  lemma BuildKeeps(s: State, date: Date)
    requires CreditInv(s) && forall e :: e in s.disk.pending ==> e in s.history.grants
    ensures CreditInv(AfterBuild(s, date))
  {
  }

  // ------------------------------------------------------------- server's absorption

  /** The server's rows after it absorbed a request: old ones stay, every credit
      has one. */
  lemma AbsorbedRows(h: History, held: BonusTable, server: Server, req: Request)
    requires Names(h) && Rows(h, server.bonus) && Commands(h, held, server.commands)
    requires forall e :: e in req.events ==> e in h.grants
    requires forall id :: id in held && id in h.credits ==> id in server.bonus
    requires req.secondsUsed >= 0
    ensures var rows := Absorb(server, req).bonus;
      && Rows(h, rows)
      && (forall id :: id in server.bonus ==> id in rows && rows[id] == server.bonus[id])
      && (forall id :: id in h.credits ==> id in rows)
  {
    hide Commands, Names;
    var credited := InsertCredits(server.bonus, QueuedCredits(server.commands, server.bonus), req.date);
    CreditedRowsHold(h, held, server, req.date);
    EventsInserted(credited, req.events);
    EventRowsHold(h, credited, InsertEvents(credited, req.events), req.events);
  }

  /** After the queued credits are inserted every credit has a row, and every row is
      still a credit's or a grant's. */
  lemma CreditedRowsHold(h: History, held: BonusTable, server: Server, date: Date)
    requires Names(h) && Rows(h, server.bonus) && Commands(h, held, server.commands)
    requires forall id :: id in held && id in h.credits ==> id in server.bonus
    ensures var credited := InsertCredits(server.bonus, QueuedCredits(server.commands, server.bonus), date);
      && Rows(h, credited)
      && (forall id :: id in server.bonus ==> id in credited && credited[id] == server.bonus[id])
      && (forall id :: id in h.credits ==> id in credited)
  {
    var queued := QueuedCredits(server.commands, server.bonus);
    var credited := InsertCredits(server.bonus, queued, date);
    CreditsInserted(server.bonus, queued, date);
    forall id | id in h.credits
      ensures id in credited
    {
      var c :| c in server.commands && IsCreditRow(c, id);
      assert SoundCommand(h, held, c);
      if id !in server.bonus {
        assert c in queued;
      }
    }
    forall id | id in credited && id !in server.bonus
      ensures id in h.credits && credited[id] == BonusRow(date, h.credits[id].seconds, Web)
    {
      var c :| c in queued && c.id == id && credited[id] == BonusRow(date, c.seconds, Web);
      assert SoundCommand(h, held, c);
    }
  }

  lemma EventRowsHold(h: History, before: BonusTable, rows: BonusTable, events: seq<Event>)
    requires Names(h) && Rows(h, before) && forall e :: e in events ==> e in h.grants
    requires forall id :: id in before ==> id in rows && rows[id] == before[id]
    requires forall id :: id in rows && id !in before ==>
      exists e :: e in events && e.id == id && rows[id] == RowOf(e)
    ensures Rows(h, rows)
  {
  }

  lemma AcknowledgedCommands(h: History, held: BonusTable, commands: seq<CommandRow>, acks: seq<Id>)
    requires h.credits.Keys !! h.orders.Keys
    requires Commands(h, held, commands) && Applied(h, held, acks)
    ensures Commands(h, held, AckAll(commands, acks))
  {
    AllAcknowledged(commands, acks);
    var rest := AckAll(commands, acks);
    forall c | c in rest
      ensures SoundCommand(h, held, c)
      ensures if c.id in acks
              then c.kind == AddBonus && exists b :: b in commands && b.id == c.id && c == b.(acknowledged := true)
              else c in commands
    {
      if c.id in acks {
        var b := if c in commands then c else c.(acknowledged := false);
        assert b in commands && c == b.(acknowledged := true);
        assert SoundCommand(h, held, b);
      } else {
        assert SoundCommand(h, held, c);
      }
    }
    forall id | id in h.credits
      ensures exists c :: c in rest && IsCreditRow(c, id)
    {
      var c :| c in commands && IsCreditRow(c, id);
      var after := if id in acks then c.(acknowledged := true) else c;
      assert after in rest && IsCreditRow(after, id);
    }
  }

  lemma RepliesKept(s: State, s': State)
    requires Replies(s) && s'.exchange == s.exchange
    requires s'.history.credits == s.history.credits && s'.history.orders == s.history.orders
    requires s'.history.backlog == s.history.backlog
    requires s.server.bonus.Keys <= s'.server.bonus.Keys && s.disk.bonus.Keys <= s'.disk.bonus.Keys
    ensures Replies(s')
  {
  }

  lemma HeardKeeps(s: State, env: Envelope)
    requires PolicyInv(s) && CreditInv(s) && env in s.history.sent && env.req.secondsUsed >= 0
    ensures CreditInv(Heard(s, env))
    ensures forall id :: id in s.history.credits ==> id in Heard(s, env).server.bonus
  {
    hide Replies, Commands, Rows, PolicyInv, AckAll, InsertCredits, InsertEvents;
    var s' := Heard(s, env);
    AbsorbedRows(s.history, s.disk.bonus, s.server, env.req);
    AcknowledgedCommands(s.history, s.disk.bonus, s.server.commands, env.req.acks);
    RequestsKept(s.history, s.disk.bonus, s'.history, s'.disk.bonus);
    RepliesKept(s, s');
    HeardHistory(s.history, s'.history, s'.server.bonus, s'.disk.bonus, s'.server.commands);
  }

  /** What rows and commands mean does not depend on what was heard or completed. */
  lemma HeardHistory(h: History, h': History, rows: BonusTable, held: BonusTable, commands: seq<CommandRow>)
    requires h' == h.(known := h'.known, completed := h'.completed, backlog := h'.backlog)
    requires Rows(h, rows) && Rows(h, held) && Commands(h, held, commands)
    ensures Rows(h', rows) && Rows(h', held) && Commands(h', held, commands)
  {
    forall c | c in commands
      ensures SoundCommand(h', held, c)
    {
      assert SoundCommand(h, held, c);
    }
  }

  /** The batch the server offers covers every credit the agent does not hold. */
  lemma OfferedCovers(s: State, env: Envelope, resp: Response)
    requires CreditInv(s) && resp.commands == Offered(s.server)
    requires s.history.backlog == |Unacknowledged(s.server.commands)|
    requires forall id :: id in s.history.credits ==> id in s.server.bonus
    requires ReplyRevision(env, resp) == s.server.policy.revision
    ensures Offer(s.history, s.server.bonus, s.disk.bonus, ReplyRevision(env, resp), resp, 0)
  {
    var rows := First(Unacknowledged(s.server.commands), BATCH);
    forall c | c in resp.commands
      ensures SoundOffer(s.history, s.server.bonus, s.server.policy.revision, c)
    {
      var k :| 0 <= k < |resp.commands| && resp.commands[k] == c;
      assert rows[k] in Unacknowledged(s.server.commands);
      assert SoundCommand(s.history, s.disk.bonus, rows[k]);
    }
    if s.history.backlog <= BATCH {
      forall id | id in s.history.credits
        ensures id in s.disk.bonus || StillOffered(resp, 0, id)
      {
        var c :| c in s.server.commands && IsCreditRow(c, id);
        assert SoundCommand(s.history, s.disk.bonus, c);
        if !c.acknowledged {
          assert c in rows;
          var k :| 0 <= k < |rows| && rows[k] == c;
          assert resp.commands[k].id == id;
        }
      }
    }
  }

  lemma AnswerKeeps(heard: State, env: Envelope, resp: Response, s': State)
    requires CreditInv(heard)
    requires forall id :: id in heard.history.credits ==> id in heard.server.bonus
    requires s'.server == heard.server && s'.disk == heard.disk
    requires s'.history == heard.history.(backlog := |Unacknowledged(heard.server.commands)|)
    requires s'.exchange.Answered? && s'.exchange.env == env && s'.exchange.resp == resp
    requires resp.commands == Offered(heard.server) && ReplyRevision(env, resp) == heard.server.policy.revision
    ensures CreditInv(s')
  {
    hide Names, Rows, Commands, Applied, Requests, Credited, Offer;
    BacklogUnread(heard, s'.(exchange := Idle));
    OfferedCovers(s'.(exchange := Idle), env, resp);
  }

  /** With no answer under way the backlog is not read. */
  lemma BacklogUnread(s: State, s': State)
    requires CreditInv(s)
    requires s'.server == s.server && s'.disk == s.disk && s'.exchange.Idle?
    requires s'.history == s.history.(backlog := s'.history.backlog)
    ensures CreditInv(s')
  {
    hide Commands, Rows, Requests, Offer;
    RequestsKept(s.history, s.disk.bonus, s'.history, s'.disk.bonus);
    HeardHistory(s.history, s'.history, s.server.bonus, s.disk.bonus, s.server.commands);
  }

  lemma {:induction false} DeliverKeeps(s: State)
    requires PolicyInv(s) && CreditInv(s)
    requires forall env :: env in s.history.sent ==> env.req.secondsUsed >= 0
    ensures CreditInv(AfterDeliver(s))
  {
    if s.exchange.Sent? && Receive(s.server, s.exchange.env.req).Success? {
      var env := s.exchange.env;
      var resp := DeliverFrame(s);
      HeardKeeps(s, env);
      assert RequestRevisions(s, env);
      AnswerKeeps(Heard(s, env), env, resp, AfterDeliver(s));
    }
  }

  // ------------------------------------------------------------ applying an answer

  lemma ForgettingKeeps(h: History, held: BonusTable, applied: seq<Id>, ids: seq<Id>)
    requires Applied(h, held, applied)
    ensures Applied(h, held, WithoutIds(applied, ids))
  {
  }

  /** A command from an answer: the order is staged, the credit gets its row. */
  lemma CommandApplied(h: History, rows: BonusTable, disk: Disk, resp: Response, revision: int, date: Date, k: nat)
    requires Names(h) && Rows(h, disk.bonus) && Applied(h, disk.bonus, disk.applied)
    requires Offer(h, rows, disk.bonus, revision, resp, k)
    requires k < |resp.commands|
    requires disk.staged.Some? ==> disk.staged.value.commandId in h.orders
    requires ApplyCommand(disk, resp.commands[k], resp.control.revision, date).Success?
    ensures var d := ApplyCommand(disk, resp.commands[k], resp.control.revision, date).value;
      && Rows(h, d.bonus) && Applied(h, d.bonus, d.applied)
      && disk.bonus.Keys <= d.bonus.Keys <= disk.bonus.Keys + {resp.commands[k].id}
      && (forall id :: id in disk.bonus ==> d.bonus[id] == disk.bonus[id])
      && (d.staged.Some? ==> d.staged.value.commandId in h.orders)
      && Offer(h, rows, d.bonus, revision, resp, k + 1)
  {
    var c := resp.commands[k];
    assert SoundOffer(h, rows, revision, c);
    var d := ApplyCommand(disk, c, resp.control.revision, date).value;
    if h.backlog <= BATCH {
      forall id | id in h.credits && h.credits[id].revision <= revision
        ensures id in d.bonus || StillOffered(resp, k + 1, id)
      {
        if id !in disk.bonus {
          var j :| k <= j < |resp.commands| && resp.commands[j].id == id;
          if j == k {
            assert c.id == id;
          }
        }
      }
    }
  }

  lemma {:induction false} OtherPhaseKeeps(s: State, env: Envelope, resp: Response, excess: int, phase: Phase)
    requires PolicyInv(s) && CreditInv(s)
    requires s.exchange == Applying(env, resp, excess, phase)
    requires phase.Acking? || phase.Forgetting? || phase.Replacing? || phase.Anchoring?
    requires ApplyPhase(s.disk, env.req, resp, phase).Success?
    ensures var r := ApplyPhase(s.disk, env.req, resp, phase).value;
      CreditInv(s.(disk := r.0, exchange := Applying(env, resp, excess, r.1)))
  {
    hide Commands, Rows, Names, SoundOffer;
    var r := ApplyPhase(s.disk, env.req, resp, phase).value;
    var s' := s.(disk := r.0, exchange := Applying(env, resp, excess, r.1));
    PhaseFrame(s.disk, env.req, resp, phase);
    ForgettingKeeps(s.history, s.disk.bonus, s.disk.applied, resp.acknowledgedCommands);
    assert NextCommand(resp, r.1) == 0;
    RequestsKept(s.history, s.disk.bonus, s'.history, s'.disk.bonus);
  }

  lemma CommandsKept(h: History, held: BonusTable, held': BonusTable, commands: seq<CommandRow>)
    requires Commands(h, held, commands) && held.Keys <= held'.Keys
    ensures Commands(h, held', commands)
  {
    forall c | c in commands
      ensures SoundCommand(h, held', c)
    {
      assert SoundCommand(h, held, c);
    }
  }

  lemma CommandPhaseKeeps(s: State, env: Envelope, resp: Response, excess: int, k: nat)
    requires PolicyInv(s) && CreditInv(s)
    requires s.exchange == Applying(env, resp, excess, Commanding(k))
    requires ApplyPhase(s.disk, env.req, resp, Commanding(k)).Success?
    ensures var r := ApplyPhase(s.disk, env.req, resp, Commanding(k)).value;
      CreditInv(s.(disk := r.0, exchange := Applying(env, resp, excess, r.1)))
  {
    hide Commands, Requests, ServerPolicies, AgentPolicy;
    var r := ApplyPhase(s.disk, env.req, resp, Commanding(k)).value;
    var s' := s.(disk := r.0, exchange := Applying(env, resp, excess, r.1));
    PhaseFrame(s.disk, env.req, resp, Commanding(k));
    if k < |resp.commands| {
      assert SoundOffer(s.history, s.server.bonus, ReplyRevision(env, resp), resp.commands[k]);
      CommandApplied(s.history, s.server.bonus, s.disk, resp, ReplyRevision(env, resp), env.req.date, k);
      RequestsKept(s.history, s.disk.bonus, s'.history, s'.disk.bonus);
      CommandsKept(s.history, s.disk.bonus, s'.disk.bonus, s.server.commands);
    }
  }

  lemma ApplyKeeps(s: State)
    requires PolicyInv(s) && CreditInv(s)
    ensures CreditInv(AfterApply(s))
  {
    if s.exchange.Applying? && !s.exchange.phase.Done? {
      var env, resp, excess, phase := s.exchange.env, s.exchange.resp, s.exchange.excess, s.exchange.phase;
      if ApplyPhase(s.disk, env.req, resp, phase).Success? {
        if phase.Commanding? {
          CommandPhaseKeeps(s, env, resp, excess, phase.next);
        } else {
          OtherPhaseKeeps(s, env, resp, excess, phase);
        }
        var r := ApplyPhase(s.disk, env.req, resp, phase).value;
        SameFor(s.(disk := r.0, exchange := Applying(env, resp, excess, r.1)), AfterApply(s));
      }
    }
  }

  /** The invariant reads neither the clocks nor the clamp. */
  lemma SameFor(s: State, s': State)
    requires CreditInv(s)
    requires s'.server == s.server && s'.disk == s.disk && s'.exchange == s.exchange
    requires s'.history == s.history.(excess := s'.history.excess)
    ensures CreditInv(s')
  {
  }

  lemma AbandonKeeps(s: State)
    requires CreditInv(s)
    ensures CreditInv(Failed(s)) && CreditInv(AfterCrash(s))
  {
  }

  lemma {:induction false} CreditStep(s: State, l: Label)
    requires PolicyInv(s) && CreditInv(s)
    requires forall env :: env in s.history.sent ==> env.req.secondsUsed >= 0
    requires forall e :: e in s.disk.pending ==> e in s.history.grants
    ensures CreditInv(Next(s, l))
  {
    hide CreditInv, PolicyInv;
    AbandonKeeps(s);
    match l
    case Admin(op) => ChangeKeeps(s, op);
    case QueueCredit(id, seconds) => QueueCreditKeeps(s, id, seconds);
    case QueueOrder(id, kind) => QueueOrderKeeps(s, id, kind);
    case Grant(id, date, seconds) => GrantKeeps(s, id, date, seconds);
    case Cycle(now, sessions) => CycleKeeps(s, now, sessions);
    case Build(date) => BuildKeeps(s, date);
    case Deliver => DeliverKeeps(s);
    case Stray(env) =>
      if env in s.history.sent { HeardKeeps(s, env); }
    case LoseRequest =>
    case LoseAnswer =>
    case Apply => ApplyKeeps(s);
    case Crash =>
  }
}
