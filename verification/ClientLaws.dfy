/**
  Which answers the client accepts, what an accepted one leaves in the agent's
  tables, and what a request tells the server.
*/
module ClientLaws {
  import opened Wrappers
  import opened Records
  import opened AgentTables
  import opened Accounting
  import opened AccountingLaws
  import opened ServerTables
  import opened Heartbeat

  // ------------------------------------------------------------- the transactions

  /** The queue without the acknowledged events, in its order. */
  lemma {:induction false} EventsAcknowledged(disk: Disk, req: Request, resp: Response, k: nat) returns (d: Disk)
    requires k <= |resp.acknowledgedEvents| && "" !in resp.acknowledgedEvents[k..]
    ensures ApplyAll(disk, req, resp, Acking(k)) == ApplyAll(d, req, resp, Forgetting)
    ensures d == disk.(pending := d.pending)
    ensures forall e :: e in d.pending <==> e in disk.pending && e.id !in resp.acknowledgedEvents[k..]
    decreases |resp.acknowledgedEvents| - k
  {
    var ids := resp.acknowledgedEvents;
    if k == |ids| {
      d := disk;
    } else {
      assert ids[k..] == [ids[k]] + ids[k + 1..];
      var once := disk.(pending := WithoutId(disk.pending, ids[k]));
      assert ApplyAll(disk, req, resp, Acking(k)) == ApplyAll(once, req, resp, Acking(k + 1));
      d := EventsAcknowledged(once, req, resp, k + 1);
    }
  }

  lemma {:induction false} EventRefused(disk: Disk, req: Request, resp: Response, k: nat)
    requires k <= |resp.acknowledgedEvents| && "" in resp.acknowledgedEvents[k..]
    ensures !ApplyAll(disk, req, resp, Acking(k)).1
    decreases |resp.acknowledgedEvents| - k
  {
    var ids := resp.acknowledgedEvents;
    assert ids[k..] == [ids[k]] + ids[k + 1..];
    if ids[k] != "" {
      EventRefused(disk.(pending := WithoutId(disk.pending, ids[k])), req, resp, k + 1);
    }
  }

  /** A command the client can carry out: a control needs a revision, a credit seconds. */
  predicate Executable(c: Command, controlRevision: int) {
    c.id != "" && if c.kind == AddBonus then c.seconds > 0 else controlRevision > 0
  }

  lemma {:induction false} CommandsAccepted(disk: Disk, req: Request, resp: Response, k: nat)
    requires k <= |resp.commands|
    ensures ApplyAll(disk, req, resp, Commanding(k)).1
        <==> forall j :: k <= j < |resp.commands| ==> Executable(resp.commands[j], resp.control.revision)
    decreases |resp.commands| - k
  {
    if k < |resp.commands| && Executable(resp.commands[k], resp.control.revision) {
      var taken := ApplyCommand(disk, resp.commands[k], resp.control.revision, req.date);
      assert taken.Success?;
      assert ApplyAll(disk, req, resp, Commanding(k)) == ApplyAll(taken.value, req, resp, Commanding(k + 1));
      CommandsAccepted(taken.value, req, resp, k + 1);
    }
  }

  predicate CreditAt(commands: seq<Command>, j: nat, id: Id) {
    j < |commands| && commands[j].id == id && commands[j].kind == AddBonus
  }

  predicate ControlAt(commands: seq<Command>, j: nat) {
    j < |commands| && commands[j].kind != AddBonus
  }

  ghost predicate HasCredit(commands: seq<Command>, first: nat, id: Id) {
    exists j: nat :: first <= j && CreditAt(commands, j, id)
  }

  /** What the commands from a position on leave: the rows there were, a row for each
      credit not applied before, and the acknowledgements of all of them. */
  ghost predicate CreditsInstalled(disk: Disk, d: Disk, req: Request, resp: Response, first: nat) {
    && d == disk.(staged := d.staged, applied := d.applied, bonus := d.bonus)
    && (forall id :: id in disk.bonus ==> id in d.bonus && d.bonus[id] == disk.bonus[id])
    && (forall id :: id in d.applied <==> id in disk.applied || HasCredit(resp.commands, first, id))
    && (forall id :: id in d.bonus && id !in disk.bonus ==>
          && id !in disk.applied && d.bonus[id].origin == Web && d.bonus[id].date == req.date
          && exists j: nat :: first <= j && CreditAt(resp.commands, j, id)
                              && resp.commands[j].seconds == d.bonus[id].seconds)
    && (forall id :: HasCredit(resp.commands, first, id) && id !in disk.applied ==> id in d.bonus)
  }

  lemma {:induction false} CommandsTake(disk: Disk, req: Request, resp: Response, first: nat)
    requires first <= |resp.commands| && ApplyAll(disk, req, resp, Commanding(first)).1
    ensures CreditsInstalled(disk, ApplyAll(disk, req, resp, Commanding(first)).0, req, resp, first)
    decreases |resp.commands| - first
  {
    if first < |resp.commands| {
      var c := resp.commands[first];
      var taken := ApplyCommand(disk, c, resp.control.revision, req.date).value;
      assert ApplyAll(disk, req, resp, Commanding(first)) == ApplyAll(taken, req, resp, Commanding(first + 1));
      CommandsTake(taken, req, resp, first + 1);
      CreditsFrom(resp.commands, first);
      OneMoreTaken(disk, taken, ApplyAll(disk, req, resp, Commanding(first)).0, req, resp, first);
    }
  }

  lemma CreditsFrom(commands: seq<Command>, first: nat)
    requires first < |commands|
    ensures forall id :: HasCredit(commands, first, id) <==>
      CreditAt(commands, first, id) || HasCredit(commands, first + 1, id)
  {
  }

  lemma {:induction false} OneMoreTaken(disk: Disk, taken: Disk, d: Disk, req: Request, resp: Response, first: nat)
    requires first < |resp.commands|
    requires ApplyCommand(disk, resp.commands[first], resp.control.revision, req.date) == Success(taken)
    requires CreditsInstalled(taken, d, req, resp, first + 1)
    requires forall id :: HasCredit(resp.commands, first, id) <==>
      CreditAt(resp.commands, first, id) || HasCredit(resp.commands, first + 1, id)
    ensures CreditsInstalled(disk, d, req, resp, first)
  {
    hide HasCredit;
    var c := resp.commands[first];
    if c.kind == AddBonus {
      assert CreditAt(resp.commands, first, c.id);
    }
  }

  /** The staged control is the last one among the commands, with the answer's revision. */
  lemma {:induction false} LastControlStaged(disk: Disk, req: Request, resp: Response, first: nat)
    requires first <= |resp.commands| && ApplyAll(disk, req, resp, Commanding(first)).1
    ensures var d := ApplyAll(disk, req, resp, Commanding(first)).0;
      && ((forall j: nat :: first <= j ==> !ControlAt(resp.commands, j)) ==> d.staged == disk.staged)
      && (forall j: nat :: first <= j && ControlAt(resp.commands, j)
                           && (forall i: nat :: j < i ==> !ControlAt(resp.commands, i)) ==>
            d.staged == Some(Effect(resp.commands[j].id, resp.control.revision, resp.commands[j].kind)))
    decreases |resp.commands| - first
  {
    if first < |resp.commands| {
      var c := resp.commands[first];
      var taken := ApplyCommand(disk, c, resp.control.revision, req.date).value;
      assert ApplyAll(disk, req, resp, Commanding(first)) == ApplyAll(taken, req, resp, Commanding(first + 1));
      assert ControlAt(resp.commands, first) <==> c.kind != AddBonus;
      LastControlStaged(taken, req, resp, first + 1);
    }
  }

  // -------------------------------------------------------------- the whole answer

  /** The policy of an answer is not older than the stored one, and well formed. */
  predicate PolicyUsable(disk: Disk, resp: Response) {
    resp.policy.Some? ==>
      ValidPolicy(resp.policy.value) && (disk.policy.Some? ==> disk.policy.value.revision <= resp.policy.value.revision)
  }

  /** The balance of an answer is there if it was asked for or if a newer policy came
      for the session in front, and it is for that session, that date and no older
      revision. */
  predicate BalanceUsable(req: Request, resp: Response) {
    if resp.sessionState.None? then
      && !req.requestSessionState
      && (resp.policy.Some? && req.sessionActive ==> resp.policy.value.revision <= req.sessionStateRevision)
    else
      var state := resp.sessionState.value;
      && req.sessionActive && state.sessionId == req.sessionId && state.date == req.date
      && state.revision >= 0 && state.remaining >= 0 && state.usage >= 0
      && (resp.policy.Some? ==> state.revision >= resp.policy.value.revision)
      && 1 <= |state.sessionId| <= 128
  }

  /** The answer's policy if it is newer than the stored one, which else stays. */
  function NewerPolicy(disk: Disk, resp: Response): Option<PolicyRow> {
    if resp.policy.None? then disk.policy
    else if disk.policy.None? || disk.policy.value.revision < resp.policy.value.revision then resp.policy
    else disk.policy
  }

  /** The tables between the acknowledgements and the commands of an answer. */
  ghost predicate StateInstalled(disk: Disk, d: Disk, resp: Response) {
    && d == disk.(applied := d.applied, policy := d.policy, anchor := d.anchor, usage := d.usage)
    && (forall id :: id in d.applied <==> id in disk.applied && id !in resp.acknowledgedCommands)
    && d.policy == NewerPolicy(disk, resp)
    && (resp.sessionState.None? ==> d.anchor == disk.anchor && d.usage == disk.usage)
    && (resp.sessionState.Some? ==>
          var state := resp.sessionState.value;
          && d.anchor == Some(Anchor(state.revision, state.sessionId, state.date,
                                     state.remaining + TotalBonus(PendingLocal(disk), state.date), state.usage))
          && forall date :: UsageOn(d.usage, date)
               == if date == state.date then Larger(UsageOn(disk.usage, date), state.usage)
                  else UsageOn(disk.usage, date))
  }

  lemma {:induction false} StateApplied(disk: Disk, req: Request, resp: Response) returns (d: Disk)
    ensures var usable := "" !in resp.acknowledgedCommands && PolicyUsable(disk, resp) && BalanceUsable(req, resp);
      && (usable ==> ApplyAll(disk, req, resp, Forgetting) == ApplyAll(d, req, resp, Commanding(0)))
      && (usable ==> StateInstalled(disk, d, resp))
      && (!usable ==> !ApplyAll(disk, req, resp, Forgetting).1)
  {
    d := disk.(applied := WithoutIds(disk.applied, resp.acknowledgedCommands));
    if "" !in resp.acknowledgedCommands {
      assert ApplyAll(disk, req, resp, Forgetting) == ApplyAll(d, req, resp, Replacing);
      var forgot := d;
      d := PolicyApplied(forgot, req, resp);
      if PolicyUsable(disk, resp) {
        var replaced := d;
        d := BalanceApplied(replaced, req, resp);
        assert PendingLocal(replaced) == PendingLocal(disk);
      }
    }
  }

  lemma {:induction false} PolicyApplied(disk: Disk, req: Request, resp: Response) returns (d: Disk)
    ensures PolicyUsable(disk, resp) ==>
      && ApplyAll(disk, req, resp, Replacing) == ApplyAll(d, req, resp, Anchoring)
      && d == disk.(policy := NewerPolicy(disk, resp))
    ensures !PolicyUsable(disk, resp) ==> !ApplyAll(disk, req, resp, Replacing).1
  {
    d := disk;
    if PolicyUsable(disk, resp) {
      d := disk.(policy := NewerPolicy(disk, resp));
      assert ApplyPhase(disk, req, resp, Replacing) == Success((d, Anchoring));
    }
  }

  lemma {:induction false} BalanceApplied(disk: Disk, req: Request, resp: Response) returns (d: Disk)
    ensures BalanceUsable(req, resp) ==>
      && ApplyAll(disk, req, resp, Anchoring) == ApplyAll(d, req, resp, Commanding(0))
      && d == disk.(anchor := d.anchor, usage := d.usage)
      && (resp.sessionState.None? ==> d == disk)
      && (resp.sessionState.Some? ==>
            var state := resp.sessionState.value;
            && d.anchor == Some(Anchor(state.revision, state.sessionId, state.date,
                                       state.remaining + TotalBonus(PendingLocal(disk), state.date), state.usage))
            && d.usage == Checkpoint(disk.usage, state.date, state.usage))
    ensures !BalanceUsable(req, resp) ==> !ApplyAll(disk, req, resp, Anchoring).1
  {
    d := disk;
    if BalanceUsable(req, resp) && resp.sessionState.Some? {
      d := SaveAnchor(disk, AnchorOf(resp.sessionState.value)).value;
    }
  }

  /** The client accepts an answer exactly if nothing in it is unnamed, policy and
      balance are usable, and every command can be carried out. */
  lemma {:induction false} AnswerAccepted(disk: Disk, req: Request, resp: Response)
    ensures ApplyAll(disk, req, resp, Acking(0)).1 <==>
      && "" !in resp.acknowledgedEvents && "" !in resp.acknowledgedCommands
      && PolicyUsable(disk, resp) && BalanceUsable(req, resp)
      && forall j :: 0 <= j < |resp.commands| ==> Executable(resp.commands[j], resp.control.revision)
  {
    hide ApplyAll;
    assert resp.acknowledgedEvents[0..] == resp.acknowledgedEvents;
    if "" in resp.acknowledgedEvents {
      EventRefused(disk, req, resp, 0);
    } else {
      var acked := EventsAcknowledged(disk, req, resp, 0);
      var d := StateApplied(acked, req, resp);
      CommandsAccepted(d, req, resp, 0);
    }
  }

  /** What an accepted answer leaves: the queue without the acknowledged events; the
      newer policy; the confirmed balance raised by the local bonuses still waiting; a
      row for every credit; the last control staged; and as acknowledgeable what was not
      received yet, with the credits of the answer. */
  lemma {:induction false} AnswerInstalled(disk: Disk, req: Request, resp: Response) returns (before: Disk)
    requires ApplyAll(disk, req, resp, Acking(0)).1
    ensures ApplyAll(disk, req, resp, Acking(0)) == ApplyAll(before, req, resp, Commanding(0))
    ensures var d := ApplyAll(disk, req, resp, Acking(0)).0;
      && (forall e :: e in d.pending <==> e in disk.pending && e.id !in resp.acknowledgedEvents)
      && StateInstalled(disk.(pending := d.pending), before, resp)
      && CreditsInstalled(before, d, req, resp, 0)
      && ((forall j: nat :: !ControlAt(resp.commands, j)) ==> d.staged == disk.staged)
      && (forall j: nat :: ControlAt(resp.commands, j) && (forall i: nat :: j < i ==> !ControlAt(resp.commands, i)) ==>
            d.staged == Some(Effect(resp.commands[j].id, resp.control.revision, resp.commands[j].kind)))
  {
    hide ApplyAll, HasCredit, ControlAt;
    assert resp.acknowledgedEvents[0..] == resp.acknowledgedEvents;
    AnswerAccepted(disk, req, resp);
    var acked := EventsAcknowledged(disk, req, resp, 0);
    before := StateApplied(acked, req, resp);
    CommandsTake(before, req, resp, 0);
    LastControlStaged(before, req, resp, 0);
  }

  // ----------------------------------------------------------- the agent's own writes

  /** A local bonus is stored with its row, an upload event at the end of the queue, and
      its seconds on the anchor of its date; storing it again changes nothing. */
  lemma GrantStored(disk: Disk, e: Event)
    ensures var r := InsertGrant(disk, e);
      && (r.Success? <==> e.id != "" && e.kind != "" && e.seconds > 0)
      && (r.Success? && e.id !in disk.bonus && (forall p :: p in disk.pending ==> p.id != e.id) ==>
            && r.value.bonus == disk.bonus[e.id := BonusRow(e.date, e.seconds, e.origin)]
            && r.value.pending == disk.pending + [e]
            && (disk.anchor.Some? && disk.anchor.value.date == e.date ==>
                  r.value.anchor == Some(disk.anchor.value.(remaining := disk.anchor.value.remaining + e.seconds)))
            && (disk.anchor.Some? && disk.anchor.value.date != e.date ==> r.value.anchor == disk.anchor)
            && (disk.anchor.None? ==> r.value.anchor.None?)
            && r.value == disk.(bonus := r.value.bonus, pending := r.value.pending, anchor := r.value.anchor))
      && (r.Success? && e.id in disk.bonus && (exists p :: p in disk.pending && p.id == e.id) ==> r.value == disk)
  {
  }

  /** Completing a control makes it acknowledgeable only while it is the staged one. */
  lemma EffectCompleted(disk: Disk, id: Id)
    ensures var r := CompleteEffect(disk, id);
      && (r.Success? <==> id != "")
      && (r.Success? && (disk.staged.None? || disk.staged.value.commandId != id) ==> r.value == disk)
      && (r.Success? && disk.staged.Some? && disk.staged.value.commandId == id ==>
            && r.value == disk.(staged := None, applied := r.value.applied)
            && forall x :: x in r.value.applied <==> x in disk.applied || x == id)
  {
  }

  // ------------------------------------------------------------------- the request

  /** What a request says: the revisions held, the durable usage of its date, the session
      last reported, the oldest hundred events and the newest hundred acknowledgements;
      it asks for a balance if the one held is not the session's, of that date and of the
      policy held. */
  lemma RequestMeaning(disk: Disk, memory: Memory, date: Date)
    ensures var req := BuildRequest(disk, memory, date);
      && req.policyRevision == (if disk.policy.Some? then disk.policy.value.revision else 0)
      && req.controlRevision == memory.control.revision
      && req.sessionStateRevision == (if disk.anchor.Some? then disk.anchor.value.revision else 0)
      && req.date == date && req.secondsUsed == UsageOn(disk.usage, date)
      && req.sessionActive == memory.session.active && req.sessionId == memory.session.id
      && req.sessionLocked == memory.session.locked
      && |req.events| == Smaller(|disk.pending|, 100) && req.events == disk.pending[..|req.events|]
      && |req.acks| == Smaller(|disk.applied|, 100) && req.acks == disk.applied[|disk.applied| - |req.acks|..]
      && (req.requestSessionState <==>
            && memory.session.active
            && (disk.anchor.None? || disk.anchor.value.sessionId != memory.session.id
                || disk.anchor.value.date != date || disk.anchor.value.revision < req.policyRevision))
  {
  }

  function Smaller(a: nat, b: nat): nat {
    if a < b then a else b
  }
}
