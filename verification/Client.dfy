/**
  The synchronization client: it applies an answer to the store transaction by
  transaction, and keeps the control flags of the last successful heartbeat.
*/
module Client {
  import opened Wrappers
  import opened Records
  import opened AgentTables
  import opened AgentStore
  import opened ServerTables
  import opened Accounting
  import opened Heartbeat

  class Client {
    const store: Store
    var session: SessionView
    var control: RemoteControl

    function Volatile(): Memory
      reads this
    {
      Memory(session, control)
    }

    constructor (store: Store)
      ensures this.store == store && Volatile() == FreshMemory
    {
      this.store := store;
      session, control := NoSession, Offline;
    }

    /** An inactive session has neither identifier nor lock. */
    method SetGraphicalSession(active: bool, id: Id, locked: bool)
      modifies this`session
      ensures session == ViewOf(if active then Some(Session(id, true, locked)) else None)
    {
      session := if active then SessionView(true, id, locked) else NoSession;
    }

    method Build(date: Date) returns (req: Request)
      requires store.Valid()
      ensures req == BuildRequest(store.Contents(), Volatile(), date)
    {
      var revision := if store.policy.Some? then store.policy.value.revision else 0;
      var confirmed := store.cachedAnchor;
      var requestState := session.active && (confirmed.None?
        || confirmed.value.sessionId != session.id || confirmed.value.date != date
        || confirmed.value.revision < revision);
      req := Request(
        revision, control.revision, if confirmed.Some? then confirmed.value.revision else 0,
        date, UsageOn(store.usage, date),
        session.active, session.id, session.locked, requestState,
        First(store.pending, BATCH), Newest(store.applied, BATCH));
    }

    /** A failed attempt revokes the online authority, and nothing else. */
    method Fail()
      modifies this`control
      ensures control == Offline
    {
      control := Offline;
    }

    /** Removes the acknowledged events from the queue, one by one. */
    method AcknowledgeAll(req: Request, resp: Response) returns (ok: bool)
      requires store.Valid()
      modifies store`pending
      ensures store.Valid()
      ensures ApplyAll(old(store.Contents()), req, resp, Acking(0))
           == if ok then ApplyAll(store.Contents(), req, resp, Forgetting) else (store.Contents(), false)
    {
      ghost var goal := ApplyAll(store.Contents(), req, resp, Acking(0));
      for k := 0 to |resp.acknowledgedEvents|
        invariant store.Valid()
        invariant goal == ApplyAll(store.Contents(), req, resp, Acking(k))
      {
        var error := store.AcknowledgeEvent(resp.acknowledgedEvents[k]);
        if error.Some? {
          return false;
        }
      }
      return true;
    }

    /** Forgets received acknowledgements, then installs policy and anchor. */
    method InstallState(req: Request, resp: Response) returns (ok: bool)
      requires store.Valid()
      modifies store
      ensures store.Valid()
      ensures ApplyAll(old(store.Contents()), req, resp, Forgetting)
           == if ok then ApplyAll(store.Contents(), req, resp, Commanding(0)) else (store.Contents(), false)
    {
      ghost var goal := ApplyAll(store.Contents(), req, resp, Forgetting);
      var error := store.ForgetAppliedCommandIDs(resp.acknowledgedCommands);
      if error.Some? {
        return false;
      }
      assert goal == ApplyAll(store.Contents(), req, resp, Replacing);
      if resp.policy.Some? {
        error := store.ReplacePolicy(resp.policy.value);
        if error.Some? {
          return false;
        }
      }
      assert goal == ApplyAll(store.Contents(), req, resp, Anchoring);
      if !Coherent(req, resp) {
        return false;
      }
      if resp.sessionState.Some? {
        error := store.SaveConfirmedSessionState(AnchorOf(resp.sessionState.value));
        if error.Some? {
          return false;
        }
      }
      return true;
    }

    method RunCommands(req: Request, resp: Response) returns (ok: bool)
      requires store.Valid()
      modifies store
      ensures store.Valid()
      ensures ApplyAll(old(store.Contents()), req, resp, Commanding(0)) == (store.Contents(), ok)
    {
      ghost var goal := ApplyAll(store.Contents(), req, resp, Commanding(0));
      for k := 0 to |resp.commands|
        invariant store.Valid()
        invariant goal == ApplyAll(store.Contents(), req, resp, Commanding(k))
      {
        ok := Apply(resp.commands[k], resp.control.revision, req.date);
        if !ok {
          return false;
        }
      }
      return true;
    }

    /** Applies an answer.  Every write is a transaction of its own, so a failure
        leaves the ones before it in place. */
    method ApplyResponse(req: Request, resp: Response) returns (ok: bool)
      requires store.Valid()
      modifies this`control, store
      ensures store.Valid()
      ensures (store.Contents(), ok) == ApplyAll(old(store.Contents()), req, resp, Acking(0))
      ensures control == if ok then ControlOf(resp) else Offline
    {
      control := ControlOf(resp);
      ok := AcknowledgeAll(req, resp);
      if ok {
        ok := InstallState(req, resp);
      }
      if ok {
        ok := RunCommands(req, resp);
      }
      if !ok {
        Fail();
      }
    }

    /** One heartbeat: no answer, or a refused one, costs the online authority and
        touches no table; an answer is applied as far as it goes. */
    method Heartbeat(date: Date, exchange: Request -> Option<Response>) returns (req: Request, ok: bool)
      requires store.Valid()
      modifies this`control, store
      ensures store.Valid()
      ensures req == BuildRequest(old(store.Contents()), old(Volatile()), date)
      ensures match exchange(req)
        case None => !ok && control == Offline && store.Contents() == old(store.Contents())
        case Some(resp) =>
          && (store.Contents(), ok) == ApplyAll(old(store.Contents()), req, resp, Acking(0))
          && control == if ok then ControlOf(resp) else Offline
      ensures control.online == ok
      ensures !ok ==> !control.paused && !control.blocked
      ensures ok ==>
        var answered := exchange(req).value.control;
        control == RemoteControl(true, answered.paused, answered.blocked, answered.revision)
    {
      req := Build(date);
      var answer := exchange(req);
      if answer.None? {
        Fail();
        return req, false;
      }
      ok := ApplyResponse(req, answer.value);
    }

    method Apply(c: Command, controlRevision: int, date: Date) returns (ok: bool)
      requires store.Valid()
      modifies store
      ensures store.Valid()
      ensures ok <==> ApplyCommand(old(store.Contents()), c, controlRevision, date).Success?
      ensures store.Contents() == if ok then ApplyCommand(old(store.Contents()), c, controlRevision, date).value
                                  else old(store.Contents())
    {
      if c.id == "" {
        return false;
      }
      var error;
      if c.kind.IsControl() {
        error := store.StageControlEffect(Effect(c.id, controlRevision, c.kind));
      } else {
        if c.seconds <= 0 {
          return false;
        }
        error := store.ApplyRemoteBonus(c.id, BonusRow(date, c.seconds, Web));
      }
      return error.None?;
    }
  }
}
