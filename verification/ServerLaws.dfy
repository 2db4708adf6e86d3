/**
  What the server's operations store and answer, in terms of their arguments and the
  tables before them.
*/
module ServerLaws {
  import opened Wrappers
  import opened Calendar
  import opened Schedule
  import opened Policy
  import opened Records
  import opened AgentTables
  import opened ServerTables
  import opened AdminLaws
  import opened AccountingLaws

  /** A change of the policy leaves the other tables alone and advances the revision
      the device row carries along with it. */
  predicate PolicyChanged(before: Server, after: Server) {
    && after.control == before.control && after.commands == before.commands
    && after.bonus == before.bonus && after.usage == before.usage
    && after.policy.revision == before.policy.revision + 1
    && after.deviceRevision == before.deviceRevision + 1
  }

  // -------------------------------------------------------- administrator's changes

  /** Seven quotas of at most a day and a warning of at most two hours are stored. */
  lemma QuotasStored(s: Server, quota: WeeklyQuota, warningMinutes: int)
    ensures var r := SaveQuotas(s, quota, warningMinutes);
      && (r.Success? <==> (forall q :: q in quota ==> 0 <= q <= 86_400) && 0 <= warningMinutes <= 120)
      && (r.Success? ==>
            && PolicyChanged(s, r.value)
            && r.value.policy.quota == quota && r.value.policy.warningMinutes == warningMinutes
            && r.value.policy.verifier == s.policy.verifier && r.value.policy.routines == s.policy.routines)
  {
  }

  /** A routine is stored exactly if it is well formed, known when edited, and at no
      instant active together with another one; it takes the place of its old row. */
  lemma {:induction false} RoutineStored(s: Server, r: StoredRoutine, isNew: bool)
    requires forall x :: x in s.policy.routines ==> StoredInDay(x)
    ensures var saved := SaveRoutine(s, r, isNew);
      && (saved.Success? <==>
            && r.id != "" && 1 <= |r.name| <= 80
            && 0 <= r.startSecond < 86_400 && 0 <= r.endSecond < 86_400 && (exists d: nat :: d < 7 && r.days[d])
            && (isNew || exists x :: x in s.policy.routines && x.id == r.id)
            && forall x, t :: x in s.policy.routines && x.id != r.id ==> !SharesInstant(r, x, t))
      && (saved.Success? ==>
            && PolicyChanged(s, saved.value)
            && (forall x :: x in saved.value.policy.routines <==>
                  x == r || (x in s.policy.routines && x.id != r.id))
            && saved.value.policy.quota == s.policy.quota
            && saved.value.policy.warningMinutes == s.policy.warningMinutes
            && saved.value.policy.verifier == s.policy.verifier)
  {
    hide RoutinesOverlap, SharesInstant;
    if StoredInDay(r) {
      forall x | x in s.policy.routines
        ensures RoutinesOverlap(r, x) <==> exists t :: SharesInstant(r, x, t)
      {
        OverlapIffSharedInstant(r, x);
      }
    }
  }

  /** A refused routine is named after one that it would share an instant with. */
  lemma {:induction false} ConflictNamed(s: Server, r: StoredRoutine, isNew: bool)
    requires forall x :: x in s.policy.routines ==> StoredInDay(x)
    requires SaveRoutine(s, r, isNew).Failure? && SaveRoutine(s, r, isNew).error.RoutineConflict?
    ensures exists x, t :: x in s.policy.routines && x.id != r.id && SharesInstant(r, x, t)
                           && SaveRoutine(s, r, isNew).error == RoutineConflict(x.name)
  {
    hide RoutinesOverlap, SharesInstant;
    var x :| x in s.policy.routines && x.id != r.id && RoutinesOverlap(r, x)
             && x.name == FirstConflict(s.policy.routines, r).value;
    OverlapIffSharedInstant(r, x);
  }

  lemma RoutineDeleted(s: Server, id: Id)
    ensures var r := DeleteRoutine(s, id);
      && (r.Success? <==> exists x :: x in s.policy.routines && x.id == id)
      && (r.Success? ==>
            && PolicyChanged(s, r.value)
            && (forall x :: x in r.value.policy.routines <==> x in s.policy.routines && x.id != id)
            && r.value.policy.quota == s.policy.quota
            && r.value.policy.warningMinutes == s.policy.warningMinutes
            && r.value.policy.verifier == s.policy.verifier)
  {
  }

  lemma PasswordStored(s: Server, verifier: string)
    ensures var r := SetLocalPassword(s, verifier);
      && (r.Success? <==> verifier != "")
      && (r.Success? ==>
            && PolicyChanged(s, r.value) && r.value.policy.verifier == verifier
            && r.value.policy.quota == s.policy.quota && r.value.policy.routines == s.policy.routines
            && r.value.policy.warningMinutes == s.policy.warningMinutes)
  {
  }

  /** A credit of up to a day becomes the youngest command, at the next revision; its
      row comes with a heartbeat. */
  lemma CreditQueued(s: Server, seconds: int, id: Id)
    ensures var r := QueueRemoteBonus(s, seconds, id);
      && (r.Success? <==> 1 <= seconds <= 86_400)
      && (r.Success? ==>
            && r.value.commands == s.commands + [CommandRow(id, AddBonus, seconds, false)]
            && r.value.bonus == s.bonus && r.value.usage == s.usage && r.value.control == s.control
            && r.value.policy == s.policy.(revision := s.policy.revision + 1)
            && r.value.deviceRevision == s.deviceRevision + 1)
  {
  }

  // ------------------------------------------------------------------- a heartbeat

  /** What the server refuses, whatever state it is in. */
  lemma {:induction false} HeartbeatRefused(s: Server, req: Request)
    ensures Receive(s, req).Failure? <==>
      || req.policyRevision < 0 || req.controlRevision < 0 || req.sessionStateRevision < 0
      || req.secondsUsed < 0 || req.secondsUsed > 48 * 3600
      || (req.sessionActive && !ValidOpaqueIdentifier(req.sessionId))
      || (!req.sessionActive && (req.sessionId != "" || req.requestSessionState || req.sessionLocked))
      || |req.events| > 100 || |req.acks| > 100
      || req.policyRevision > s.deviceRevision || req.sessionStateRevision > s.deviceRevision
      || (exists e :: e in req.events &&
            !(&& ValidOpaqueIdentifier(e.id) && e.kind == "bonus_added"
              && 0 < e.seconds <= 12 * 3600 && e.origin == Local))
      || (exists a :: a in req.acks && !ValidOpaqueIdentifier(a))
    ensures Receive(s, req).Failure? && Receive(s, req).error.RevisionAhead? ==>
      Receive(s, req).error == RevisionAhead(Larger(req.policyRevision, req.sessionStateRevision), s.deviceRevision)
  {
  }

  predicate WaitingCredit(c: CommandRow) {
    c.kind == AddBonus && !c.acknowledged
  }

  /** What an accepted heartbeat stores: the usage of its date unless the server knows
      more, a row of that date for every waiting credit, a row for every event, and the
      acknowledgements; nothing that was there changes otherwise. */
  lemma {:induction false} HeartbeatStored(s: Server, req: Request)
    requires Receive(s, req).Success?
    ensures var after := Receive(s, req).value.0;
      && (forall d :: UsageOn(after.usage, d)
            == if d == req.date then Larger(UsageOn(s.usage, d), req.secondsUsed) else UsageOn(s.usage, d))
      && (forall id :: id in s.bonus ==> id in after.bonus && after.bonus[id] == s.bonus[id])
      && (forall c :: c in s.commands && WaitingCredit(c) ==> c.id in after.bonus)
      && (forall e :: e in req.events ==> e.id in after.bonus)
      && (forall id :: id in after.bonus && id !in s.bonus ==> NewRow(s, req, id, after.bonus[id]))
      && after.policy == s.policy && after.control == s.control && after.deviceRevision == s.deviceRevision
    ensures var after := Receive(s, req).value.0;
      && (forall c :: c in s.commands && c.id !in req.acks ==> c in after.commands)
      && (forall c :: c in s.commands && c.id in req.acks && c.kind == AddBonus ==>
            c.(acknowledged := true) in after.commands)
      && (forall c :: c in after.commands ==>
            (c in s.commands && c.id !in req.acks)
            || (c.id in req.acks && c.kind == AddBonus && c.acknowledged
                && (c in s.commands || c.(acknowledged := false) in s.commands)))
  {
    var credits := QueuedCredits(s.commands, s.bonus);
    CreditsInserted(s.bonus, credits, req.date);
    EventsInserted(InsertCredits(s.bonus, credits, req.date), req.events);
    AllAcknowledged(s.commands, req.acks);
  }

  /** A new row is that of a waiting credit, dated as reported, or that of an event. */
  predicate NewRow(s: Server, req: Request, id: Id, row: BonusRow) {
    || (exists c :: c in s.commands && WaitingCredit(c) && c.id == id && row == BonusRow(req.date, c.seconds, Web))
    || (exists e :: e in req.events && e.id == id && row == BonusRow(e.date, e.seconds, e.origin))
  }

  /** What an accepted heartbeat answers, besides the commands. */
  lemma {:induction false} HeartbeatAnswered(s: Server, req: Request)
    requires Receive(s, req).Success?
    ensures var after, resp := Receive(s, req).value.0, Receive(s, req).value.1;
      && |resp.acknowledgedEvents| == |req.events|
      && (forall k :: 0 <= k < |req.events| ==> resp.acknowledgedEvents[k] == req.events[k].id)
      && resp.acknowledgedCommands == req.acks && resp.control == s.control
      && resp.policy == (if req.policyRevision < s.deviceRevision then Some(s.policy) else None)
      && (resp.sessionState.Some? <==>
            req.sessionActive && (req.requestSessionState || req.sessionStateRevision < s.deviceRevision))
      && (resp.sessionState.Some? ==>
            var state := resp.sessionState.value;
            && state.revision == s.policy.revision && state.sessionId == req.sessionId && state.date == req.date
            && state.usage == UsageOn(after.usage, req.date)
            && state.remaining
               == Larger(0, s.policy.quota[req.date % 7] + TotalBonus(after.bonus, req.date) - state.usage))
  {
  }

  /** The commands answered are the oldest hundred that wait, in their order: `at` says
      where in the table they stand. */
  lemma {:induction false} OldestOffered(s: Server, req: Request) returns (at: seq<nat>)
    requires Receive(s, req).Success?
    ensures var rows, commands := Receive(s, req).value.0.commands, Receive(s, req).value.1.commands;
      && |at| == |commands| <= 100
      && (forall k :: 0 <= k < |at| ==>
            && at[k] < |rows| && !rows[at[k]].acknowledged
            && commands[k] == Command(rows[at[k]].id, rows[at[k]].kind, rows[at[k]].seconds))
      && (forall j, k :: 0 <= j < k < |at| ==> at[j] < at[k])
      && (forall p :: 0 <= p < |rows| && !rows[p].acknowledged && p !in at ==>
            |at| == 100 && forall k :: 0 <= k < |at| ==> at[k] < p)
  {
    hide Receive, WaitingFrom;
    var after, resp := Receive(s, req).value.0, Receive(s, req).value.1;
    AnswersOffer(s, req);
    WaitingHolds(after.commands);
    at := First(WaitingFrom(after.commands, 0), 100);
    OldestOfAll(after.commands, at);
    forall k | 0 <= k < |at|
      ensures at[k] == WaitingFrom(after.commands, 0)[k]
      ensures First(Unacknowledged(after.commands), 100)[k] == Unacknowledged(after.commands)[k]
    {
    }
  }

  lemma AnswersOffer(s: Server, req: Request)
    requires Receive(s, req).Success?
    ensures Receive(s, req).value.1.commands == Offered(Receive(s, req).value.0)
  {
  }

  /** The positions of the unacknowledged commands, from one on. */
  function WaitingFrom(rows: seq<CommandRow>, first: nat): seq<nat>
    requires first <= |rows|
    decreases |rows| - first
  {
    if first == |rows| then []
    else (if rows[first].acknowledged then [] else [first]) + WaitingFrom(rows, first + 1)
  }

  lemma {:induction false} WaitingUnfolds(rows: seq<CommandRow>, first: nat)
    requires first < |rows|
    ensures WaitingFrom(rows, first)
         == (if rows[first].acknowledged then [] else [first]) + WaitingFrom(rows, first + 1)
    ensures Unacknowledged(rows[first..])
         == (if rows[first].acknowledged then [] else [rows[first]]) + Unacknowledged(rows[first + 1..])
  {
    assert rows[first..][0] == rows[first] && rows[first..][1..] == rows[first + 1..];
  }

  lemma {:induction false} WaitingCount(rows: seq<CommandRow>, first: nat)
    requires first <= |rows|
    ensures |WaitingFrom(rows, first)| == |Unacknowledged(rows[first..])|
    decreases |rows| - first
  {
    if first < |rows| {
      hide WaitingFrom, Unacknowledged;
      WaitingUnfolds(rows, first);
      WaitingCount(rows, first + 1);
    }
  }

  lemma {:induction false} WaitingEntry(rows: seq<CommandRow>, first: nat, k: nat)
    requires first <= |rows| && k < |WaitingFrom(rows, first)|
    ensures |WaitingFrom(rows, first)| == |Unacknowledged(rows[first..])|
    ensures var p := WaitingFrom(rows, first)[k];
      first <= p < |rows| && rows[p] == Unacknowledged(rows[first..])[k] && !rows[p].acknowledged
    ensures k > 0 ==> WaitingFrom(rows, first)[k - 1] < WaitingFrom(rows, first)[k]
    decreases |rows| - first
  {
    WaitingCount(rows, first);
    assert first < |rows|;
    hide WaitingFrom, Unacknowledged;
    WaitingUnfolds(rows, first);
    if rows[first].acknowledged {
      WaitingEntry(rows, first + 1, k);
    } else if k > 0 {
      WaitingEntry(rows, first + 1, k - 1);
    }
  }

  lemma {:induction false} WaitingOrder(rows: seq<CommandRow>, j: nat, k: nat)
    requires j < k < |WaitingFrom(rows, 0)|
    ensures WaitingFrom(rows, 0)[j] < WaitingFrom(rows, 0)[k]
    decreases k
  {
    hide WaitingFrom;
    WaitingEntry(rows, 0, k);
    if j < k - 1 {
      WaitingOrder(rows, j, k - 1);
    }
  }

  lemma {:induction false} WaitingHolds(rows: seq<CommandRow>)
    ensures var at, waiting := WaitingFrom(rows, 0), Unacknowledged(rows);
      && |at| == |waiting|
      && (forall k :: 0 <= k < |at| ==>
            0 <= at[k] < |rows| && rows[at[k]] == waiting[k] && !rows[at[k]].acknowledged)
      && (forall j, k :: 0 <= j < k < |at| ==> at[j] < at[k])
  {
    hide WaitingFrom, Unacknowledged;
    assert rows[0..] == rows;
    WaitingCount(rows, 0);
    var at, waiting := WaitingFrom(rows, 0), Unacknowledged(rows);
    forall k | 0 <= k < |at|
      ensures 0 <= at[k] < |rows| && rows[at[k]] == waiting[k] && !rows[at[k]].acknowledged
    {
      WaitingEntry(rows, 0, k);
    }
    forall j, k | 0 <= j < k < |at|
      ensures at[j] < at[k]
    {
      WaitingOrder(rows, j, k);
    }
  }

  lemma {:induction false} WaitingComplete(rows: seq<CommandRow>, first: nat, p: nat)
    requires first <= p < |rows| && !rows[p].acknowledged
    ensures p in WaitingFrom(rows, first)
    decreases p - first
  {
    if first < p {
      WaitingComplete(rows, first + 1, p);
    }
  }

  /** What the first hundred leave out comes after them. */
  lemma {:induction false} OldestOfAll(rows: seq<CommandRow>, at: seq<nat>)
    requires at == First(WaitingFrom(rows, 0), 100)
    ensures forall p :: 0 <= p < |rows| && !rows[p].acknowledged && p !in at ==>
      |at| == 100 && forall k :: 0 <= k < |at| ==> at[k] < p
  {
    hide WaitingFrom;
    WaitingHolds(rows);
    var all := WaitingFrom(rows, 0);
    assert forall i :: 0 <= i < |at| ==> all[i] == at[i] && at[i] in at;
    forall p | 0 <= p < |rows| && !rows[p].acknowledged && p !in at
      ensures |at| == 100 && forall k :: 0 <= k < |at| ==> at[k] < p
    {
      WaitingComplete(rows, 0, p);
      var k :| 0 <= k < |all| && all[k] == p;
    }
  }
}
