/**
  The server's store for one device: each operation reads and writes the tables
  row by row, in a transaction that commits at its end or leaves no trace.
*/
module ServerStore {
  import opened Wrappers
  import opened Calendar
  import opened Schedule
  import opened Policy
  import opened Records
  import opened ServerTables

  /** The conflict check of a routine to be saved, in row order. */
  method FindConflict(existing: seq<StoredRoutine>, r: StoredRoutine) returns (conflict: Option<string>)
    requires StoredInDay(r) && forall x :: x in existing ==> StoredInDay(x)
    ensures conflict == FirstConflict(existing, r)
  {
    for k := 0 to |existing|
      invariant FirstConflict(existing, r) == FirstConflict(existing[k..], r)
    {
      var candidate := existing[k];
      assert existing[k..][0] == candidate && existing[k..][1..] == existing[k + 1..];
      if candidate.id != r.id {
        var overlap := FindOverlap(r, candidate);
        if overlap {
          return Some(candidate.name);
        }
      }
    }
    return None;
  }

  method ApplyPendingRemoteBonuses(commands: seq<CommandRow>, bonus: BonusTable, date: Date) returns (rows: BonusTable)
    ensures rows == InsertCredits(bonus, QueuedCredits(commands, bonus), date)
  {
    var credits := QueuedCredits(commands, bonus);
    rows := bonus;
    for k := 0 to |credits|
      invariant rows == InsertCredits(bonus, credits[..k], date)
    {
      assert credits[..k + 1][..k] == credits[..k];
      if credits[k].id !in rows {
        rows := rows[credits[k].id := BonusRow(date, credits[k].seconds, Web)];
      }
    }
    assert credits[..|credits|] == credits;
  }

  /** The bonus table with the events inserted, and their identifiers; nothing if
      one of them is invalid. */
  method ReceiveEvents(bonus: BonusTable, events: seq<Event>) returns (received: Option<(BonusTable, seq<Id>)>)
    ensures received.None? <==> exists e :: e in events && !ValidEvent(e)
    ensures received.Some? ==>
      received.value == (InsertEvents(bonus, events), EventIds(events))
  {
    var rows := bonus;
    var ids: seq<Id> := [];
    for k := 0 to |events|
      invariant rows == InsertEvents(bonus, events[..k])
      invariant |ids| == k && forall j :: 0 <= j < k ==> ids[j] == events[j].id
      invariant forall e :: e in events[..k] ==> ValidEvent(e)
    {
      if !ValidEvent(events[k]) {
        assert events[k] in events;
        return None;
      }
      assert events[..k + 1][..k] == events[..k];
      if events[k].id !in rows {
        rows := rows[events[k].id := RowOf(events[k])];
      }
      ids := ids + [events[k].id];
    }
    assert events[..|events|] == events;
    assert ids == EventIds(events);
    return Some((rows, ids));
  }

  method AcknowledgeCommands(commands: seq<CommandRow>, acks: seq<Id>) returns (rest: Option<seq<CommandRow>>)
    ensures rest.None? <==> exists a :: a in acks && !ValidOpaqueIdentifier(a)
    ensures rest.Some? ==> rest.value == AckAll(commands, acks)
  {
    var remaining := commands;
    for k := 0 to |acks|
      invariant remaining == AckAll(commands, acks[..k])
      invariant forall a :: a in acks[..k] ==> ValidOpaqueIdentifier(a)
    {
      if !ValidOpaqueIdentifier(acks[k]) {
        assert acks[k] in acks;
        return None;
      }
      assert acks[..k + 1][..k] == acks[..k];
      remaining := AckOne(remaining, acks[k]);
    }
    assert acks[..|acks|] == acks;
    return Some(remaining);
  }

  class Store {
    var deviceRevision: int
    var policy: PolicyRow
    var control: Control
    var commands: seq<CommandRow>
    var bonus: BonusTable
    var usage: UsageTable

    function Contents(): Server
      reads this
    {
      Server(deviceRevision, policy, control, commands, bonus, usage)
    }

    ghost predicate Valid()
      reads this
    {
      forall r :: r in policy.routines ==> StoredInDay(r)
    }

    constructor ()
      ensures Valid() && Contents() == NewDevice
    {
      deviceRevision := 1;
      policy := PolicyRow(1, 10, "", [0, 0, 0, 0, 0, 0, 0], []);
      control := Control(1, false, false);
      commands, bonus, usage := [], map[], map[];
    }

    method BumpPolicy()
      requires Valid()
      modifies this`policy, this`deviceRevision
      ensures Valid() && Contents() == Bump(old(Contents()))
    {
      policy := policy.(revision := policy.revision + 1);
      deviceRevision := deviceRevision + 1;
    }

    method SaveQuotas(quota: WeeklyQuota, warningMinutes: int) returns (error: Option<ServerError>)
      requires Valid()
      modifies this`policy, this`deviceRevision
      ensures Valid()
      ensures match ServerTables.SaveQuotas(old(Contents()), quota, warningMinutes)
        case Success(s) => error == None && Contents() == s
        case Failure(e) => error == Some(e) && Contents() == old(Contents())
    {
      for d := 0 to 7
        invariant forall q :: q in quota[..d] ==> 0 <= q <= DAY_SECONDS
      {
        assert quota[d] in quota && quota[..d + 1] == quota[..d] + [quota[d]];
        if quota[d] < 0 || quota[d] > DAY_SECONDS {
          return Some(InvalidQuota);
        }
      }
      assert quota[..7] == quota;
      if warningMinutes < 0 || warningMinutes > MAX_WARNING_MINUTES {
        return Some(InvalidQuota);
      }
      policy := policy.(quota := quota, warningMinutes := warningMinutes);
      BumpPolicy();
      return None;
    }

    method SaveRoutine(r: StoredRoutine, isNew: bool) returns (error: Option<ServerError>)
      requires Valid()
      modifies this`policy, this`deviceRevision
      ensures Valid()
      ensures match ServerTables.SaveRoutine(old(Contents()), r, isNew)
        case Success(s) => error == None && Contents() == s
        case Failure(e) => error == Some(e) && Contents() == old(Contents())
    {
      if !AcceptableRoutine(r) {
        return Some(InvalidRoutine);
      }
      if !isNew && r.id !in RoutineIds(policy.routines) {
        return Some(NotFound);
      }
      var conflict := FindConflict(policy.routines, r);
      if conflict.Some? {
        return Some(RoutineConflict(conflict.value));
      }
      policy := policy.(routines := Upsert(policy.routines, r));
      BumpPolicy();
      return None;
    }

    method DeleteRoutine(id: Id) returns (error: Option<ServerError>)
      requires Valid()
      modifies this`policy, this`deviceRevision
      ensures Valid()
      ensures match ServerTables.DeleteRoutine(old(Contents()), id)
        case Success(s) => error == None && Contents() == s
        case Failure(e) => error == Some(e) && Contents() == old(Contents())
    {
      if id !in RoutineIds(policy.routines) {
        return Some(NotFound);
      }
      policy := policy.(routines := Without(policy.routines, id));
      BumpPolicy();
      return None;
    }

    method SetLocalPassword(verifier: string) returns (error: Option<ServerError>)
      requires Valid()
      modifies this`policy, this`deviceRevision
      ensures Valid()
      ensures match ServerTables.SetLocalPassword(old(Contents()), verifier)
        case Success(s) => error == None && Contents() == s
        case Failure(e) => error == Some(e) && Contents() == old(Contents())
    {
      if verifier == "" {
        return Some(InvalidPassword);
      }
      policy := policy.(verifier := verifier);
      BumpPolicy();
      return None;
    }

    method QueueControlOperation(kind: CommandKind, newId: Id) returns (result: Result<Id, ServerError>)
      requires Valid()
      modifies this`control, this`commands
      ensures Valid()
      ensures match ServerTables.QueueControl(old(Contents()), kind, newId)
        case Success(r) => result == Success(r.1) && Contents() == r.0
        case Failure(e) => result == Failure(e) && Contents() == old(Contents())
    {
      if !kind.IsControl() {
        return Failure(InvalidControl);
      }
      var pending := LatestPendingControl(commands);
      if pending.Some? && pending.value.kind == kind {
        return Success(pending.value.id);
      }
      commands := DropPendingControls(commands);
      match kind {
        case PauseMonitoring => control := Control(control.revision + 1, true, false);
        case ResumeMonitoring => control := Control(control.revision + 1, false, false);
        case BlockNow => control := Control(control.revision + 1, false, true);
        case ClearManualBlock => control := Control(control.revision + 1, false, false);
      }
      commands := commands + [CommandRow(newId, kind, 0, false)];
      return Success(newId);
    }

    method QueueRemoteBonus(seconds: int, newId: Id) returns (error: Option<ServerError>)
      requires Valid()
      modifies this`policy, this`deviceRevision, this`commands
      ensures Valid()
      ensures match ServerTables.QueueRemoteBonus(old(Contents()), seconds, newId)
        case Success(s) => error == None && Contents() == s
        case Failure(e) => error == Some(e) && Contents() == old(Contents())
    {
      if seconds <= 0 || seconds > MAX_REMOTE_BONUS {
        return Some(InvalidBonus);
      }
      BumpPolicy();
      commands := commands + [CommandRow(newId, AddBonus, seconds, false)];
      return None;
    }

    /** The whole heartbeat.  Validation, revision check and writes follow the order of
        the server's transaction; the fields change only once everything has been accepted. */
    method ReceiveHeartbeat(req: Request) returns (result: Result<Response, ServerError>)
      requires Valid()
      modifies this`usage, this`bonus, this`commands
      ensures Valid()
      ensures match ServerTables.Receive(old(Contents()), req)
        case Success(r) => Contents() == r.0 && result == Success(r.1)
        case Failure(e) => Contents() == old(Contents()) && result == Failure(e)
    {
      var error := CheckRequest(Contents(), req);
      if error.Some? {
        return Failure(error.value);
      }
      var credited := ApplyPendingRemoteBonuses(commands, bonus, req.date);
      var received := ReceiveEvents(credited, req.events);
      if received.None? {
        return Failure(InvalidEvent);
      }
      var acknowledged := AcknowledgeCommands(commands, req.acks);
      if acknowledged.None? {
        return Failure(InvalidAcknowledgement);
      }
      usage := Checkpoint(usage, req.date, req.secondsUsed);
      bonus := received.value.0;
      commands := acknowledged.value;

      var sentPolicy := if req.policyRevision < deviceRevision then Some(policy) else None;
      var sessionState := None;
      if req.sessionActive && (req.requestSessionState || req.sessionStateRevision < deviceRevision) {
        var state := ConfirmedSessionState(req.sessionId, req.date);
        sessionState := Some(state);
      }
      return Success(Response(received.value.1, req.acks, sentPolicy, sessionState, Offered(Contents()), control));
    }

    method ConfirmedSessionState(sessionId: Id, date: Date) returns (state: SessionState)
      ensures state == ConfirmedState(Contents(), sessionId, date)
    {
      var total := SumRows(Dated(bonus, date));
      var used := if date in usage then usage[date] else 0;
      var remaining := policy.quota[WeekdayOfDate(date)] + total - used;
      if remaining < 0 {
        remaining := 0;
      }
      return SessionState(policy.revision, sessionId, date, remaining, used);
    }

    method UnacknowledgedRemoteBonusSeconds(date: Date) returns (seconds: int)
      ensures seconds == TotalBonus(UnacknowledgedBonus(Contents()), date)
    {
      seconds := SumRows(Dated(UnacknowledgedBonus(Contents()), date));
    }

    /** The bonus and remaining time of the administrator's live view. */
    method LoadDeviceLiveStatus(date: Date) returns (bonusSeconds: int, remainingSeconds: int)
      ensures bonusSeconds == DisplayedBonus(Contents(), date)
      ensures remainingSeconds == DisplayedRemaining(Contents(), date)
    {
      bonusSeconds := SumRows(Dated(bonus, date));
      var unacknowledged := UnacknowledgedRemoteBonusSeconds(date);
      bonusSeconds := bonusSeconds - unacknowledged;
      if bonusSeconds < 0 {
        bonusSeconds := 0;
      }
      remainingSeconds := policy.quota[WeekdayOfDate(date)] + bonusSeconds - UsageOn(usage, date);
      if remainingSeconds < 0 {
        remainingSeconds := 0;
      }
    }
  }
}
