/**
  The server's tables for one device and what each operation does to them.
*/
module ServerTables {
  import opened Wrappers
  import opened Calendar
  import opened Schedule
  import opened Policy
  import opened Records
  import opened AgentTables

  datatype CommandRow = CommandRow(id: Id, kind: CommandKind, seconds: int, acknowledged: bool)

  /** `deviceRevision` is the copy of the policy revision the device row carries. */
  datatype Server = Server(
    deviceRevision: int,
    policy: PolicyRow,
    control: Control,
    commands: seq<CommandRow>,
    bonus: BonusTable,
    usage: UsageTable)

  const NewDevice: Server := Server(
    1, PolicyRow(1, 10, "", [0, 0, 0, 0, 0, 0, 0], []), Control(1, false, false), [], map[], map[])

  datatype ServerError =
    | InvalidQuota
    | InvalidRoutine
    | RoutineConflict(name: string)
    | NotFound
    | InvalidPassword
    | InvalidBonus
    | InvalidControl
    | InvalidCounters
    | InvalidSession
    | BatchTooLarge
    | RevisionAhead(client: int, server: int)
    | InvalidEvent
    | InvalidAcknowledgement

  // ------------------------------------------------------------------ policy

  const MAX_WARNING_MINUTES: int := 120
  const MAX_NAME_LENGTH: int := 80

  function Bump(s: Server): Server {
    s.(policy := s.policy.(revision := s.policy.revision + 1), deviceRevision := s.deviceRevision + 1)
  }

  function SaveQuotas(s: Server, quota: WeeklyQuota, warningMinutes: int): Result<Server, ServerError> {
    if (exists q :: q in quota && (q < 0 || q > DAY_SECONDS))
       || warningMinutes < 0 || warningMinutes > MAX_WARNING_MINUTES
    then Failure(InvalidQuota)
    else Success(Bump(s.(policy := s.policy.(quota := quota, warningMinutes := warningMinutes))))
  }

  predicate AcceptableRoutine(r: StoredRoutine) {
    && r.id != "" && 0 < |r.name| <= MAX_NAME_LENGTH && StoredInDay(r)
    && exists d: nat :: d < 7 && r.days[d]
  }

  function RoutineIds(rows: seq<StoredRoutine>): set<Id> {
    set r | r in rows :: r.id
  }

  /** The rows with this identifier replaced, or the new row appended. */
  function Upsert(rows: seq<StoredRoutine>, r: StoredRoutine): (after: seq<StoredRoutine>)
    ensures forall x :: x in after <==> x == r || (x in rows && x.id != r.id)
  {
    if rows == [] then [r]
    else if rows[0].id == r.id then [r] + Without(rows[1..], r.id)
    else [rows[0]] + Upsert(rows[1..], r)
  }

  function Without(rows: seq<StoredRoutine>, id: Id): (after: seq<StoredRoutine>)
    ensures forall x :: x in after <==> x in rows && x.id != id
  {
    if rows == [] then []
    else if rows[0].id == id then Without(rows[1..], id)
    else [rows[0]] + Without(rows[1..], id)
  }

  /** The first stored routine, in row order, that another one would overlap. */
  function FirstConflict(rows: seq<StoredRoutine>, r: StoredRoutine): (found: Option<string>)
    ensures found.None? <==> forall x :: x in rows && x.id != r.id ==> !RoutinesOverlap(r, x)
    ensures found.Some? ==>
      exists x :: x in rows && x.id != r.id && RoutinesOverlap(r, x) && x.name == found.value
  {
    if rows == [] then None
    else if rows[0].id != r.id && RoutinesOverlap(r, rows[0]) then Some(rows[0].name)
    else FirstConflict(rows[1..], r)
  }

  /** `isNew` tells a freshly identified routine from an edit of a stored one. */
  function SaveRoutine(s: Server, r: StoredRoutine, isNew: bool): Result<Server, ServerError> {
    if !AcceptableRoutine(r) then Failure(InvalidRoutine)
    else if !isNew && r.id !in RoutineIds(s.policy.routines) then Failure(NotFound)
    else if FirstConflict(s.policy.routines, r).Some? then
      Failure(RoutineConflict(FirstConflict(s.policy.routines, r).value))
    else Success(Bump(s.(policy := s.policy.(routines := Upsert(s.policy.routines, r)))))
  }

  function DeleteRoutine(s: Server, id: Id): Result<Server, ServerError> {
    if id !in RoutineIds(s.policy.routines) then Failure(NotFound)
    else Success(Bump(s.(policy := s.policy.(routines := Without(s.policy.routines, id)))))
  }

  function SetLocalPassword(s: Server, verifier: string): Result<Server, ServerError> {
    if verifier == "" then Failure(InvalidPassword)
    else Success(Bump(s.(policy := s.policy.(verifier := verifier))))
  }

  // ---------------------------------------------------------------- commands

  const MAX_REMOTE_BONUS: int := 24 * 3600

  predicate Pending(c: CommandRow) {
    !c.acknowledged
  }

  predicate PendingControl(c: CommandRow) {
    !c.acknowledged && c.kind.IsControl()
  }

  /** The most recently created control command still unacknowledged. */
  function LatestPendingControl(commands: seq<CommandRow>): (found: Option<CommandRow>)
    ensures found.Some? ==> found.value in commands && PendingControl(found.value)
    ensures found.None? ==> forall c :: c in commands ==> !PendingControl(c)
  {
    if commands == [] then None
    else if PendingControl(commands[|commands| - 1]) then Some(commands[|commands| - 1])
    else LatestPendingControl(commands[..|commands| - 1])
  }

  function DropPendingControls(commands: seq<CommandRow>): (rest: seq<CommandRow>)
    ensures forall c :: c in rest <==> c in commands && !PendingControl(c)
  {
    if commands == [] then []
    else if PendingControl(commands[0]) then DropPendingControls(commands[1..])
    else [commands[0]] + DropPendingControls(commands[1..])
  }

  function ControlAfter(control: Control, kind: CommandKind): Control {
    Control(control.revision + 1, kind.PauseMonitoring?, kind.BlockNow?)
  }

  /** The state after a control request, and the identifier that follows it. */
  function QueueControl(s: Server, kind: CommandKind, newId: Id): Result<(Server, Id), ServerError> {
    if !kind.IsControl() then Failure(InvalidControl) else
    var latest := LatestPendingControl(s.commands);
    if latest.Some? && latest.value.kind == kind then Success((s, latest.value.id))
    else Success((s.(
      control := ControlAfter(s.control, kind),
      commands := DropPendingControls(s.commands) + [CommandRow(newId, kind, 0, false)]), newId))
  }

  function QueueRemoteBonus(s: Server, seconds: int, newId: Id): Result<Server, ServerError> {
    if seconds <= 0 || seconds > MAX_REMOTE_BONUS then Failure(InvalidBonus)
    else Success(Bump(s).(commands := s.commands + [CommandRow(newId, AddBonus, seconds, false)]))
  }

  // --------------------------------------------------------------- heartbeat

  const MAX_DAILY_USAGE: int := 48 * 3600
  const MAX_LOCAL_BONUS: int := 12 * 3600
  const BATCH: nat := 100

  function CheckRequest(s: Server, req: Request): Option<ServerError> {
    if req.policyRevision < 0 || req.controlRevision < 0 || req.sessionStateRevision < 0
       || req.secondsUsed < 0 || req.secondsUsed > MAX_DAILY_USAGE then Some(InvalidCounters)
    else if req.sessionActive && !ValidOpaqueIdentifier(req.sessionId) then Some(InvalidSession)
    else if !req.sessionActive && (req.sessionId != "" || req.requestSessionState) then Some(InvalidSession)
    else if req.sessionLocked && !req.sessionActive then Some(InvalidSession)
    else if |req.events| > BATCH || |req.acks| > BATCH then Some(BatchTooLarge)
    else if req.policyRevision > s.deviceRevision || req.sessionStateRevision > s.deviceRevision then
      Some(RevisionAhead(
        if req.sessionStateRevision > req.policyRevision then req.sessionStateRevision else req.policyRevision,
        s.deviceRevision))
    else None
  }

  predicate ValidEvent(e: Event) {
    && ValidOpaqueIdentifier(e.id) && e.kind == "bonus_added"
    && 0 < e.seconds <= MAX_LOCAL_BONUS && e.origin == Local
  }

  /** Unacknowledged credits that have no bonus row yet. */
  function QueuedCredits(commands: seq<CommandRow>, bonus: BonusTable): (credits: seq<CommandRow>)
    ensures forall c :: c in credits <==> c in commands && c.kind == AddBonus && Pending(c) && c.id !in bonus
  {
    if commands == [] then []
    else if commands[0].kind == AddBonus && Pending(commands[0]) && commands[0].id !in bonus then
      [commands[0]] + QueuedCredits(commands[1..], bonus)
    else QueuedCredits(commands[1..], bonus)
  }

  function InsertCredits(bonus: BonusTable, credits: seq<CommandRow>, date: Date): BonusTable {
    if credits == [] then bonus else
      var last := credits[|credits| - 1];
      InsertBonus(InsertCredits(bonus, credits[..|credits| - 1], date), last.id, BonusRow(date, last.seconds, Web))
  }

  /** Existing rows stay; every credit has a row; a new row is a credit's. */
  lemma {:induction false} CreditsInserted(bonus: BonusTable, credits: seq<CommandRow>, date: Date)
    ensures var rows := InsertCredits(bonus, credits, date);
      && (forall id :: id in bonus ==> id in rows && rows[id] == bonus[id])
      && (forall c :: c in credits ==> c.id in rows)
      && (forall id :: id in rows && id !in bonus ==>
            exists c :: c in credits && c.id == id && rows[id] == BonusRow(date, c.seconds, Web))
  {
    if credits != [] {
      var front := credits[..|credits| - 1];
      CreditsInserted(bonus, front, date);
      assert credits == front + [credits[|credits| - 1]];
    }
  }

  function InsertEvents(bonus: BonusTable, events: seq<Event>): BonusTable {
    if events == [] then bonus else
      var last := events[|events| - 1];
      InsertBonus(InsertEvents(bonus, events[..|events| - 1]), last.id, RowOf(last))
  }

  /** Existing rows stay; every event has a row; a new row is an event's. */
  lemma {:induction false} EventsInserted(bonus: BonusTable, events: seq<Event>)
    ensures var rows := InsertEvents(bonus, events);
      && (forall id :: id in bonus ==> id in rows && rows[id] == bonus[id])
      && (forall e :: e in events ==> e.id in rows)
      && (forall id :: id in rows && id !in bonus ==> exists e :: e in events && e.id == id && rows[id] == RowOf(e))
  {
    if events != [] {
      var front := events[..|events| - 1];
      EventsInserted(bonus, front);
      assert events == front + [events[|events| - 1]];
    }
  }

  /** UPDATE and DELETE for one acknowledged identifier. */
  function AckOne(commands: seq<CommandRow>, id: Id): (rest: seq<CommandRow>)
    ensures forall c :: c in commands && c.id != id ==> c in rest
    ensures forall c :: c in commands && c.id == id && c.kind == AddBonus ==> c.(acknowledged := true) in rest
    ensures forall c :: c in rest ==>
      (c in commands && c.id != id)
      || (c.id == id && c.kind == AddBonus && c.acknowledged
          && (c in commands || c.(acknowledged := false) in commands))
  {
    if commands == [] then []
    else if commands[0].id != id then [commands[0]] + AckOne(commands[1..], id)
    else if commands[0].kind.IsControl() then AckOne(commands[1..], id)
    else [commands[0].(acknowledged := true)] + AckOne(commands[1..], id)
  }

  function AckAll(commands: seq<CommandRow>, acks: seq<Id>): seq<CommandRow> {
    if acks == [] then commands
    else AckOne(AckAll(commands, acks[..|acks| - 1]), acks[|acks| - 1])
  }

  /** An acknowledgement marks a credit and removes a control; nothing else moves. */
  lemma {:induction false} AllAcknowledged(commands: seq<CommandRow>, acks: seq<Id>)
    ensures var rest := AckAll(commands, acks);
      && (forall c :: c in commands && c.id !in acks ==> c in rest)
      && (forall c :: c in commands && c.id in acks && c.kind == AddBonus ==> c.(acknowledged := true) in rest)
      && (forall c :: c in rest ==>
            (c in commands && c.id !in acks)
            || (c.id in acks && c.kind == AddBonus && c.acknowledged
                && (c in commands || c.(acknowledged := false) in commands)))
  {
    if acks != [] {
      var front, last := acks[..|acks| - 1], acks[|acks| - 1];
      AllAcknowledged(commands, front);
      assert acks == front + [last];
      var before := AckAll(commands, front);
      forall c | c in commands && c.id in acks && c.kind == AddBonus
        ensures c.(acknowledged := true) in AckOne(before, last)
      {
        if c.id in front {
          assert c.(acknowledged := true) in before;
        } else {
          assert c in before;
        }
      }
    }
  }

  function Unacknowledged(commands: seq<CommandRow>): (rows: seq<CommandRow>)
    ensures forall c :: c in rows <==> c in commands && Pending(c)
    ensures |rows| <= |commands|
  {
    if commands == [] then []
    else if Pending(commands[0]) then [commands[0]] + Unacknowledged(commands[1..])
    else Unacknowledged(commands[1..])
  }

  lemma {:induction false} AckOneShrinks(commands: seq<CommandRow>, id: Id)
    ensures |Unacknowledged(AckOne(commands, id))| <= |Unacknowledged(commands)|
  {
    if commands != [] {
      AckOneShrinks(commands[1..], id);
      var rest := AckOne(commands[1..], id);
      var head := commands[0].(acknowledged := true);
      assert ([commands[0]] + rest)[1..] == rest && ([head] + rest)[1..] == rest;
    }
  }

  /** Acknowledgements never add to what is waiting. */
  lemma {:induction false} AckAllShrinks(commands: seq<CommandRow>, acks: seq<Id>)
    ensures |Unacknowledged(AckAll(commands, acks))| <= |Unacknowledged(commands)|
  {
    if acks != [] {
      AckAllShrinks(commands, acks[..|acks| - 1]);
      AckOneShrinks(AckAll(commands, acks[..|acks| - 1]), acks[|acks| - 1]);
    }
  }

  function ToCommands(rows: seq<CommandRow>): (commands: seq<Command>)
    ensures |commands| == |rows|
    ensures forall k :: 0 <= k < |rows| ==> commands[k] == Command(rows[k].id, rows[k].kind, rows[k].seconds)
  {
    seq(|rows|, k requires 0 <= k < |rows| => Command(rows[k].id, rows[k].kind, rows[k].seconds))
  }

  /** The oldest unacknowledged commands, one batch at most. */
  function Offered(s: Server): seq<Command> {
    ToCommands(First(Unacknowledged(s.commands), BATCH))
  }

  ghost function Balance(s: Server, date: Date): int {
    s.policy.quota[WeekdayOfDate(date)] + TotalBonus(s.bonus, date) - UsageOn(s.usage, date)
  }

  ghost function ConfirmedState(s: Server, sessionId: Id, date: Date): SessionState {
    SessionState(s.policy.revision, sessionId, date,
                 if Balance(s, date) < 0 then 0 else Balance(s, date), UsageOn(s.usage, date))
  }

  predicate WantsSessionState(s: Server, req: Request) {
    req.sessionActive && (req.requestSessionState || req.sessionStateRevision < s.deviceRevision)
  }

  /** The tables after the heartbeat's transaction. */
  function Absorb(s: Server, req: Request): Server
    requires req.secondsUsed >= 0
  {
    var credited := InsertCredits(s.bonus, QueuedCredits(s.commands, s.bonus), req.date);
    s.(usage := Checkpoint(s.usage, req.date, req.secondsUsed),
       bonus := InsertEvents(credited, req.events),
       commands := AckAll(s.commands, req.acks))
  }

  function EventIds(events: seq<Event>): (ids: seq<Id>)
    ensures |ids| == |events| && forall k :: 0 <= k < |events| ==> ids[k] == events[k].id
  {
    seq(|events|, k requires 0 <= k < |events| => events[k].id)
  }

  /** The answer, read from the tables the transaction left. */
  ghost function Answer(s: Server, req: Request): Response {
    Response(
      EventIds(req.events),
      req.acks,
      if req.policyRevision < s.deviceRevision then Some(s.policy) else None,
      if WantsSessionState(s, req) then Some(ConfirmedState(s, req.sessionId, req.date)) else None,
      Offered(s),
      s.control)
  }

  /** One heartbeat: refused without a trace, or absorbed and answered. */
  ghost function Receive(s: Server, req: Request): Result<(Server, Response), ServerError> {
    if CheckRequest(s, req).Some? then Failure(CheckRequest(s, req).value)
    else if exists e :: e in req.events && !ValidEvent(e) then Failure(InvalidEvent)
    else if exists a :: a in req.acks && !ValidOpaqueIdentifier(a) then Failure(InvalidAcknowledgement)
    else Success((Absorb(s, req), Answer(Absorb(s, req), req)))
  }

  // ------------------------------------------------------------------ status

  predicate AwaitsAck(commands: seq<CommandRow>, id: Id) {
    exists c :: c in commands && c.id == id && c.kind == AddBonus && Pending(c)
  }

  /** The rows of credits the device has not acknowledged. */
  function UnacknowledgedBonus(s: Server): BonusTable {
    map id | id in s.bonus && AwaitsAck(s.commands, id) :: s.bonus[id]
  }

  /** The bonus the administrator sees for a date. */
  ghost function DisplayedBonus(s: Server, date: Date): int {
    var shown := TotalBonus(s.bonus, date) - TotalBonus(UnacknowledgedBonus(s), date);
    if shown < 0 then 0 else shown
  }

  ghost function DisplayedRemaining(s: Server, date: Date): int {
    var left := s.policy.quota[WeekdayOfDate(date)] + DisplayedBonus(s, date) - UsageOn(s.usage, date);
    if left < 0 then 0 else left
  }
}
