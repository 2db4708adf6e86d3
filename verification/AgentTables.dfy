/**
  The agent's durable tables and what each of its transactions does to them.
*/
module AgentTables {
  import opened Wrappers
  import opened Records

  /** The balance the server last authorised for a graphical session. */
  datatype Anchor = Anchor(revision: int, sessionId: Id, date: Date, remaining: int, usage: int)

  /** A control command whose effect the daemon has not observed yet. */
  datatype Effect = Effect(commandId: Id, revision: int, kind: CommandKind)

  datatype Disk = Disk(
    policy: Option<PolicyRow>,
    bonus: BonusTable,
    pending: seq<Event>,
    applied: seq<Id>,
    staged: Option<Effect>,
    anchor: Option<Anchor>,
    usage: UsageTable)

  datatype StoreError = InvalidArgument | StalePolicy | NoPolicy

  const EmptyDisk: Disk := Disk(None, map[], [], [], None, None, map[])

  function PendingIds(pending: seq<Event>): set<Id> {
    set e | e in pending :: e.id
  }

  function WithoutId(pending: seq<Event>, id: Id): (rest: seq<Event>)
    ensures forall e :: e in rest <==> e in pending && e.id != id
  {
    if pending == [] then []
    else if pending[0].id == id then WithoutId(pending[1..], id)
    else [pending[0]] + WithoutId(pending[1..], id)
  }

  function WithoutIds(applied: seq<Id>, ids: seq<Id>): (rest: seq<Id>)
    ensures forall c :: c in rest <==> c in applied && c !in ids
  {
    if applied == [] then []
    else if applied[0] in ids then WithoutIds(applied[1..], ids)
    else [applied[0]] + WithoutIds(applied[1..], ids)
  }

  /** INSERT OR IGNORE by primary key. */
  function InsertApplied(applied: seq<Id>, id: Id): seq<Id> {
    if id in applied then applied else applied + [id]
  }

  function InsertBonus(rows: BonusTable, id: Id, row: BonusRow): BonusTable {
    if id in rows then rows else rows[id := row]
  }

  /** At most `limit` rows from the old end of a queue. */
  function First<T>(rows: seq<T>, limit: nat): seq<T> {
    if |rows| <= limit then rows else rows[..limit]
  }

  /** At most `limit` rows from the new end of a queue. */
  function Newest<T>(rows: seq<T>, limit: nat): seq<T> {
    if |rows| <= limit then rows else rows[|rows| - limit..]
  }

  predicate ValidGrant(e: Event) {
    e.id != "" && e.kind != "" && e.seconds > 0
  }

  /** Bonus, its upload event and its share of the anchor, in one transaction. */
  function InsertGrant(disk: Disk, e: Event): Result<Disk, StoreError> {
    if !ValidGrant(e) then Failure(InvalidArgument) else
    var pending := if e.id in PendingIds(disk.pending) then disk.pending else disk.pending + [e];
    var anchor :=
      if e.id !in disk.bonus && disk.anchor.Some? && disk.anchor.value.date == e.date
      then Some(disk.anchor.value.(remaining := disk.anchor.value.remaining + e.seconds))
      else disk.anchor;
    Success(disk.(bonus := InsertBonus(disk.bonus, e.id, RowOf(e)), pending := pending, anchor := anchor))
  }

  function Acknowledge(disk: Disk, id: Id): Result<Disk, StoreError> {
    if id == "" then Failure(InvalidArgument)
    else Success(disk.(pending := WithoutId(disk.pending, id)))
  }

  function Forget(disk: Disk, ids: seq<Id>): Result<Disk, StoreError> {
    if "" in ids then Failure(InvalidArgument)
    else Success(disk.(applied := WithoutIds(disk.applied, ids)))
  }

  function ReplacePolicy(disk: Disk, p: PolicyRow): Result<Disk, StoreError> {
    if !ValidPolicy(p) then Failure(InvalidArgument)
    else if disk.policy.Some? && p.revision < disk.policy.value.revision then Failure(StalePolicy)
    else if disk.policy.Some? && p.revision == disk.policy.value.revision then Success(disk)
    else Success(disk.(policy := Some(p)))
  }

  /** The local bonuses whose upload is still unacknowledged. */
  function PendingLocal(disk: Disk): BonusTable {
    map id | id in disk.bonus && id in PendingIds(disk.pending) && disk.bonus[id].origin == Local :: disk.bonus[id]
  }

  predicate ValidAnchor(a: Anchor) {
    a.revision >= 0 && a.sessionId != "" && |a.sessionId| <= 128 && a.remaining >= 0 && a.usage >= 0
  }

  ghost function SaveAnchor(disk: Disk, a: Anchor): Result<Disk, StoreError> {
    if !ValidAnchor(a) then Failure(InvalidArgument) else
    Success(disk.(
      anchor := Some(a.(remaining := a.remaining + TotalBonus(PendingLocal(disk), a.date))),
      usage := Checkpoint(disk.usage, a.date, a.usage)))
  }

  function StageEffect(disk: Disk, e: Effect): Result<Disk, StoreError> {
    if e.commandId == "" || e.revision <= 0 || !e.kind.IsControl() then Failure(InvalidArgument)
    else Success(disk.(staged := Some(e)))
  }

  /** The command becomes acknowledgeable only if it is still the staged one. */
  function CompleteEffect(disk: Disk, commandId: Id): Result<Disk, StoreError> {
    if commandId == "" then Failure(InvalidArgument)
    else if disk.staged.Some? && disk.staged.value.commandId == commandId then
      Success(disk.(staged := None, applied := InsertApplied(disk.applied, commandId)))
    else Success(disk)
  }

  /** The applied-command row guards the bonus row. */
  function ApplyRemoteBonus(disk: Disk, commandId: Id, row: BonusRow): Result<Disk, StoreError> {
    if commandId == "" || row.seconds <= 0 then Failure(InvalidArgument)
    else if commandId in disk.applied then Success(disk)
    else Success(disk.(
      applied := disk.applied + [commandId],
      bonus := InsertBonus(disk.bonus, commandId, row)))
  }
}
