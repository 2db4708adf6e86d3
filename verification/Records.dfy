/**
  The rows both databases keep and the messages the heartbeat exchanges.  A
  table is a map from its key, or a sequence where its creation order matters.
*/
module Records {
  import opened Wrappers
  import opened Schedule
  import opened Policy

  type Id = string
  type Date = int

  predicate ValidCharacter(c: char) {
    'a' <= c <= 'z' || 'A' <= c <= 'Z' || '0' <= c <= '9' || c == '-' || c == '_'
  }

  predicate ValidOpaqueIdentifier(identifier: string) {
    0 < |identifier| <= 128 && forall c :: c in identifier ==> ValidCharacter(c)
  }

  // ----------------------------------------------------------------- policy

  /** One revision of the remotely managed configuration; quotas are seconds. */
  datatype PolicyRow = PolicyRow(
    revision: int,
    warningMinutes: int,
    verifier: string,
    quota: WeeklyQuota,
    routines: seq<StoredRoutine>)

  /** What the agent demands of a policy before it stores it. */
  predicate ValidPolicy(p: PolicyRow) {
    && p.revision >= 0
    && p.warningMinutes >= 0
    && (forall q :: q in p.quota ==> q >= 0)
    && (forall r :: r in p.routines ==> r.id != "" && r.name != "" && StoredInDay(r))
    && (forall i, j :: 0 <= i < j < |p.routines| ==> p.routines[i].id != p.routines[j].id)
  }

  // ------------------------------------------------------------------ bonus

  datatype Origin = Local | Web

  datatype BonusRow = BonusRow(date: Date, seconds: int, origin: Origin)

  type BonusTable = map<Id, BonusRow>

  /** A locally granted bonus waiting for the server's acknowledgement. */
  datatype Event = Event(id: Id, kind: string, date: Date, seconds: int, origin: Origin)

  function RowOf(e: Event): BonusRow {
    BonusRow(e.date, e.seconds, e.origin)
  }

  function Dated(rows: BonusTable, date: Date): map<Id, int> {
    map id | id in rows && rows[id].date == date :: rows[id].seconds
  }

  function OfOrigin(rows: BonusTable, origin: Origin): BonusTable {
    map id | id in rows && rows[id].origin == origin :: rows[id]
  }

  ghost function Sum(m: map<Id, int>): int {
    if m == map[] then 0 else
      var id :| id in m;
      m[id] + Sum(m - {id})
  }

  lemma {:induction false} SumSplit(m: map<Id, int>, id: Id)
    requires id in m
    ensures Sum(m) == m[id] + Sum(m - {id})
    decreases |m|
  {
    var first :| first in m && Sum(m) == m[first] + Sum(m - {first});
    if first != id {
      SumSplit(m - {first}, id);
      SumSplit(m - {id}, first);
      assert m - {first} - {id} == m - {id} - {first};
    }
  }

  lemma SumInsert(m: map<Id, int>, id: Id, value: int)
    requires id !in m
    ensures Sum(m[id := value]) == Sum(m) + value
  {
    SumSplit(m[id := value], id);
    assert m[id := value] - {id} == m;
  }

  lemma UnionInsert(a: map<Id, int>, b: map<Id, int>, id: Id)
    requires id in b
    ensures (a + (b - {id}))[id := b[id]] == a + b
    ensures (b - {id})[id := b[id]] == b
    ensures |b - {id}| < |b|
  {
    assert (b - {id}).Keys == b.Keys - {id};
  }

  lemma {:induction false} SumUnion(a: map<Id, int>, b: map<Id, int>)
    requires a.Keys !! b.Keys
    ensures Sum(a + b) == Sum(a) + Sum(b)
    decreases |b|
  {
    if b == map[] {
      assert a + b == a;
      assert Sum(b) == 0;
    } else {
      var id :| id in b;
      UnionInsert(a, b, id);
      var rest := b - {id};
      SumUnion(a, rest);
      SumInsert(rest, id, b[id]);
      SumInsert(a + rest, id, b[id]);
    }
  }

  lemma {:induction false} SumNonNegative(m: map<Id, int>)
    requires forall id :: id in m ==> m[id] >= 0
    ensures Sum(m) >= 0
    decreases |m|
  {
    if m != map[] {
      var id :| id in m;
      SumSplit(m, id);
      SumNonNegative(m - {id});
    }
  }

  /** SUM(seconds), in whatever order the rows come. */
  method SumRows(rows: map<Id, int>) returns (total: int)
    ensures total == Sum(rows)
  {
    total := 0;
    var left := rows;
    while left != map[]
      invariant total + Sum(left) == Sum(rows)
      decreases |left|
    {
      var id :| id in left;
      SumSplit(left, id);
      total := total + left[id];
      left := left - {id};
    }
  }

  ghost function TotalBonus(rows: BonusTable, date: Date): int {
    Sum(Dated(rows, date))
  }

  lemma TotalByOrigin(rows: BonusTable, date: Date)
    ensures TotalBonus(rows, date)
         == TotalBonus(OfOrigin(rows, Local), date) + TotalBonus(OfOrigin(rows, Web), date)
  {
    var local, web := Dated(OfOrigin(rows, Local), date), Dated(OfOrigin(rows, Web), date);
    assert Dated(rows, date) == local + web;
    SumUnion(local, web);
  }

  // ------------------------------------------------------------------ usage

  type UsageTable = map<Date, int>

  function UsageOn(usage: UsageTable, date: Date): int {
    if date in usage then usage[date] else 0
  }

  /** The monotone upsert both sides use for a day's counter. */
  function Checkpoint(usage: UsageTable, date: Date, seconds: int): (u: UsageTable)
    requires seconds >= 0
    ensures UsageOn(u, date) == if UsageOn(usage, date) >= seconds then UsageOn(usage, date) else seconds
    ensures forall d :: d != date ==> UsageOn(u, d) == UsageOn(usage, d)
  {
    usage[date := if UsageOn(usage, date) >= seconds then UsageOn(usage, date) else seconds]
  }

  // --------------------------------------------------------------- commands

  datatype CommandKind = PauseMonitoring | ResumeMonitoring | BlockNow | ClearManualBlock | AddBonus {
    predicate IsControl() {
      !AddBonus?
    }
  }

  datatype Control = Control(revision: int, paused: bool, blocked: bool)

  datatype Command = Command(id: Id, kind: CommandKind, seconds: int)

  // --------------------------------------------------------------- messages

  datatype SessionState =
    SessionState(revision: int, sessionId: Id, date: Date, remaining: int, usage: int)

  datatype Request = Request(
    policyRevision: int,
    controlRevision: int,
    sessionStateRevision: int,
    date: Date,
    secondsUsed: int,
    sessionActive: bool,
    sessionId: Id,
    sessionLocked: bool,
    requestSessionState: bool,
    events: seq<Event>,
    acks: seq<Id>)

  datatype Response = Response(
    acknowledgedEvents: seq<Id>,
    acknowledgedCommands: seq<Id>,
    policy: Option<PolicyRow>,
    sessionState: Option<SessionState>,
    commands: seq<Command>,
    control: Control)
}
