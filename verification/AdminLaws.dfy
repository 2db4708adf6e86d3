/**
  What any sequence of administrator changes keeps: routines are disjoint over
  the week, so the order they are listed in decides nothing.
*/
module AdminLaws {
  import opened Wrappers
  import opened Calendar
  import opened Schedule
  import opened Policy
  import opened Records
  import opened ServerTables
  import opened Accounting

  datatype AdminOp =
    | ChangeQuotas(quota: WeeklyQuota, warningMinutes: int)
    | PutRoutine(routine: StoredRoutine, isNew: bool)
    | RemoveRoutine(id: Id)
    | ChangePassword(verifier: string)

  function ApplyAdmin(s: Server, op: AdminOp): Result<Server, ServerError> {
    match op
    case ChangeQuotas(q, w) => SaveQuotas(s, q, w)
    case PutRoutine(r, isNew) => SaveRoutine(s, r, isNew)
    case RemoveRoutine(id) => DeleteRoutine(s, id)
    case ChangePassword(v) => SetLocalPassword(s, v)
  }

  /** A refused change leaves the state alone. */
  function AfterAdmin(s: Server, op: AdminOp): Server {
    match ApplyAdmin(s, op)
    case Success(next) => next
    case Failure(_) => s
  }

  function AfterAll(s: Server, ops: seq<AdminOp>): Server
    decreases |ops|
  {
    if ops == [] then s else AfterAll(AfterAdmin(s, ops[0]), ops[1..])
  }

  ghost predicate DistinctIds(rows: seq<StoredRoutine>) {
    forall i, j :: 0 <= i < j < |rows| ==> rows[i].id != rows[j].id
  }

  /** Stored routines are acceptable, distinct, and never active together. */
  ghost predicate DisjointRoutines(rows: seq<StoredRoutine>) {
    && DistinctIds(rows)
    && (forall r :: r in rows ==> AcceptableRoutine(r))
    && (forall x, y :: x in rows && y in rows && x.id != y.id ==> !RoutinesOverlap(x, y))
  }

  lemma {:induction false} WithoutDistinct(rows: seq<StoredRoutine>, id: Id)
    requires DistinctIds(rows)
    ensures DistinctIds(Without(rows, id))
    ensures id !in RoutineIds(rows) ==> Without(rows, id) == rows
  {
    if rows != [] {
      var rest := rows[1..];
      WithoutDistinct(rest, id);
      if rows[0].id == id {
        forall r | r in rest ensures r.id != id {
          var k :| 0 <= k < |rest| && rest[k] == r;
          assert rows[0].id != rows[k + 1].id;
        }
        assert id in RoutineIds(rows) by { assert rows[0] in rows; }
      } else {
        assert id in RoutineIds(rest) ==> id in RoutineIds(rows) by {
          if r :| r in rest && r.id == id { assert r in rows; }
        }
        HeadDistinct(rows, Without(rest, id));
      }
    }
  }

  lemma HeadDistinct(rows: seq<StoredRoutine>, after: seq<StoredRoutine>)
    requires rows != [] && DistinctIds(rows) && DistinctIds(after)
    requires forall r :: r in after ==> r in rows[1..] || r.id !in RoutineIds(rows)
    ensures DistinctIds([rows[0]] + after)
  {
    forall r | r in after ensures r.id != rows[0].id {
      if r in rows[1..] {
        var k :| 0 <= k < |rows[1..]| && rows[1..][k] == r;
        assert rows[k + 1].id != rows[0].id;
      } else {
        assert rows[0] in rows;
      }
    }
  }

  lemma {:induction false} UpsertDistinct(rows: seq<StoredRoutine>, r: StoredRoutine)
    requires DistinctIds(rows)
    ensures DistinctIds(Upsert(rows, r))
  {
    if rows != [] {
      var rest := rows[1..];
      if rows[0].id == r.id {
        WithoutDistinct(rest, r.id);
      } else {
        UpsertDistinct(rest, r);
        var after := Upsert(rest, r);
        forall x | x in after ensures x.id != rows[0].id {
          if x in rest {
            var k :| 0 <= k < |rest| && rest[k] == x;
            assert rows[k + 1].id != rows[0].id;
          }
        }
      }
    }
  }

  lemma OverlapSymmetric(x: StoredRoutine, y: StoredRoutine)
    ensures RoutinesOverlap(x, y) <==> RoutinesOverlap(y, x)
  {
    if a, b :| a in Intervals(x) && b in Intervals(y) && IntervalsMeet(a, b) {
      assert IntervalsMeet(b, a);
    }
    if a, b :| a in Intervals(y) && b in Intervals(x) && IntervalsMeet(a, b) {
      assert IntervalsMeet(b, a);
    }
  }

  lemma {:induction false} AdminKeepsDisjoint(s: Server, op: AdminOp)
    requires DisjointRoutines(s.policy.routines)
    ensures DisjointRoutines(AfterAdmin(s, op).policy.routines)
  {
    var rows := s.policy.routines;
    match op
    case ChangeQuotas(_, _) =>
    case ChangePassword(_) =>
    case RemoveRoutine(id) =>
      WithoutDistinct(rows, id);
    case PutRoutine(r, isNew) =>
      UpsertDistinct(rows, r);
      if ApplyAdmin(s, op).Success? {
        forall x | x in rows && x.id != r.id ensures !RoutinesOverlap(r, x) && !RoutinesOverlap(x, r) {
          OverlapSymmetric(x, r);
        }
      }
  }

  /** Whatever the administrator attempts, stored routines stay pairwise disjoint. */
  lemma {:induction false} RoutinesStayDisjoint(s: Server, ops: seq<AdminOp>)
    requires DisjointRoutines(s.policy.routines)
    ensures DisjointRoutines(AfterAll(s, ops).policy.routines)
    decreases |ops|
  {
    if ops != [] {
      AdminKeepsDisjoint(s, ops[0]);
      RoutinesStayDisjoint(AfterAdmin(s, ops[0]), ops[1..]);
    }
  }

  /** At any instant at most one stored routine is active. */
  lemma AtMostOneActive(rows: seq<StoredRoutine>, x: StoredRoutine, y: StoredRoutine, t: int)
    requires DisjointRoutines(rows) && x in rows && y in rows
    requires SharesInstant(x, y, t)
    ensures x == y
  {
    if x.id != y.id {
      OverlapIffSharedInstant(x, y);
    } else {
      var i :| 0 <= i < |rows| && rows[i] == x;
      var j :| 0 <= j < |rows| && rows[j] == y;
      assert i < j ==> rows[i].id != rows[j].id;
    }
  }

  lemma {:induction false} EnabledFrom(rows: seq<StoredRoutine>)
    ensures forall p :: p in EnabledRoutines(rows) <==> exists r :: r in rows && r.enabled && p == ToPolicyRoutine(r)
  {
    if rows != [] {
      EnabledFrom(rows[1..]);
      assert rows == [rows[0]] + rows[1..];
    }
  }

  /** The routine found active, whatever the order of the list. */
  lemma {:induction false} SameRoutineFound(a: seq<StoredRoutine>, b: seq<StoredRoutine>, t: int)
    requires DisjointRoutines(a)
    requires forall r :: r in a <==> r in b
    ensures var x, y := FirstBlocking(t, EnabledRoutines(a)), FirstBlocking(t, EnabledRoutines(b));
      && (x.Some? <==> y.Some?)
      && (x.Some? ==> EnabledRoutines(a)[x.value] == EnabledRoutines(b)[y.value])
  {
    EnabledFrom(a);
    EnabledFrom(b);
    var p, q := EnabledRoutines(a), EnabledRoutines(b);
    var x, y := FirstBlocking(t, p), FirstBlocking(t, q);
    if x.Some? {
      assert p[x.value] in p && p[x.value] in q;
    }
    if y.Some? {
      assert q[y.value] in q && q[y.value] in p;
    }
    if x.Some? && y.Some? {
      var r :| r in a && r.enabled && p[x.value] == ToPolicyRoutine(r);
      var s :| s in b && s.enabled && q[y.value] == ToPolicyRoutine(s);
      assert SharesInstant(r, s, t);
      AtMostOneActive(a, r, s, t);
    }
  }

  /** The server lists routines by name, the agent by identifier: no decision can
      tell the difference. */
  lemma {:induction false} DecisionIgnoresOrder(input: Input, a: seq<StoredRoutine>, b: seq<StoredRoutine>)
    requires DisjointRoutines(a)
    requires forall r :: r in a <==> r in b
    ensures Decide(input.(routines := EnabledRoutines(a))) == Decide(input.(routines := EnabledRoutines(b)))
  {
    hide NextStart, BlocksAt, DisjointRoutines, EnabledRoutines;
    EnabledFrom(a);
    EnabledFrom(b);
    SameRoutineFound(a, b, input.now);
    NextStartIgnoresOrder(input.now, EnabledRoutines(a), EnabledRoutines(b));
  }

  lemma NextStartIgnoresOrder(now: int, p: seq<Routine>, q: seq<Routine>)
    requires forall r :: r in p <==> r in q
    ensures NextStart(now, p) == NextStart(now, q)
  {
    forall t ensures IsNextStart(now, p, t) <==> IsNextStart(now, q, t) {
      forall u ensures AnyStartsAt(p, u) <==> AnyStartsAt(q, u) {}
    }
    var x, y := NextStart(now, p), NextStart(now, q);
    if x.Some? {
      assert IsNextStart(now, p, x.value);
      NextStartUnique(now, q, x.value);
    }
    if y.Some? {
      assert IsNextStart(now, q, y.value);
      NextStartUnique(now, p, y.value);
    }
  }

  /** Every policy the server can hold is one the agent accepts. */
  lemma AdminKeepsValid(s: Server, op: AdminOp)
    requires ValidPolicy(s.policy) && DisjointRoutines(s.policy.routines)
    ensures ValidPolicy(AfterAdmin(s, op).policy)
  {
    AdminKeepsDisjoint(s, op);
  }

  /** The server accepts a full-day Monday stored with ten o'clock.  On Sunday at
      eleven in the evening, with a day's time left, the block is announced for ten on
      Monday; at midnight use is denied. */
  lemma {:induction false} LateAnnouncementExample()
    ensures var monday := [false, true, false, false, false, false, false];
      var saved := SaveRoutine(NewDevice, StoredRoutine("r", "school", monday, 36_000, 36_000, true), true);
      && saved.Success?
      && var input := Input(23 * HOUR, Active, false, [DAY, DAY, DAY, DAY, DAY, DAY, DAY], 0, 0,
                            EnabledRoutines(saved.value.policy.routines));
         && Validate(input).None?
         && Decide(input).nextBlockAt == Some(DAY + 10 * HOUR)
         && Decide(Advance(input, DAY)).reason == RoutineActive && !Decide(Advance(input, DAY)).allowed
  {
    hide SaveRoutine, Validate, Decide, LatePrediction;
    var stored := ExampleSaved();
    var routine := ToPolicyRoutine(stored);
    assert routine == Routine("school", stored.days, 10 * HOUR, 10 * HOUR);
    ExampleDecided(routine, Input(23 * HOUR, Active, false, [DAY, DAY, DAY, DAY, DAY, DAY, DAY], 0, 0, [routine]));
  }

  lemma {:induction false} ExampleSaved() returns (stored: StoredRoutine)
    ensures stored == StoredRoutine("r", "school", [false, true, false, false, false, false, false],
                                    36_000, 36_000, true)
    ensures var saved := SaveRoutine(NewDevice, stored, true);
      saved.Success? && EnabledRoutines(saved.value.policy.routines) == [ToPolicyRoutine(stored)]
  {
    var days: Days := [false, true, false, false, false, false, false];
    stored := StoredRoutine("r", "school", days, 36_000, 36_000, true);
    assert days[1];
    assert AcceptableRoutine(stored);
  }

  lemma {:induction false} ExampleDecided(routine: Routine, input: Input)
    requires routine == Routine("school", [false, true, false, false, false, false, false], 10 * HOUR, 10 * HOUR)
    requires input == Input(23 * HOUR, Active, false, [DAY, DAY, DAY, DAY, DAY, DAY, DAY], 0, 0, [routine])
    ensures Validate(input).None? && Decide(input).nextBlockAt == Some(DAY + 10 * HOUR)
    ensures Decide(Advance(input, DAY)).reason == RoutineActive && !Decide(Advance(input, DAY)).allowed
  {
    hide LatePrediction, NextStart;
    LatePredictionExample(23 * HOUR);
    DateAndTime(0, 23 * HOUR);
    DateAndTime(1, 0);
    assert !BlocksAt(routine, 23 * HOUR) && BlocksAt(routine, DAY);
    assert FirstBlocking(DAY, [routine]) == Some(0);
  }
}
