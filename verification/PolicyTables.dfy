/**
  The agent's policy, taken apart into rows and put together again: a policy row,
  seven quota rows, a row per routine in the order of its key, and a row per
  selected day.
*/
module PolicyTables {
  import opened Wrappers
  import opened Schedule
  import opened Policy
  import opened Records
  import opened AgentTables
  import opened Accounting
  import opened AdminLaws

  // ------------------------------------------------------------- order of keys

  /** Byte order of two keys. */
  predicate Before(a: string, b: string) {
    if a == [] then b != []
    else b != [] && (a[0] < b[0] || (a[0] == b[0] && Before(a[1..], b[1..])))
  }

  lemma {:induction false} OneWay(a: string, b: string)
    ensures !(Before(a, b) && Before(b, a))
    ensures a != b ==> Before(a, b) || Before(b, a)
    ensures a == b ==> !Before(a, b)
    decreases |a|
  {
    if a != [] && b != [] {
      OneWay(a[1..], b[1..]);
      assert a == [a[0]] + a[1..] && b == [b[0]] + b[1..];
    }
  }

  lemma {:induction false} BeforeTransitive(a: string, b: string, c: string)
    requires Before(a, b) && Before(b, c)
    ensures Before(a, c)
    decreases |a|
  {
    if a != [] && a[0] == b[0] && b[0] == c[0] {
      BeforeTransitive(a[1..], b[1..], c[1..]);
    }
  }

  ghost predicate InKeyOrder(rows: seq<StoredRoutine>) {
    forall i, j :: 0 <= i < j < |rows| ==> Before(rows[i].id, rows[j].id)
  }

  function PutInOrder(rows: seq<StoredRoutine>, r: StoredRoutine): (after: seq<StoredRoutine>)
    ensures forall x :: x in after <==> x == r || x in rows
  {
    if rows == [] || Before(r.id, rows[0].id) then [r] + rows
    else [rows[0]] + PutInOrder(rows[1..], r)
  }

  lemma {:induction false} PutKeepsOrder(rows: seq<StoredRoutine>, r: StoredRoutine)
    requires InKeyOrder(rows) && forall x :: x in rows ==> x.id != r.id
    ensures InKeyOrder(PutInOrder(rows, r))
  {
    if rows != [] {
      OneWay(r.id, rows[0].id);
      if Before(r.id, rows[0].id) {
        forall x | x in rows
          ensures Before(r.id, x.id)
        {
          if x != rows[0] {
            BeforeTransitive(r.id, rows[0].id, x.id);
          }
        }
      } else {
        PutKeepsOrder(rows[1..], r);
        forall x | x in PutInOrder(rows[1..], r)
          ensures Before(rows[0].id, x.id)
        {
        }
      }
    }
  }

  lemma {:induction false} PutLast(rows: seq<StoredRoutine>, r: StoredRoutine)
    requires forall x :: x in rows ==> Before(x.id, r.id)
    ensures PutInOrder(rows, r) == rows + [r]
  {
    if rows != [] {
      OneWay(rows[0].id, r.id);
      PutLast(rows[1..], r);
    }
  }

  /** The routines in the order of their identifiers. */
  function ById(rows: seq<StoredRoutine>): (sorted: seq<StoredRoutine>)
    ensures forall x :: x in sorted <==> x in rows
  {
    if rows == [] then [] else PutInOrder(ById(rows[1..]), rows[0])
  }

  lemma {:induction false} ByIdInOrder(rows: seq<StoredRoutine>)
    requires forall i, j :: 0 <= i < j < |rows| ==> rows[i].id != rows[j].id
    ensures InKeyOrder(ById(rows))
  {
    if rows != [] {
      ByIdInOrder(rows[1..]);
      PutKeepsOrder(ById(rows[1..]), rows[0]);
    }
  }

  // ------------------------------------------------------------------ the tables

  datatype StateRow = StateRow(revision: int, warningMinutes: int, verifier: string)

  datatype DayRow = DayRow(routineId: Id, weekday: int)

  datatype LoadError = NoStoredPolicy | MissingQuota | UnknownRoutine

  const NoDays: Days := [false, false, false, false, false, false, false]

  /** A routine row says everything but the days. */
  function Undated(rows: seq<StoredRoutine>): (undated: seq<StoredRoutine>)
    ensures |undated| == |rows|
    ensures forall k :: 0 <= k < |rows| ==> undated[k] == rows[k].(days := NoDays)
  {
    if rows == [] then []
    else Undated(rows[..|rows| - 1]) + [rows[|rows| - 1].(days := NoDays)]
  }

  ghost predicate DaysOf(days: set<DayRow>, rows: seq<StoredRoutine>) {
    && (forall row :: row in days ==>
          0 <= row.weekday < 7 && exists r :: r in rows && r.id == row.routineId && r.days[row.weekday])
    && (forall r, d :: r in rows && 0 <= d < 7 && r.days[d] ==> DayRow(r.id, d) in days)
  }

  predicate Older(p: PolicyRow, current: Option<PolicyRow>) {
    current.Some? && p.revision < current.value.revision
  }

  predicate Same(p: PolicyRow, current: Option<PolicyRow>) {
    current.Some? && p.revision == current.value.revision
  }

  class Tables {
    var state: Option<StateRow>
    var quota: map<int, int>
    var routines: seq<StoredRoutine>
    var days: set<DayRow>
    var cachedPolicy: Option<PolicyRow>

    /** The tables hold this policy, row by row. */
    ghost predicate Holds(p: PolicyRow)
      reads this
    {
      && state == Some(StateRow(p.revision, p.warningMinutes, p.verifier))
      && (forall d :: 0 <= d < 7 ==> d in quota && quota[d] == p.quota[d])
      && routines == Undated(p.routines)
      && DaysOf(days, p.routines)
    }

    ghost predicate Valid()
      reads this
    {
      if cachedPolicy.None? then state == None
      else ValidPolicy(cachedPolicy.value) && InKeyOrder(cachedPolicy.value.routines) && Holds(cachedPolicy.value)
    }

    constructor ()
      ensures Valid() && cachedPolicy == None
    {
      state, quota, routines, days, cachedPolicy := None, map[], [], {}, None;
    }

    method StoreQuotas(p: PolicyRow)
      modifies this`quota
      ensures forall d :: 0 <= d < 7 ==> d in quota && quota[d] == p.quota[d]
    {
      quota := map[];
      for weekday := 0 to 7
        invariant forall d :: 0 <= d < weekday ==> d in quota && quota[d] == p.quota[d]
      {
        quota := quota[weekday := p.quota[weekday]];
      }
    }

    method StoreDays(r: StoredRoutine)
      modifies this`days
      ensures forall row :: row in days <==>
        row in old(days) || (row.routineId == r.id && 0 <= row.weekday < 7 && r.days[row.weekday])
    {
      for weekday := 0 to 7
        invariant forall row :: row in days <==>
          row in old(days) || (row.routineId == r.id && 0 <= row.weekday < weekday && r.days[row.weekday])
      {
        if r.days[weekday] {
          days := days + {DayRow(r.id, weekday)};
        }
      }
    }

    method StoreRoutines(rows: seq<StoredRoutine>)
      requires InKeyOrder(rows)
      modifies this`routines, this`days
      ensures routines == Undated(rows) && DaysOf(days, rows)
    {
      routines, days := [], {};
      for k := 0 to |rows|
        invariant routines == Undated(rows[..k])
        invariant DaysOf(days, rows[..k])
      {
        var r := rows[k];
        ghost var before := days;
        assert rows[..k + 1][..k] == rows[..k];
        assert forall x :: x in routines ==> Before(x.id, r.id);
        PutLast(routines, r.(days := NoDays));
        routines := PutInOrder(routines, r.(days := NoDays));
        StoreDays(r);
        OneMoreRoutine(before, days, rows[..k], r);
        assert rows[..k + 1] == rows[..k] + [r];
      }
      assert rows[..|rows|] == rows;
    }

    /** Clears and refills every table, unless the policy is malformed, stale or the
        one already held. */
    method ReplacePolicy(p: PolicyRow) returns (error: Option<StoreError>)
      requires Valid()
      modifies this
      ensures Valid()
      ensures error == Some(InvalidArgument) <==> !ValidPolicy(p)
      ensures error == Some(StalePolicy) <==> ValidPolicy(p) && Older(p, old(cachedPolicy))
      ensures error != Some(NoPolicy)
      ensures cachedPolicy ==
        if error.Some? || Same(p, old(cachedPolicy)) then old(cachedPolicy) else Some(p.(routines := ById(p.routines)))
    {
      if !ValidPolicy(p) {
        return Some(InvalidArgument);
      }
      if state.Some? && p.revision < state.value.revision {
        return Some(StalePolicy);
      }
      if state.Some? && p.revision == state.value.revision {
        return None;
      }
      ByIdInOrder(p.routines);
      var sorted := p.(routines := ById(p.routines));
      SortedIsValid(p);
      StoreQuotas(sorted);
      StoreRoutines(sorted.routines);
      state := Some(StateRow(p.revision, p.warningMinutes, p.verifier));
      cachedPolicy := Some(sorted);
      return None;
    }

    method LoadQuotas() returns (loaded: Option<WeeklyQuota>)
      ensures (forall d :: 0 <= d < 7 ==> d in quota) ==>
        loaded.Some? && forall d :: 0 <= d < 7 ==> loaded.value[d] == quota[d]
      ensures loaded.Some? ==> forall d :: 0 <= d < 7 ==> d in quota
    {
      var found: WeeklyQuota := [0, 0, 0, 0, 0, 0, 0];
      var count := 0;
      for weekday := 0 to 7
        invariant 0 <= count <= weekday
        invariant count == weekday <==> forall d :: 0 <= d < weekday ==> d in quota
        invariant forall d :: 0 <= d < weekday && d in quota ==> found[d] == quota[d]
      {
        if weekday in quota {
          found := found[weekday := quota[weekday]];
          count := count + 1;
        }
      }
      return if count == 7 then Some(found) else None;
    }

    /** The rows of one routine's days. */
    method LoadDays(r: StoredRoutine) returns (dated: StoredRoutine)
      ensures dated == r.(days := dated.days)
      ensures forall d :: 0 <= d < 7 ==> (dated.days[d] <==> DayRow(r.id, d) in days)
    {
      var selected: Days := NoDays;
      for weekday := 0 to 7
        invariant forall d :: 0 <= d < weekday ==> (selected[d] <==> DayRow(r.id, d) in days)
        invariant forall d :: weekday <= d < 7 ==> !selected[d]
      {
        if DayRow(r.id, weekday) in days {
          selected := selected[weekday := true];
        }
      }
      return r.(days := selected);
    }

    /** What is read back from the rows is the policy in memory: nothing is lost on
        the way through the tables, and a restart changes nothing. */
    method LoadPolicy() returns (result: Result<PolicyRow, LoadError>)
      requires Valid()
      ensures result == if cachedPolicy.Some? then Success(cachedPolicy.value) else Failure(NoStoredPolicy)
    {
      if state.None? {
        return Failure(NoStoredPolicy);
      }
      ghost var p := cachedPolicy.value;
      var quotas := LoadQuotas();
      if quotas.None? {
        return Failure(MissingQuota);
      }
      if exists row :: row in days && forall r :: r in routines ==> r.id != row.routineId {
        ghost var row :| row in days && forall r :: r in routines ==> r.id != row.routineId;
        RowHasRoutine(p, row);
        return Failure(UnknownRoutine);
      }
      var loaded: seq<StoredRoutine> := [];
      for k := 0 to |routines|
        invariant loaded == p.routines[..k]
      {
        var dated := LoadDays(routines[k]);
        SameDays(p.routines, days, k, dated);
        loaded := loaded + [dated];
      }
      assert loaded == p.routines && quotas.value == p.quota;
      var row := state.value;
      var policy := PolicyRow(row.revision, row.warningMinutes, row.verifier, quotas.value, loaded);
      assert policy == p;
      return Success(policy);
    }

    /** The cache after a restart is the one before it. */
    method RefreshPolicyCache()
      requires Valid()
      modifies this`cachedPolicy
      ensures Valid() && cachedPolicy == old(cachedPolicy)
    {
      var loaded := LoadPolicy();
      cachedPolicy := if loaded.Success? then Some(loaded.value) else None;
    }

    lemma RowHasRoutine(p: PolicyRow, row: DayRow)
      requires Holds(p) && row in days
      ensures exists r :: r in routines && r.id == row.routineId
    {
      var r :| r in p.routines && r.id == row.routineId && r.days[row.weekday];
      var k :| 0 <= k < |p.routines| && p.routines[k] == r;
      assert routines[k] in routines;
    }
  }

  lemma OneMoreRoutine(before: set<DayRow>, after: set<DayRow>, rows: seq<StoredRoutine>, r: StoredRoutine)
    requires DaysOf(before, rows)
    requires forall row :: row in after <==>
      row in before || (row.routineId == r.id && 0 <= row.weekday < 7 && r.days[row.weekday])
    ensures DaysOf(after, rows + [r])
  {
    forall row | row in after
      ensures 0 <= row.weekday < 7 && exists x :: x in rows + [r] && x.id == row.routineId && x.days[row.weekday]
    {
      if row in before {
        var x :| x in rows && x.id == row.routineId && x.days[row.weekday];
        assert x in rows + [r];
      } else {
        assert r in rows + [r];
      }
    }
  }

  lemma SameDays(rows: seq<StoredRoutine>, days: set<DayRow>, k: nat, dated: StoredRoutine)
    requires k < |rows| && DaysOf(days, rows)
    requires forall i, j :: 0 <= i < j < |rows| ==> rows[i].id != rows[j].id
    requires dated == rows[k].(days := dated.days)
    requires forall d :: 0 <= d < 7 ==> (dated.days[d] <==> DayRow(dated.id, d) in days)
    ensures dated == rows[k]
  {
    assert rows[k] in rows;
    forall d | 0 <= d < 7
      ensures dated.days[d] == rows[k].days[d]
    {
      if dated.days[d] {
        var r :| r in rows && r.id == dated.id && r.days[d];
        var j :| 0 <= j < |rows| && rows[j] == r;
        assert j == k;
      }
    }
    assert dated.days == rows[k].days;
  }

  lemma SortedIsValid(p: PolicyRow)
    requires ValidPolicy(p)
    ensures ValidPolicy(p.(routines := ById(p.routines)))
  {
    ByIdInOrder(p.routines);
    var rows := ById(p.routines);
    forall i, j | 0 <= i < j < |rows|
      ensures rows[i].id != rows[j].id
    {
      OneWay(rows[i].id, rows[j].id);
    }
  }

  /** No decision tells the server's policy from the one the agent stores sorted. */
  lemma SortedDecidesAlike(input: Input, p: PolicyRow)
    requires DisjointRoutines(p.routines)
    ensures Decide(input.(routines := EnabledRoutines(p.routines)))
         == Decide(input.(routines := EnabledRoutines(ById(p.routines))))
  {
    DecisionIgnoresOrder(input, p.routines, ById(p.routines));
  }
}
