/**
  The agent's store: durable tables plus the two caches the one-second loop
  reads instead of the database.
*/
module AgentStore {
  import opened Wrappers
  import opened Records
  import opened AgentTables

  class Store {
    var policy: Option<PolicyRow>
    var bonus: BonusTable
    var pending: seq<Event>
    var applied: seq<Id>
    var staged: Option<Effect>
    var anchor: Option<Anchor>
    var usage: UsageTable
    var cachedPolicy: Option<PolicyRow>
    var cachedAnchor: Option<Anchor>

    /** The durable part: all that survives a crash. */
    function Contents(): Disk
      reads this
    {
      Disk(policy, bonus, pending, applied, staged, anchor, usage)
    }

    /** The caches show the committed rows. */
    ghost predicate Valid()
      reads this
    {
      && cachedPolicy == policy
      && cachedAnchor == anchor
      && (policy.Some? ==> ValidPolicy(policy.value))
      && (forall d :: d in usage ==> usage[d] >= 0)
      && (forall id :: id in bonus ==> bonus[id].seconds > 0)
      && (staged.Some? ==> staged.value.commandId != "")
    }

    /** Opening a database reads the tables a previous process left. */
    constructor (disk: Disk)
      requires disk.policy.Some? ==> ValidPolicy(disk.policy.value)
      requires forall d :: d in disk.usage ==> disk.usage[d] >= 0
      requires forall id :: id in disk.bonus ==> disk.bonus[id].seconds > 0
      requires disk.staged.Some? ==> disk.staged.value.commandId != ""
      ensures Valid() && Contents() == disk
    {
      policy, bonus, pending, applied := disk.policy, disk.bonus, disk.pending, disk.applied;
      staged, anchor, usage := disk.staged, disk.anchor, disk.usage;
      cachedPolicy, cachedAnchor := disk.policy, disk.anchor;
    }

    method CheckpointUsage(date: Date, seconds: int)
      requires Valid() && seconds >= 0
      modifies this`usage
      ensures Valid()
      ensures usage == Checkpoint(old(usage), date, seconds)
    {
      var current := if date in usage then usage[date] else 0;
      usage := usage[date := if current >= seconds then current else seconds];
    }

    method AddBonusWithEvent(e: Event) returns (error: Option<StoreError>)
      requires Valid()
      modifies this
      ensures Valid()
      ensures error.None? <==> InsertGrant(old(Contents()), e).Success?
      ensures Contents() == if error.None? then InsertGrant(old(Contents()), e).value else old(Contents())
    {
      if e.id == "" || e.kind == "" || e.seconds <= 0 {
        return Some(InvalidArgument);
      }
      var inserted := e.id !in bonus;
      if inserted {
        bonus := bonus[e.id := RowOf(e)];
      }
      if !(exists p :: p in pending && p.id == e.id) {
        pending := pending + [e];
      }
      if inserted && anchor.Some? && anchor.value.date == e.date {
        anchor := Some(anchor.value.(remaining := anchor.value.remaining + e.seconds));
      }
      cachedAnchor := anchor;
      return None;
    }

    method TotalBonusSeconds(date: Date) returns (total: int)
      ensures total == TotalBonus(bonus, date)
    {
      total := SumRows(Dated(bonus, date));
    }

    method AcknowledgeEvent(id: Id) returns (error: Option<StoreError>)
      requires Valid()
      modifies this`pending
      ensures Valid()
      ensures error.None? <==> Acknowledge(old(Contents()), id).Success?
      ensures Contents() == if error.None? then Acknowledge(old(Contents()), id).value else old(Contents())
    {
      if id == "" {
        return Some(InvalidArgument);
      }
      pending := WithoutId(pending, id);
      return None;
    }

    /** One transaction over all identifiers: an invalid one rolls it back. */
    method ForgetAppliedCommandIDs(ids: seq<Id>) returns (error: Option<StoreError>)
      requires Valid()
      modifies this`applied
      ensures Valid()
      ensures error.None? <==> Forget(old(Contents()), ids).Success?
      ensures Contents() == if error.None? then Forget(old(Contents()), ids).value else old(Contents())
    {
      var rows := applied;
      ForgetNothing(applied);
      for k := 0 to |ids|
        invariant applied == old(applied) && "" !in ids[..k]
        invariant rows == WithoutIds(applied, ids[..k])
      {
        if ids[k] == "" {
          return Some(InvalidArgument);
        }
        ForgetOneMore(applied, ids[..k], ids[k]);
        assert ids[..k + 1] == ids[..k] + [ids[k]];
        rows := WithoutIds(rows, [ids[k]]);
      }
      assert ids[..|ids|] == ids;
      applied := rows;
      return None;
    }

    method ReplacePolicy(p: PolicyRow) returns (error: Option<StoreError>)
      requires Valid()
      modifies this
      ensures Valid()
      ensures match AgentTables.ReplacePolicy(old(Contents()), p)
        case Success(disk) => error == None && Contents() == disk
        case Failure(e) => error == Some(e) && Contents() == old(Contents())
    {
      if !ValidPolicy(p) {
        return Some(InvalidArgument);
      }
      if policy.Some? && p.revision < policy.value.revision {
        return Some(StalePolicy);
      }
      if policy.Some? && p.revision == policy.value.revision {
        return None;
      }
      policy := Some(p);
      cachedPolicy := Some(p);
      return None;
    }

    method CurrentPolicy() returns (result: Result<PolicyRow, StoreError>)
      requires Valid()
      ensures result.Success? <==> policy.Some?
      ensures result.Success? ==> Some(result.value) == policy && ValidPolicy(result.value)
      ensures result.Failure? ==> result.error == NoPolicy
    {
      return if cachedPolicy.Some? then Success(cachedPolicy.value) else Failure(NoPolicy);
    }

    method SaveConfirmedSessionState(a: Anchor) returns (error: Option<StoreError>)
      requires Valid()
      modifies this
      ensures Valid()
      ensures error.None? <==> SaveAnchor(old(Contents()), a).Success?
      ensures Contents() == if error.None? then SaveAnchor(old(Contents()), a).value else old(Contents())
    {
      if !ValidAnchor(a) {
        return Some(InvalidArgument);
      }
      var pendingLocalBonus := SumRows(Dated(PendingLocal(Contents()), a.date));
      var saved := a.(remaining := a.remaining + pendingLocalBonus);
      CheckpointUsage(a.date, a.usage);
      anchor := Some(saved);
      cachedAnchor := Some(saved);
      return None;
    }

    method StageControlEffect(e: Effect) returns (error: Option<StoreError>)
      requires Valid()
      modifies this`staged
      ensures Valid()
      ensures error.None? <==> StageEffect(old(Contents()), e).Success?
      ensures Contents() == if error.None? then StageEffect(old(Contents()), e).value else old(Contents())
    {
      if e.commandId == "" || e.revision <= 0 || !e.kind.IsControl() {
        return Some(InvalidArgument);
      }
      staged := Some(e);
      return None;
    }

    method CompleteControlEffect(commandId: Id) returns (error: Option<StoreError>)
      requires Valid()
      modifies this`staged, this`applied
      ensures Valid()
      ensures error.None? <==> CompleteEffect(old(Contents()), commandId).Success?
      ensures Contents() == if error.None? then CompleteEffect(old(Contents()), commandId).value else old(Contents())
    {
      if commandId == "" {
        return Some(InvalidArgument);
      }
      if staged.None? || staged.value.commandId != commandId {
        return None;
      }
      staged := None;
      if commandId !in applied {
        applied := applied + [commandId];
      }
      return None;
    }

    method ApplyRemoteBonus(commandId: Id, row: BonusRow) returns (error: Option<StoreError>)
      requires Valid()
      modifies this`applied, this`bonus
      ensures Valid()
      ensures error.None? <==> AgentTables.ApplyRemoteBonus(old(Contents()), commandId, row).Success?
      ensures Contents() == if error.None? then AgentTables.ApplyRemoteBonus(old(Contents()), commandId, row).value
                            else old(Contents())
    {
      if commandId == "" || row.seconds <= 0 {
        return Some(InvalidArgument);
      }
      if commandId !in applied {
        applied := applied + [commandId];
        if commandId !in bonus {
          bonus := bonus[commandId := row];
        }
      }
      return None;
    }
  }

  lemma {:induction false} ForgetNothing(applied: seq<Id>)
    ensures WithoutIds(applied, []) == applied
  {
    if applied != [] {
      ForgetNothing(applied[1..]);
    }
  }

  lemma {:induction false} ForgetOneMore(applied: seq<Id>, ids: seq<Id>, id: Id)
    ensures WithoutIds(WithoutIds(applied, ids), [id]) == WithoutIds(applied, ids + [id])
  {
    if applied != [] {
      ForgetOneMore(applied[1..], ids, id);
      var rest := WithoutIds(applied[1..], ids);
      if applied[0] !in ids {
        assert WithoutIds(applied, ids) == [applied[0]] + rest;
        assert ([applied[0]] + rest)[1..] == rest;
      }
    }
  }
}
