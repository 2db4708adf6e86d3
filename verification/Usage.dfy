/**
  The day's counter: kept in memory, checkpointed so that a crash gives back
  less than one checkpoint interval.
*/
module Usage {
  import opened Calendar
  import opened Records
  import opened AgentStore

  /** The live counter of one date; `uncheckpointed` is in nanoseconds. */
  datatype Counter = Counter(date: Date, seconds: int, uncheckpointed: int)

  datatype Metered = Metered(counter: Counter, usage: UsageTable)

  /** The durable counter lags the live one by no more than the uncheckpointed part. */
  predicate Sound(m: Metered, every: int) {
    && 0 <= m.counter.seconds
    && 0 <= m.counter.uncheckpointed < every
    && UsageOn(m.usage, m.counter.date) * SECOND + m.counter.uncheckpointed >= m.counter.seconds * SECOND
  }

  function LoadCounter(usage: UsageTable, date: Date): Counter {
    Counter(date, UsageOn(usage, date), 0)
  }

  function Flushed(m: Metered): Metered
    requires m.counter.seconds >= 0
  {
    Metered(m.counter.(uncheckpointed := 0), Checkpoint(m.usage, m.counter.date, m.counter.seconds))
  }

  function Added(m: Metered, seconds: nat, every: int): (r: Metered)
    requires every > 0 && m.counter.seconds >= 0
  {
    var counted := m.counter.(
      seconds := m.counter.seconds + seconds,
      uncheckpointed := m.counter.uncheckpointed + seconds * SECOND);
    if counted.uncheckpointed < every then m.(counter := counted)
    else Flushed(m.(counter := counted))
  }

  function Raised(m: Metered, seconds: int): Metered
    requires m.counter.seconds >= 0
  {
    if seconds <= m.counter.seconds then m
    else Metered(Counter(m.counter.date, seconds, 0), Checkpoint(m.usage, m.counter.date, seconds))
  }

  /** Seconds are added to the counter of the date; they become durable once a whole
      interval of them is not, and no other date is touched. */
  lemma {:induction false} AddedExactly(m: Metered, seconds: nat, every: int)
    requires every > 0 && Sound(m, every)
    ensures var after := Added(m, seconds, every);
      var pending := m.counter.uncheckpointed + seconds * SECOND;
      && after.counter.date == m.counter.date && after.counter.seconds == m.counter.seconds + seconds
      && (pending < every ==> after.counter.uncheckpointed == pending && after.usage == m.usage)
      && (pending >= every ==>
            && after.counter.uncheckpointed == 0
            && UsageOn(after.usage, m.counter.date) >= after.counter.seconds
            && (UsageOn(m.usage, m.counter.date) <= after.counter.seconds ==>
                  UsageOn(after.usage, m.counter.date) == after.counter.seconds))
      && forall d :: d != m.counter.date ==> UsageOn(after.usage, d) == UsageOn(m.usage, d)
  {
  }

  /** Flushing makes the counter durable; raising it lifts it to a minimum, durably. */
  lemma {:induction false} FlushedExactly(m: Metered, minimum: nat)
    requires m.counter.seconds >= 0
    ensures var flushed := Flushed(m);
      && flushed.counter == m.counter.(uncheckpointed := 0)
      && UsageOn(flushed.usage, m.counter.date) >= m.counter.seconds
      && forall d :: UsageOn(flushed.usage, d) >= UsageOn(m.usage, d)
           && (d != m.counter.date ==> UsageOn(flushed.usage, d) == UsageOn(m.usage, d))
    ensures var raised := Raised(m, minimum);
      if minimum <= m.counter.seconds then raised == m else
        && raised.counter == Counter(m.counter.date, minimum, 0)
        && UsageOn(raised.usage, m.counter.date) >= minimum
        && forall d :: d != m.counter.date ==> UsageOn(raised.usage, d) == UsageOn(m.usage, d)
  {
  }

  lemma LoadIsSound(usage: UsageTable, date: Date, every: int)
    requires every > 0 && forall d :: d in usage ==> usage[d] >= 0
    ensures Sound(Metered(LoadCounter(usage, date), usage), every)
  {
  }

  /** Every operation keeps the bound, never lowers a durable counter and touches
      no other date. */
  lemma CounterOperations(m: Metered, seconds: nat, every: int)
    requires every > 0 && Sound(m, every)
    ensures Sound(Added(m, seconds, every), every)
    ensures Sound(Flushed(m), every)
    ensures Sound(Raised(m, seconds), every)
    ensures Added(m, seconds, every).counter.seconds == m.counter.seconds + seconds
    ensures forall d :: UsageOn(Added(m, seconds, every).usage, d) >= UsageOn(m.usage, d)
    ensures forall d :: d != m.counter.date ==>
      UsageOn(Added(m, seconds, every).usage, d) == UsageOn(m.usage, d)
  {
  }

  /** What a crash costs: the counter loaded afterwards is short by less than one
      checkpoint interval, and it never shows more than was used. */
  lemma CrashLoss(m: Metered, every: int)
    requires Sound(m, every)
    ensures (m.counter.seconds - LoadCounter(m.usage, m.counter.date).seconds) * SECOND < every
  {
  }

  class UsageTracker {
    const store: Store
    const date: Date
    const every: int
    var seconds: int
    var uncheckpointed: int

    function State(): Metered
      reads this, store
    {
      Metered(Counter(date, seconds, uncheckpointed), store.usage)
    }

    ghost predicate Valid()
      reads this, store
    {
      every > 0 && store.Valid() && Sound(State(), every)
    }

    constructor (store: Store, date: Date, every: int)
      requires every > 0 && store.Valid()
      ensures Valid() && this.store == store && this.every == every
      ensures State() == Metered(LoadCounter(store.usage, date), store.usage)
    {
      this.store, this.date, this.every := store, date, every;
      seconds := if date in store.usage then store.usage[date] else 0;
      uncheckpointed := 0;
    }

    /** A negative or fractional duration is refused and changes nothing. */
    method Add(elapsed: int) returns (ok: bool)
      requires Valid()
      modifies this, store`usage
      ensures Valid()
      ensures ok <==> elapsed >= 0 && elapsed % SECOND == 0
      ensures State() == if ok then Added(old(State()), elapsed / SECOND, every) else old(State())
    {
      if elapsed < 0 || elapsed % SECOND != 0 {
        return false;
      }
      CounterOperations(State(), elapsed / SECOND, every);
      seconds := seconds + elapsed / SECOND;
      uncheckpointed := uncheckpointed + elapsed;
      if uncheckpointed < every {
        return true;
      }
      store.CheckpointUsage(date, seconds);
      uncheckpointed := 0;
      return true;
    }

    method Flush()
      requires Valid()
      modifies this`uncheckpointed, store`usage
      ensures Valid()
      ensures State() == Flushed(old(State()))
    {
      CounterOperations(State(), 0, every);
      store.CheckpointUsage(date, seconds);
      uncheckpointed := 0;
    }

    method EnsureAtLeast(minimum: int) returns (ok: bool)
      requires Valid()
      modifies this, store`usage
      ensures Valid()
      ensures ok <==> minimum >= 0
      ensures State() == if ok then Raised(old(State()), minimum) else old(State())
    {
      if minimum < 0 {
        return false;
      }
      CounterOperations(State(), minimum, every);
      if minimum <= seconds {
        return true;
      }
      seconds := minimum;
      uncheckpointed := 0;
      store.CheckpointUsage(date, minimum);
      return true;
    }
  }
}
