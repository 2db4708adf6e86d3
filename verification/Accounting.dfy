/**
  One daemon cycle: observe, account, decide.  Everything here is a function of
  the runtime state, the tables and the observation; the class that carries it
  out step by step is in Daemon.dfy.
*/
module Accounting {
  import opened Wrappers
  import opened Calendar
  import opened Schedule
  import opened Policy
  import opened Records
  import opened AgentTables
  import opened Usage

  /** The control flags the last heartbeat left in memory. */
  datatype RemoteControl = RemoteControl(online: bool, paused: bool, blocked: bool, revision: int)

  /** One local graphical session; only active ones are asked whether they are locked. */
  datatype Session = Session(key: Id, active: bool, locked: bool)

  /** What the daemon keeps between two cycles. */
  datatype Meter = Meter(
    counter: Option<Counter>,
    lastAt: Option<int>,
    lastShouldCount: bool,
    lastHadSession: bool,
    lastCountUntil: Option<int>,
    fraction: int)

  const FreshMeter: Meter := Meter(None, None, false, false, None, 0)

  /** The books of one cycle; `counted` is what this cycle has added so far. */
  datatype Books = Books(counter: Counter, usage: UsageTable, fraction: int, counted: int)

  function FirstActive(sessions: seq<Session>): (found: Option<Session>)
    ensures found.Some? ==>
      exists k :: 0 <= k < |sessions| && sessions[k] == found.value && found.value.active
                  && forall j :: 0 <= j < k ==> !sessions[j].active
    ensures found.None? ==> forall s :: s in sessions ==> !s.active
  {
    if sessions == [] then None
    else if sessions[0].active then Some(sessions[0])
    else FirstActive(sessions[1..])
  }

  // ------------------------------------------------------------- control effect

  /** Whether the observed sessions show what the command asks for. */
  predicate Confirms(kind: CommandKind, session: Option<Session>) {
    match kind
    case BlockNow => session.Some? && session.value.locked
    case ClearManualBlock | PauseMonitoring => session.None? || !session.value.locked
    case ResumeMonitoring => true
    case AddBonus => false
  }

  predicate EffectCurrent(disk: Disk, control: RemoteControl) {
    control.online && disk.staged.Some? && disk.staged.value.revision == control.revision
  }

  function ObserveEffect(disk: Disk, control: RemoteControl, session: Option<Session>): Disk {
    if EffectCurrent(disk, control) && Confirms(disk.staged.value.kind, session) then
      match CompleteEffect(disk, disk.staged.value.commandId)
      case Success(done) => done
      case Failure(_) => disk
    else disk
  }

  /** A current command that asks for the desktop to be open, and is not. */
  predicate UnlockAsked(disk: Disk, control: RemoteControl, session: Option<Session>) {
    && EffectCurrent(disk, control)
    && !Confirms(disk.staged.value.kind, session)
    && (disk.staged.value.kind.ClearManualBlock? || disk.staged.value.kind.PauseMonitoring?)
  }

  // ------------------------------------------------------------------ decision

  function EnabledRoutines(routines: seq<StoredRoutine>): seq<Routine> {
    if routines == [] then []
    else (if routines[0].enabled then [ToPolicyRoutine(routines[0])] else []) + EnabledRoutines(routines[1..])
  }

  /** The seconds the server's anchor still authorises on the counter's date. */
  function AnchorBalance(anchor: Option<Anchor>, counter: Counter): int {
    if anchor.Some? && anchor.value.date == counter.date
    then Positive(anchor.value.remaining - Positive(counter.seconds - anchor.value.usage))
    else 0
  }

  /** The seconds the agent's own tables leave on the counter's date. */
  ghost function LocalBalance(disk: Disk, counter: Counter, weekday: nat): int
    requires disk.policy.Some? && weekday < 7
  {
    Positive(disk.policy.value.quota[weekday] + TotalBonus(disk.bonus, counter.date) - counter.seconds)
  }

  ghost function InputFor(disk: Disk, counter: Counter, control: RemoteControl, at: int): Input
    requires disk.policy.Some?
  {
    var p := disk.policy.value;
    var monitoring := if control.online && control.paused then Paused else Active;
    var routines := EnabledRoutines(p.routines);
    if control.online then
      Input(at, monitoring, control.blocked,
            [0, 0, 0, 0, 0, 0, 0][Weekday(at) := AnchorBalance(disk.anchor, counter) * SECOND], 0, 0, routines)
    else
      Input(at, monitoring, false, seq(7, (d: nat) requires d < 7 => p.quota[d] * SECOND),
            counter.seconds * SECOND, TotalBonus(disk.bonus, counter.date) * SECOND, routines)
  }

  ghost function DecideAt(disk: Disk, counter: Counter, control: RemoteControl, at: int): Decision
    requires disk.policy.Some?
  {
    Decide(InputFor(disk, counter, control, at))
  }

  /** The stored rows satisfy what their tables demand. */
  ghost predicate SoundRows(disk: Disk) {
    && (disk.policy.Some? ==> ValidPolicy(disk.policy.value))
    && (forall d :: d in disk.usage ==> disk.usage[d] >= 0)
    && (forall id :: id in disk.bonus ==> disk.bonus[id].seconds > 0)
    && (disk.staged.Some? ==> disk.staged.value.commandId != "")
  }

  lemma {:induction false} EnabledInDay(routines: seq<StoredRoutine>)
    requires forall r :: r in routines ==> StoredInDay(r)
    ensures forall r :: r in EnabledRoutines(routines) ==> InDay(r)
  {
    if routines != [] {
      EnabledInDay(routines[1..]);
      assert StoredInDay(routines[0]);
    }
  }

  lemma TotalBonusNonNegative(rows: BonusTable, date: Date)
    requires forall id :: id in rows ==> rows[id].seconds > 0
    ensures TotalBonus(rows, date) >= 0
  {
    SumNonNegative(Dated(rows, date));
  }

  /** The input is always valid, and what it leaves is the balance of the
      authority in force: the anchor online, the tables offline. */
  lemma InputIsValid(disk: Disk, counter: Counter, control: RemoteControl, at: int)
    requires SoundRows(disk) && disk.policy.Some? && counter.seconds >= 0
    ensures Validate(InputFor(disk, counter, control, at)).None?
    ensures Remaining(InputFor(disk, counter, control, at))
         == (if control.online then AnchorBalance(disk.anchor, counter)
             else LocalBalance(disk, counter, Weekday(at))) * SECOND
  {
    EnabledInDay(disk.policy.value.routines);
    TotalBonusNonNegative(disk.bonus, counter.date);
    var input := InputFor(disk, counter, control, at);
    forall q | q in input.quota ensures q >= 0 {
      if !control.online {
        var d :| 0 <= d < 7 && input.quota[d] == q;
        assert disk.policy.value.quota[d] in disk.policy.value.quota;
      }
    }
  }

  // ---------------------------------------------------------------- accounting

  function CappedElapsed(start: int, end: int, countUntil: Option<int>): (elapsed: nat)
  {
    var stop := if countUntil.Some? && countUntil.value < end then countUntil.value else end;
    if stop <= start then 0 else stop - start
  }

  /** Whole seconds go to the counter, the rest is carried. */
  function Elapse(b: Books, elapsed: nat, every: int): Books
    requires every > 0 && b.counter.seconds >= 0 && b.fraction >= 0
  {
    if elapsed == 0 then b else
    var total := b.fraction + elapsed;
    var whole := WholeSeconds(total);
    var rest := total - whole * SECOND;
    if whole == 0 then b.(fraction := rest) else
    var m := Added(Metered(b.counter, b.usage), whole, every);
    Books(m.counter, m.usage, rest, b.counted + whole)
  }

  /** A new local date: flush the old counter, load the new one, drop the fraction. */
  function NewDay(b: Books, date: Date): Books
    requires b.counter.seconds >= 0
  {
    var usage := Flushed(Metered(b.counter, b.usage)).usage;
    Books(LoadCounter(usage, date), usage, 0, b.counted)
  }

  predicate SoundMeter(m: Meter, usage: UsageTable, every: int) {
    && every > 0
    && 0 <= m.fraction < SECOND
    && (m.counter.Some? ==> Sound(Metered(m.counter.value, usage), every))
    && (m.counter.Some? <==> m.lastAt.Some?)
    && (m.counter.Some? ==> m.counter.value.date == DateOf(m.lastAt.value))
    && (m.lastShouldCount ==> m.lastAt.Some? && m.lastCountUntil.Some?)
  }

  predicate SoundBooks(b: Books, every: int) {
    every > 0 && 0 <= b.fraction < SECOND && Sound(Metered(b.counter, b.usage), every)
  }

  lemma ElapseSound(b: Books, elapsed: nat, every: int)
    requires SoundBooks(b, every)
    ensures SoundBooks(Elapse(b, elapsed, every), every)
    ensures var after := Elapse(b, elapsed, every);
      && after.counter.date == b.counter.date
      && after.counter.seconds - b.counter.seconds == after.counted - b.counted >= 0
      && (after.counted - b.counted) * SECOND + after.fraction == elapsed + b.fraction
      && forall d :: UsageOn(after.usage, d) >= UsageOn(b.usage, d)
  {
    if elapsed > 0 {
      CounterOperations(Metered(b.counter, b.usage), WholeSeconds(b.fraction + elapsed), every);
    }
  }

  /** The books up to the last midnight, and the ones the new date opens with. */
  function BeforeMidnight(m: Meter, b: Books, now: int, every: int): Books
    requires SoundBooks(b, every) && (m.lastShouldCount ==> m.lastAt.Some?)
  {
    if m.lastShouldCount && m.lastHadSession
    then Elapse(b, CappedElapsed(m.lastAt.value, Midnight(now), m.lastCountUntil), every)
    else b
  }

  ghost function AfterMidnight(b: Books, disk: Disk, control: RemoteControl, hasSession: bool, now: int,
                               every: int): Books
    requires disk.policy.Some? && SoundBooks(b, every)
  {
    var decision := DecideAt(disk, b.counter, control, Midnight(now));
    if decision.shouldCount && hasSession
    then Elapse(b, CappedElapsed(Midnight(now), now, decision.nextBlockAt), every)
    else b
  }

  lemma NewDaySound(b: Books, date: Date, every: int)
    requires SoundBooks(b, every) && forall d :: d in b.usage ==> b.usage[d] >= 0
    ensures SoundBooks(NewDay(b, date), every)
    ensures NewDay(b, date).counter.date == date
    ensures NewDay(b, date).counter.seconds == UsageOn(NewDay(b, date).usage, date)
    ensures forall d :: UsageOn(NewDay(b, date).usage, d) >= UsageOn(b.usage, d)
    ensures forall d :: d in NewDay(b, date).usage ==> NewDay(b, date).usage[d] >= 0
  {
    LoadIsSound(Flushed(Metered(b.counter, b.usage)).usage, date, every);
  }

  lemma ElapseKeepsUsage(b: Books, elapsed: nat, every: int)
    requires SoundBooks(b, every) && forall d :: d in b.usage ==> b.usage[d] >= 0
    ensures forall d :: d in Elapse(b, elapsed, every).usage ==> Elapse(b, elapsed, every).usage[d] >= 0
  {
  }

  ghost function Account(m: Meter, disk: Disk, control: RemoteControl, hasSession: bool, now: int,
                         every: int): (b: Books)
    requires SoundRows(disk) && disk.policy.Some? && SoundMeter(m, disk.usage, every)
    ensures SoundBooks(b, every)
    ensures b.counter.date == DateOf(now)
    ensures forall d :: d in b.usage ==> b.usage[d] >= 0
    ensures forall d :: UsageOn(b.usage, d) >= UsageOn(disk.usage, d)
  {
    var date := DateOf(now);
    if m.counter.None? then
      LoadIsSound(disk.usage, date, every);
      Books(LoadCounter(disk.usage, date), disk.usage, 0, 0)
    else
      var b := Books(m.counter.value, disk.usage, m.fraction, 0);
      if b.counter.date != date then
        var elapsed := if m.lastShouldCount && m.lastHadSession
                       then CappedElapsed(m.lastAt.value, Midnight(now), m.lastCountUntil) else 0;
        ElapseSound(b, elapsed, every);
        ElapseKeepsUsage(b, elapsed, every);
        var closed := BeforeMidnight(m, b, now, every);
        NewDaySound(closed, date, every);
        var next := NewDay(closed, date);
        var opening := DecideAt(disk, next.counter, control, Midnight(now));
        var later := CappedElapsed(Midnight(now), now, opening.nextBlockAt);
        ElapseSound(next, later, every);
        ElapseKeepsUsage(next, later, every);
        AfterMidnight(next, disk, control, hasSession, now, every)
      else if m.lastShouldCount && m.lastHadSession then
        var elapsed := CappedElapsed(m.lastAt.value, now, m.lastCountUntil);
        ElapseSound(b, elapsed, every);
        ElapseKeepsUsage(b, elapsed, every);
        Elapse(b, elapsed, every)
      else b
  }

  /** Server-confirmed usage of the day is never undercut. */
  function Reconcile(b: Books, anchor: Option<Anchor>, date: Date): Books
    requires b.counter.seconds >= 0
  {
    if anchor.Some? && anchor.value.date == date && b.counter.seconds < anchor.value.usage then
      var m := Raised(Metered(b.counter, b.usage), anchor.value.usage);
      b.(counter := m.counter, usage := m.usage)
    else b
  }

  predicate Awaiting(disk: Disk, control: RemoteControl, session: Option<Session>, date: Date)
    requires disk.policy.Some?
  {
    && control.online && !control.paused && !control.blocked && session.Some?
    && (|| disk.anchor.None?
        || disk.anchor.value.sessionId != session.value.key
        || disk.anchor.value.date != date
        || disk.anchor.value.revision < disk.policy.value.revision)
  }

  const AwaitingDecision: Decision := Decision(true, AwaitingSynchronization, 0, false, None, None, None)

  datatype Cycle = Cycle(meter: Meter, disk: Disk, decision: Decision, awaiting: bool)

  ghost function Step(m: Meter, disk: Disk, control: RemoteControl, sessions: seq<Session>, now: int, every: int): Cycle
    requires SoundRows(disk) && disk.policy.Some? && SoundMeter(m, disk.usage, every)
  {
    var session := FirstActive(sessions);
    var observed := ObserveEffect(disk, control, session);
    var b := Reconcile(Account(m, observed, control, sessions != [], now, every), disk.anchor, DateOf(now));
    var awaiting := Awaiting(disk, control, session, DateOf(now));
    var decision := if awaiting then AwaitingDecision else DecideAt(disk, b.counter, control, now);
    var books := if !decision.allowed && m.lastShouldCount then
                   var flushed := Flushed(Metered(b.counter, b.usage));
                   b.(counter := flushed.counter, usage := flushed.usage)
                 else b;
    Cycle(
      Meter(Some(books.counter), Some(now), decision.shouldCount, sessions != [], decision.nextBlockAt, books.fraction),
      observed.(usage := books.usage),
      decision,
      awaiting)
  }
}
