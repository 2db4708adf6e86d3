/**
  Switching between online and offline authority.  Online the daemon trusts the
  anchor, offline its own tables; here is when, and by how much, they differ.
*/
module Balances {
  import opened Wrappers
  import opened Calendar
  import opened Policy
  import opened Records
  import opened AgentTables
  import opened Usage
  import opened Accounting
  import opened ServerTables
  import opened Heartbeat
  import opened System
  import opened PolicyInvariant
  import opened UsageInvariant
  import opened CreditInvariant
  import opened LocalInvariant
  import opened OrderInvariant
  import opened AnchorInvariant
  import opened Safety

  ghost predicate AnchorCurrent(s: State) {
    s.disk.anchor.Some? && s.disk.policy.Some? && s.disk.anchor.value.revision == s.disk.policy.value.revision
  }

  /** Credits the anchor covers, less credits the agent's own rows cover, for the
      anchor's date, plus what the server's clamp added. */
  ghost function Gap(s: State): int
    requires AnchorCurrent(s)
  {
    var a := s.disk.anchor.value;
    TotalBonus(CreditedRows(s.server.bonus, s.history.credits, a.revision), a.date)
    - TotalBonus(OfOrigin(s.disk.bonus, Web), a.date)
    + s.history.excess
  }

  /** The balance of the agent's own tables before it is cut off at zero. */
  ghost function RawBalance(disk: Disk, counter: Counter): int
    requires disk.policy.Some?
  {
    disk.policy.value.quota[WeekdayOfDate(counter.date)] + TotalBonus(disk.bonus, counter.date) - counter.seconds
  }

  ghost predicate MetersAnchor(s: State) {
    AnchorCurrent(s) && s.meter.counter.Some? && s.meter.counter.value.date == s.disk.anchor.value.date
  }

  lemma {:induction false} AnchorGap(s: State)
    requires UsageInv(s) && AnchorInv(s) && MetersAnchor(s)
    requires s.history.policies[s.disk.anchor.value.revision] == s.disk.policy.value
    requires OfOrigin(s.disk.bonus, Local) == GrantRows(s.history.grants)
    ensures var counter := s.meter.counter.value;
      && AnchorBalance(s.disk.anchor, counter) == Positive(RawBalance(s.disk, counter) + Gap(s))
      && LocalBalance(s.disk, counter, WeekdayOfDate(counter.date)) == Positive(RawBalance(s.disk, counter))
  {
    var counter, a := s.meter.counter.value, s.disk.anchor.value;
    assert Exact(Metered(counter, s.disk.usage)) && Sound(Metered(counter, s.disk.usage), s.every);
    assert counter.seconds >= a.usage;
    TotalByOrigin(s.disk.bonus, a.date);
  }

  lemma {:induction false} InvGap(s: State)
    requires Inv(s) && MetersAnchor(s)
    ensures var counter := s.meter.counter.value;
      && AnchorBalance(s.disk.anchor, counter) == Positive(RawBalance(s.disk, counter) + Gap(s))
      && LocalBalance(s.disk, counter, WeekdayOfDate(counter.date)) == Positive(RawBalance(s.disk, counter))
  {
    hide CreditInv, OrderInv, UsageInv, AnchorInv, Sendings;
    AnchorGap(s);
  }

  /** In every reachable state with a current anchor the two balances differ by
      exactly the gap. */
  lemma {:induction false} AnchorIsCache(every: int, labels: seq<Label>)
    requires every > 0 && MetersAnchor(Run(Init(every), labels))
    ensures var s := Run(Init(every), labels);
      var counter := s.meter.counter.value;
      && AnchorBalance(s.disk.anchor, counter) == Positive(RawBalance(s.disk, counter) + Gap(s))
      && LocalBalance(s.disk, counter, WeekdayOfDate(counter.date)) == Positive(RawBalance(s.disk, counter))
  {
    hide Inv;
    RunInv(every, labels);
    InvGap(Run(Init(every), labels));
  }

  /** The agent holds every credit the anchor covers. */
  ghost predicate Delivered(s: State)
    requires s.disk.anchor.Some?
  {
    forall id :: id in s.history.credits && s.history.credits[id].revision <= s.disk.anchor.value.revision ==>
      id in s.disk.bonus
  }

  /** No credit counts for a date on one side and for another date on the other. */
  ghost predicate SameDates(s: State, date: Date) {
    forall id :: id in s.disk.bonus && id in s.history.credits && id in s.server.bonus ==>
      (s.server.bonus[id].date == date <==> s.disk.bonus[id].date == date)
  }

  ghost predicate Balanced(s: State) {
    AnchorCurrent(s) && Delivered(s) && SameDates(s, s.disk.anchor.value.date)
  }

  lemma SameTotals(h: History, rows: BonusTable, held: BonusTable, revision: int, date: Date)
    requires Rows(h, rows) && Rows(h, held)
    requires forall id :: id in held && id in h.credits ==> id in rows && h.credits[id].revision <= revision
    requires forall id :: id in h.credits && h.credits[id].revision <= revision ==> id in held
    requires forall id :: id in held && id in h.credits && id in rows ==>
      (rows[id].date == date <==> held[id].date == date)
    ensures TotalBonus(CreditedRows(rows, h.credits, revision), date) == TotalBonus(OfOrigin(held, Web), date)
  {
    assert Dated(CreditedRows(rows, h.credits, revision), date) == Dated(OfOrigin(held, Web), date);
  }

  lemma {:induction false} NoGap(s: State)
    requires Inv(s) && Balanced(s)
    ensures Gap(s) == s.history.excess >= 0
  {
    var a := s.disk.anchor.value;
    SameTotals(s.history, s.server.bonus, s.disk.bonus, a.revision, a.date);
  }

  /** With every credit delivered and dated alike, going online or offline never
      lowers the balance, and changes it only if the server's clamp fired. */
  lemma {:induction false} SwitchingKeepsBalance(every: int, labels: seq<Label>)
    requires every > 0
    requires var s := Run(Init(every), labels); MetersAnchor(s) && Balanced(s)
    ensures var s := Run(Init(every), labels);
      var counter := s.meter.counter.value;
      var online := AnchorBalance(s.disk.anchor, counter);
      var offline := LocalBalance(s.disk, counter, WeekdayOfDate(counter.date));
      && online >= offline
      && (s.history.excess == 0 ==> online == offline)
  {
    hide Inv, Balanced, Gap;
    RunInv(every, labels);
    AnchorIsCache(every, labels);
    NoGap(Run(Init(every), labels));
  }

  /** The same for what the daemon decides with: the remaining time it computes
      online is the one it computes offline. */
  lemma {:induction false} SwitchingKeepsRemaining(every: int, labels: seq<Label>,
                                                   online: RemoteControl, offline: RemoteControl, at: int)
    requires every > 0 && online.online && !offline.online
    requires var s := Run(Init(every), labels);
      MetersAnchor(s) && Balanced(s) && s.history.excess == 0 && DateOf(at) == s.disk.anchor.value.date
    ensures var s := Run(Init(every), labels);
      Remaining(InputFor(s.disk, s.meter.counter.value, online, at))
      == Remaining(InputFor(s.disk, s.meter.counter.value, offline, at))
  {
    RunInv(every, labels);
    var s := Run(Init(every), labels);
    SwitchingKeepsBalance(every, labels);
    InputIsValid(s.disk, s.meter.counter.value, online, at);
    InputIsValid(s.disk, s.meter.counter.value, offline, at);
  }

  // -------------------------------------------------------------- how long it lasts

  lemma NewCreditsAreLater(s: State, l: Label)
    requires s.history.credits.Keys <= s.history.used
    ensures var h, h' := s.history, Next(s, l).history;
      && (forall id :: id in h.credits ==> id in h'.credits && h'.credits[id] == h.credits[id])
      && (forall id :: id in h'.credits && id !in h.credits ==> h'.credits[id].revision > s.server.policy.revision)
  {
    match l
    case QueueCredit(id, seconds) =>
    case Cycle(now, sessions) => CycleFrame(s, now, sessions);
    case Deliver =>
      if s.exchange.Sent? && Receive(s.server, s.exchange.env.req).Success? {
        var resp := DeliverFrame(s);
      }
    case _ => assert Next(s, l).history.credits == s.history.credits;
  }

  /** A balanced state stays balanced through every step that leaves the revision
      and the date in force: grants, accounting, refused, lost and uneventful
      heartbeats, credits still on their way, crashes. */
  lemma {:induction false} BalancedStays(s: State, l: Label)
    requires Inv(s) && Balanced(s)
    requires AnchorCurrent(Next(s, l))
    requires Next(s, l).disk.anchor.value.revision == s.disk.anchor.value.revision
    requires Next(s, l).disk.anchor.value.date == s.disk.anchor.value.date
    ensures Balanced(Next(s, l))
  {
    StepInv(s, l);
    NothingGoesBack(s, l);
    NewCreditsAreLater(s, l);
    StaysBalanced(s, Next(s, l));
  }

  lemma {:induction false} StaysBalanced(s: State, s': State)
    requires Inv(s) && Inv(s') && Balanced(s) && AnchorCurrent(s')
    requires s'.disk.anchor.value.revision == s.disk.anchor.value.revision
    requires s'.disk.anchor.value.date == s.disk.anchor.value.date
    requires RowsStay(s.disk.bonus, s'.disk.bonus) && RowsStay(s.server.bonus, s'.server.bonus)
    requires forall id :: id in s.history.credits ==>
      id in s'.history.credits && s'.history.credits[id] == s.history.credits[id]
    requires forall id :: id in s'.history.credits && id !in s.history.credits ==>
      s'.history.credits[id].revision > s.server.policy.revision
    ensures Balanced(s')
  {
    hide UsageInv, LocalInv, OrderInv, AnchorInv, Commands, Requests, Replies;
    var revision, date := s.disk.anchor.value.revision, s.disk.anchor.value.date;
    forall id | id in s'.history.credits && s'.history.credits[id].revision <= revision
      ensures id in s.history.credits && id in s.disk.bonus && id in s.server.bonus
    {
    }
    forall id | id in s'.disk.bonus && id in s'.history.credits && id in s'.server.bonus
      ensures s'.server.bonus[id].date == date <==> s'.disk.bonus[id].date == date
    {
      assert s'.history.credits[id].revision <= revision;
    }
  }

  /** Every state on the way has the anchor of the first, and a policy that goes
      with it. */
  ghost predicate SameAnchorThroughout(s: State, more: seq<Label>) {
    forall k :: 0 <= k <= |more| ==>
      && AnchorCurrent(Run(s, more[..k])) && s.disk.anchor.Some?
      && Run(s, more[..k]).disk.anchor.value.revision == s.disk.anchor.value.revision
      && Run(s, more[..k]).disk.anchor.value.date == s.disk.anchor.value.date
  }

  /** Once balanced, the two authorities stay balanced however the run goes on, as
      long as the revision and the date in force stay: through grants, accounting,
      lost, refused and uneventful heartbeats, queued credits and crashes. */
  lemma {:induction false} BalancedLasts(every: int, labels: seq<Label>, more: seq<Label>)
    requires every > 0
    requires var s := Run(Init(every), labels); Balanced(s) && SameAnchorThroughout(s, more)
    ensures Balanced(Run(Init(every), labels + more))
    decreases |more|
  {
    hide Inv, Balanced, Next, AnchorCurrent;
    var s := Run(Init(every), labels);
    RunConcat(Init(every), labels, more);
    if more != [] {
      var front, l := more[..|more| - 1], more[|more| - 1];
      forall k | 0 <= k <= |front|
        ensures front[..k] == more[..k]
      {
      }
      assert SameAnchorThroughout(s, front);
      BalancedLasts(every, labels, front);
      RunConcat(Init(every), labels, front);
      RunInv(every, labels + front);
      assert more[..|more|] == more;
      BalancedStays(Run(s, front), l);
    }
  }

  // -------------------------------------------------------------- one local date

  /** All heartbeats so far were for one date, and so are all web rows. */
  ghost predicate OneDay(s: State, date: Date) {
    && (forall env :: env in s.history.sent ==> env.req.date == date)
    && (forall id :: id in s.server.bonus && s.server.bonus[id].origin == Web ==> s.server.bonus[id].date == date)
    && (forall id :: id in s.disk.bonus && s.disk.bonus[id].origin == Web ==> s.disk.bonus[id].date == date)
  }

  lemma AbsorbedDates(s: State, env: Envelope)
    requires Inv(s) && env in s.history.sent
    ensures var rows := Heard(s, env).server.bonus;
      forall id :: id in rows && id !in s.server.bonus && rows[id].origin == Web ==> rows[id].date == env.req.date
  {
    var queued := QueuedCredits(s.server.commands, s.server.bonus);
    var credited := InsertCredits(s.server.bonus, queued, env.req.date);
    CreditsInserted(s.server.bonus, queued, env.req.date);
    EventsInserted(credited, env.req.events);
    assert forall e :: e in env.req.events ==> e in s.history.grants;
  }

  lemma AppliedDates(disk: Disk, req: Request, resp: Response, phase: Phase)
    requires !phase.Done? && ApplyPhase(disk, req, resp, phase).Success?
    ensures var d := ApplyPhase(disk, req, resp, phase).value.0;
      forall id :: id in d.bonus && id !in disk.bonus ==> d.bonus[id].date == req.date
    ensures var d := ApplyPhase(disk, req, resp, phase).value.0;
      forall id :: id in disk.bonus ==> id in d.bonus && d.bonus[id] == disk.bonus[id]
  {
    PhaseFrame(disk, req, resp, phase);
  }

  lemma OneDayStays(s: State, s': State, date: Date)
    requires OneDay(s, date)
    requires s'.history.sent == s.history.sent
    requires s'.server.bonus == s.server.bonus && s'.disk.bonus == s.disk.bonus
    ensures OneDay(s', date)
  {
  }

  lemma OneDayHeard(s: State, env: Envelope, date: Date)
    requires Inv(s) && OneDay(s, date) && env in s.history.sent
    ensures OneDay(Heard(s, env), date)
  {
    hide Absorb;
    AbsorbedDates(s, env);
    AbsorbGrows(s, env);
  }

  lemma {:induction false} OneDayApply(s: State, date: Date)
    requires Inv(s) && OneDay(s, date)
    ensures OneDay(AfterApply(s), date)
  {
    if s.exchange.Applying? && !s.exchange.phase.Done? {
      var env, resp, phase := s.exchange.env, s.exchange.resp, s.exchange.phase;
      hide ApplyPhase;
      assert env in s.history.sent;
      if ApplyPhase(s.disk, env.req, resp, phase).Success? {
        AppliedDates(s.disk, env.req, resp, phase);
      }
    }
  }

  lemma {:induction false} OneDayDeliver(s: State, date: Date)
    requires Inv(s) && OneDay(s, date)
    ensures OneDay(AfterDeliver(s), date)
  {
    if s.exchange.Sent? && Receive(s.server, s.exchange.env.req).Success? {
      assert s.exchange.env in s.history.sent;
      var resp := DeliverFrame(s);
      OneDayHeard(s, s.exchange.env, date);
      OneDayStays(Heard(s, s.exchange.env), AfterDeliver(s), date);
    }
  }

  /** The steps that date no row. */
  lemma {:induction false} OneDayOther(s: State, l: Label, date: Date)
    requires OneDay(s, date) && (l.Build? ==> l.date == date)
    requires !l.Admin? && !l.Cycle? && !l.Deliver? && !l.Stray? && !l.Apply?
    ensures OneDay(Next(s, l), date)
  {
  }

  lemma {:induction false} OneDayStep(s: State, l: Label, date: Date)
    requires Inv(s) && OneDay(s, date) && (l.Build? ==> l.date == date)
    ensures OneDay(Next(s, l), date)
  {
    hide Inv, OneDay, QueueControl, InsertGrant;
    match l
    case Admin(op) =>
      AdminRevision(s.server, op);
      OneDayStays(s, AfterChange(s, op), date);
    case Cycle(now, sessions) =>
      CycleFrame(s, now, sessions);
      OneDayStays(s, AfterCycle(s, now, sessions), date);
    case Deliver => OneDayDeliver(s, date);
    case Stray(env) =>
      if env in s.history.sent { OneDayHeard(s, env, date); }
    case Apply => OneDayApply(s, date);
    case _ => OneDayOther(s, l, date);
  }

  /** On a run whose heartbeats all fall on one date, both sides date every credit
      alike. */
  lemma {:induction false} OneDayRun(every: int, labels: seq<Label>, date: Date)
    requires every > 0 && forall l :: l in labels && l.Build? ==> l.date == date
    ensures OneDay(Run(Init(every), labels), date)
    ensures SameDates(Run(Init(every), labels), date)
    decreases |labels|
  {
    if labels != [] {
      var front := labels[..|labels| - 1];
      OneDayRun(every, front, date);
      RunInv(every, front);
      OneDayStep(Run(Init(every), front), labels[|labels| - 1], date);
    }
    RunInv(every, labels);
    var s := Run(Init(every), labels);
    assert Rows(s.history, s.disk.bonus) && Rows(s.history, s.server.bonus);
  }
}
