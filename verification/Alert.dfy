/**
  Desktop warnings before a block: thresholds are planned backwards from the block,
  and each is emitted at most once per authorisation period.
*/
module Alert {
  import opened Wrappers
  import opened Calendar
  import opened Policy
  import opened Records

  datatype Kind = Primary | FiveMinute | OneMinute

  /** `minutes` is what the texts of the notification say is left. */
  datatype Alert = Alert(at: int, kind: Kind, reason: Option<Reason>, minutes: int)

  datatype Period = Period(revision: int, sessionId: Id, date: Date)

  datatype AlertError = NegativeWarning | TimeBackwards

  const MINIMUM_REARM: int := 30 * SECOND

  predicate HasFutureBlock(d: Decision) {
    d.allowed && d.nextBlockAt.Some?
  }

  // ------------------------------------------------------------------- planning

  function MinutesBetween(at: int, block: int): int {
    (block - at) / MINUTE
  }

  function AlertAt(d: Decision, at: int, kind: Kind): Alert
    requires HasFutureBlock(d)
  {
    Alert(at, kind, d.nextBlockReason, MinutesBetween(at, d.nextBlockAt.value))
  }

  ghost predicate Ascending(row: seq<Alert>) {
    forall i, j :: 0 <= i < j < |row| ==> row[i].at < row[j].at
  }

  /** A table keyed by instant, kept in order: the later entry for an instant wins. */
  function Put(row: seq<Alert>, a: Alert): seq<Alert> {
    if row == [] || a.at < row[0].at then [a] + row
    else if a.at == row[0].at then [a] + row[1..]
    else [row[0]] + Put(row[1..], a)
  }

  lemma {:induction false} PutHolds(row: seq<Alert>, a: Alert)
    requires Ascending(row)
    ensures Ascending(Put(row, a))
    ensures forall x :: x in Put(row, a) <==> x == a || (x in row && x.at != a.at)
  {
    if row != [] && a.at >= row[0].at {
      assert forall x :: x in row[1..] ==> x.at > row[0].at;
      PutHolds(row[1..], a);
    }
  }

  function WithThreshold(row: seq<Alert>, d: Decision, lead: int, kind: Kind): seq<Alert>
    requires HasFutureBlock(d)
  {
    var at := d.nextBlockAt.value - lead;
    if at < d.nextBlockAt.value then Put(row, AlertAt(d, at, kind)) else row
  }

  /** The thresholds before a known block, in the order they fall due. */
  function Planned(d: Decision, warningMinutes: nat): seq<Alert> {
    if !HasFutureBlock(d) then [] else
      var primary := WithThreshold([], d, warningMinutes * MINUTE, Primary);
      var fiveMinute := WithThreshold(primary, d, 5 * MINUTE, FiveMinute);
      WithThreshold(fiveMinute, d, MINUTE, OneMinute)
  }

  function Lead(kind: Kind, warningMinutes: nat): int {
    match kind
    case Primary => warningMinutes * MINUTE
    case FiveMinute => 5 * MINUTE
    case OneMinute => MINUTE
  }

  lemma WithThresholdHolds(row: seq<Alert>, d: Decision, lead: int, kind: Kind)
    requires HasFutureBlock(d) && Ascending(row)
    ensures var at := d.nextBlockAt.value - lead;
      && Ascending(WithThreshold(row, d, lead, kind))
      && forall x :: x in WithThreshold(row, d, lead, kind) <==>
           (lead > 0 && x == AlertAt(d, at, kind)) || (x in row && (lead > 0 ==> x.at != at))
  {
    PutHolds(row, AlertAt(d, d.nextBlockAt.value - lead, kind));
  }

  /** The three thresholds, each at its lead before the block; the configured one
      gives way when it coincides with a fixed one or with the block itself. */
  lemma PlannedExactly(d: Decision, warningMinutes: nat, a: Alert)
    requires HasFutureBlock(d)
    ensures a in Planned(d, warningMinutes) <==>
      && a == AlertAt(d, d.nextBlockAt.value - Lead(a.kind, warningMinutes), a.kind)
      && (a.kind == Primary ==> warningMinutes != 0 && warningMinutes != 1 && warningMinutes != 5)
    ensures Ascending(Planned(d, warningMinutes))
  {
    hide MinutesBetween, WithThreshold;
    var primary := WithThreshold([], d, warningMinutes * MINUTE, Primary);
    var fiveMinute := WithThreshold(primary, d, 5 * MINUTE, FiveMinute);
    WithThresholdHolds([], d, warningMinutes * MINUTE, Primary);
    WithThresholdHolds(primary, d, 5 * MINUTE, FiveMinute);
    WithThresholdHolds(fiveMinute, d, MINUTE, OneMinute);
  }

  /** In minutes: an alert says how long it comes before the block. */
  lemma PlannedMinutes(d: Decision, warningMinutes: nat, a: Alert)
    requires HasFutureBlock(d)
    ensures a in Planned(d, warningMinutes) <==>
      && a.at == d.nextBlockAt.value - a.minutes * 60 * SECOND && a.reason == d.nextBlockReason
      && (|| (a.kind == OneMinute && a.minutes == 1)
          || (a.kind == FiveMinute && a.minutes == 5)
          || (a.kind == Primary && a.minutes == warningMinutes && warningMinutes !in {0, 1, 5}))
  {
    hide Planned;
    PlannedExactly(d, warningMinutes, a);
  }

  lemma PlannedInOrder(d: Decision, warningMinutes: nat)
    ensures Ascending(Planned(d, warningMinutes))
  {
    if HasFutureBlock(d) {
      PlannedExactly(d, warningMinutes, AlertAt(d, 0, Primary));
    }
  }

  // -------------------------------------------------------------------- tracking

  datatype Track = Track(
    initialized: bool,
    active: bool,
    period: Period,
    reason: Option<Reason>,
    previousCycle: int,
    previousBlockAt: Option<int>,
    emitted: set<Kind>)

  const FreshTrack: Track := Track(false, false, Period(0, "", 0), None, 0, None, {})

  function Observe(t: Track, d: Decision, period: Period, now: int): Track {
    Track(t.initialized, HasFutureBlock(d), period, d.nextBlockReason, now, d.nextBlockAt, t.emitted)
  }

  predicate Postponed(t: Track, d: Decision) {
    && t.previousBlockAt.Some? && d.nextBlockAt.Some?
    && d.nextBlockAt.value - t.previousBlockAt.value >= MINIMUM_REARM
  }

  /** A new authorisation period, a new reason, or a block moved well away. */
  predicate Rearms(t: Track, d: Decision, period: Period) {
    !t.active || t.period != period || t.reason != d.nextBlockReason || Postponed(t, d)
  }

  predicate Crossed(a: Alert, since: int, now: int, emitted: set<Kind>) {
    since < a.at <= now && a.kind !in emitted
  }

  /** The planned alerts crossed since the previous observation, in order. */
  function Sweep(planned: seq<Alert>, since: int, now: int, emitted: set<Kind>): seq<Alert> {
    if planned == [] then []
    else if Crossed(planned[0], since, now, emitted) then
      [planned[0]] + Sweep(planned[1..], since, now, emitted + {planned[0].kind})
    else Sweep(planned[1..], since, now, emitted)
  }

  lemma SweepStep(planned: seq<Alert>, k: nat, since: int, now: int, emitted: set<Kind>)
    requires k < |planned|
    ensures Sweep(planned[k..], since, now, emitted)
         == if Crossed(planned[k], since, now, emitted)
            then [planned[k]] + Sweep(planned[k + 1..], since, now, emitted + {planned[k].kind})
            else Sweep(planned[k + 1..], since, now, emitted)
  {
    assert planned[k..][1..] == planned[k + 1..];
  }

  lemma SweepNothing(planned: seq<Alert>, since: int, now: int, emitted: set<Kind>)
    requires planned == []
    ensures Sweep(planned, since, now, emitted) == []
  {
  }

  function Kinds(alerts: seq<Alert>): set<Kind> {
    set a | a in alerts :: a.kind
  }

  ghost function Due(t: Track, d: Decision, warningMinutes: int, period: Period, now: int, deliver: bool)
    : Result<(Track, seq<Alert>), AlertError>
  {
    if warningMinutes < 0 then Failure(NegativeWarning)
    else if t.initialized && now < t.previousCycle then Failure(TimeBackwards)
    else if !t.initialized then Success((Observe(t.(initialized := true), d, period, now), []))
    else if !HasFutureBlock(d) then Success((t.(active := false, previousCycle := now, previousBlockAt := None), []))
    else if Rearms(t, d, period) then Success((Observe(t.(emitted := {}), d, period, now), []))
    else
      var crossed := Sweep(Planned(d, warningMinutes), t.previousCycle, now, t.emitted);
      Success((Observe(t.(emitted := t.emitted + Kinds(crossed)), d, period, now),
               if deliver && crossed != [] then [crossed[|crossed| - 1]] else []))
  }

  lemma KindsAppend(seen: seq<Alert>, a: Alert)
    ensures Kinds(seen + [a]) == Kinds(seen) + {a.kind}
  {
    forall kind | kind in Kinds(seen) + {a.kind}
      ensures kind in Kinds(seen + [a])
    {
      if kind in Kinds(seen) {
        var b :| b in seen && b.kind == kind;
        assert b in seen + [a];
      } else {
        assert a in seen + [a];
      }
    }
  }

  /** One more alert of a sweep, after those already seen. */
  lemma {:induction false} SweepOneMore(planned: seq<Alert>, k: nat, since: int, now: int, emitted: set<Kind>,
                                        seen: seq<Alert>, all: seq<Alert>)
    requires k < |planned| && all == seen + Sweep(planned[k..], since, now, emitted)
    ensures Kinds(seen + [planned[k]]) == Kinds(seen) + {planned[k].kind}
    ensures if Crossed(planned[k], since, now, emitted)
            then all == seen + [planned[k]] + Sweep(planned[k + 1..], since, now, emitted + {planned[k].kind})
            else all == seen + Sweep(planned[k + 1..], since, now, emitted)
  {
    hide Sweep, Kinds, Crossed;
    SweepStep(planned, k, since, now, emitted);
    KindsAppend(seen, planned[k]);
  }

  class Tracker {
    var initialized: bool
    var active: bool
    var period: Period
    var reason: Option<Reason>
    var previousCycle: int
    var previousBlockAt: Option<int>
    var emitted: set<Kind>

    function State(): Track
      reads this
    {
      Track(initialized, active, period, reason, previousCycle, previousBlockAt, emitted)
    }

    constructor ()
      ensures State() == FreshTrack
    {
      initialized, active, period, reason := false, false, Period(0, "", 0), None;
      previousCycle, previousBlockAt, emitted := 0, None, {};
    }

    method Record(d: Decision, period: Period, now: int)
      modifies this
      ensures State() == Observe(old(State()), d, period, now)
    {
      active := HasFutureBlock(d);
      this.period := period;
      reason := d.nextBlockReason;
      previousCycle := now;
      previousBlockAt := d.nextBlockAt;
    }

    /** A refused observation changes nothing. */
    method DueAlerts(d: Decision, warningMinutes: int, period: Period, now: int, deliver: bool)
      returns (result: Result<seq<Alert>, AlertError>)
      modifies this
      ensures match Due(old(State()), d, warningMinutes, period, now, deliver)
        case Failure(error) => result == Failure(error) && State() == old(State())
        case Success(r) => result == Success(r.1) && State() == r.0
    {
      if warningMinutes < 0 {
        return Failure(NegativeWarning);
      }
      if initialized && now < previousCycle {
        return Failure(TimeBackwards);
      }
      if !initialized {
        initialized := true;
        Record(d, period, now);
        return Success([]);
      }
      var postponed := previousBlockAt.Some? && d.nextBlockAt.Some?
        && d.nextBlockAt.value - previousBlockAt.value >= MINIMUM_REARM;
      var newPeriod := !active || this.period != period || reason != d.nextBlockReason || postponed;
      if !HasFutureBlock(d) {
        active := false;
        previousCycle := now;
        previousBlockAt := None;
        return Success([]);
      }
      if newPeriod {
        emitted := {};
        Record(d, period, now);
        return Success([]);
      }
      result := Emit(d, warningMinutes, now, deliver);
      Record(d, period, now);
    }

    /** Consumes the crossed thresholds and keeps the last one that may be shown. */
    method Emit(d: Decision, warningMinutes: nat, now: int, deliver: bool)
      returns (result: Result<seq<Alert>, AlertError>)
      modifies this`emitted
      ensures var crossed := Sweep(Planned(d, warningMinutes), previousCycle, now, old(emitted));
        && emitted == old(emitted) + Kinds(crossed)
        && result == Success(if deliver && crossed != [] then [crossed[|crossed| - 1]] else [])
    {
      assert Kinds([]) == {};
      hide Planned, Kinds, Sweep, Crossed;
      var mostUrgent: Option<Alert> := None;
      var planned := Planned(d, warningMinutes);
      ghost var all := Sweep(planned, previousCycle, now, emitted);
      assert planned[0..] == planned;
      ghost var seen: seq<Alert> := [];
      for k := 0 to |planned|
        invariant all == seen + Sweep(planned[k..], previousCycle, now, emitted)
        invariant emitted == old(emitted) + Kinds(seen)
        invariant mostUrgent == if deliver && seen != [] then Some(seen[|seen| - 1]) else None
      {
        SweepOneMore(planned, k, previousCycle, now, emitted, seen, all);
        if Crossed(planned[k], previousCycle, now, emitted) {
          emitted := emitted + {planned[k].kind};
          seen := seen + [planned[k]];
          if deliver {
            mostUrgent := Some(planned[k]);
          }
        }
      }
      SweepNothing(planned[|planned|..], previousCycle, now, emitted);
      assert seen == all;
      return Success(if mostUrgent.Some? then [mostUrgent.value] else []);
    }
  }

  // ------------------------------------------------------------------ over a run

  datatype Observation = Observation(decision: Decision, warningMinutes: int, period: Period, now: int, deliver: bool)

  ghost function Track1(t: Track, o: Observation): Track {
    match Due(t, o.decision, o.warningMinutes, o.period, o.now, o.deliver)
    case Success(r) => r.0
    case Failure(_) => t
  }

  ghost function Returned(t: Track, o: Observation): seq<Alert> {
    match Due(t, o.decision, o.warningMinutes, o.period, o.now, o.deliver)
    case Success(r) => r.1
    case Failure(_) => []
  }

  ghost function TrackAfter(t: Track, run: seq<Observation>): Track {
    if run == [] then t else Track1(TrackAfter(t, run[..|run| - 1]), run[|run| - 1])
  }

  /** The observation stays within the cycle: it is not the first, the block is
      still ahead, and nothing rearms. */
  predicate Continues(t: Track, o: Observation) {
    t.initialized && HasFutureBlock(o.decision) && !Rearms(t, o.decision, o.period)
  }

  lemma OtherKindCrosses(a: Alert, since: int, now: int, emitted: set<Kind>, kind: Kind)
    requires a.kind != kind
    ensures Crossed(a, since, now, emitted + {kind}) <==> Crossed(a, since, now, emitted)
  {
  }

  /** Kinds that occur once each: what a sweep finds is what was newly crossed. */
  lemma {:induction false} SweepMembers(planned: seq<Alert>, since: int, now: int, emitted: set<Kind>)
    requires forall i, j :: 0 <= i < j < |planned| ==> planned[i].kind != planned[j].kind
    ensures forall a :: a in Sweep(planned, since, now, emitted) <==> a in planned && Crossed(a, since, now, emitted)
  {
    if planned != [] {
      hide Crossed;
      var head, tail := planned[0], planned[1..];
      if Crossed(head, since, now, emitted) {
        SweepMembers(tail, since, now, emitted + {head.kind});
        forall a | a in tail
          ensures Crossed(a, since, now, emitted + {head.kind}) <==> Crossed(a, since, now, emitted)
        {
          OtherKindCrosses(a, since, now, emitted, head.kind);
        }
      } else {
        SweepMembers(tail, since, now, emitted);
      }
    }
  }

  /** A sweep keeps the order of what was planned. */
  lemma {:induction false} SweepInOrder(planned: seq<Alert>, since: int, now: int, emitted: set<Kind>)
    requires Ascending(planned)
    ensures Ascending(Sweep(planned, since, now, emitted))
    ensures forall a :: a in Sweep(planned, since, now, emitted) ==> a in planned
  {
    if planned != [] {
      hide Crossed;
      var head, tail := planned[0], planned[1..];
      if Crossed(head, since, now, emitted) {
        SweepInOrder(tail, since, now, emitted + {head.kind});
        var rest := Sweep(tail, since, now, emitted + {head.kind});
        forall a | a in rest
          ensures head.at < a.at
        {
          var k :| 0 <= k < |tail| && tail[k] == a;
        }
      } else {
        SweepInOrder(tail, since, now, emitted);
      }
    }
  }

  lemma {:induction false} SweepFinds(planned: seq<Alert>, since: int, now: int, emitted: set<Kind>)
    requires forall i, j :: 0 <= i < j < |planned| ==> planned[i].kind != planned[j].kind
    requires Ascending(planned)
    ensures var crossed := Sweep(planned, since, now, emitted);
      && (forall a :: a in crossed <==> a in planned && Crossed(a, since, now, emitted))
      && (forall a :: a in crossed ==> a.at <= crossed[|crossed| - 1].at)
  {
    hide Sweep, Crossed;
    SweepMembers(planned, since, now, emitted);
    SweepInOrder(planned, since, now, emitted);
  }

  lemma KindsDiffer(d: Decision, warningMinutes: nat)
    ensures var planned := Planned(d, warningMinutes);
      forall i, j :: 0 <= i < j < |planned| ==> planned[i].kind != planned[j].kind
  {
    var planned := Planned(d, warningMinutes);
    PlannedInOrder(d, warningMinutes);
    forall i, j | 0 <= i < j < |planned|
      ensures planned[i].kind != planned[j].kind
    {
      PlannedExactly(d, warningMinutes, planned[i]);
      PlannedExactly(d, warningMinutes, planned[j]);
    }
  }

  ghost predicate NewlyCrossed(t: Track, o: Observation, a: Alert) {
    o.warningMinutes >= 0 && a in Planned(o.decision, o.warningMinutes) && Crossed(a, t.previousCycle, o.now, t.emitted)
  }

  /** One call returns at most one alert: the newly crossed threshold nearest to the
      block.  Whatever was crossed is consumed, delivered or not. */
  lemma NearestOnly(t: Track, o: Observation)
    requires o.warningMinutes >= 0 && (t.initialized ==> t.previousCycle <= o.now)
    ensures var got := Returned(t, o);
      && |got| <= 1
      && (got != [] <==> o.deliver && Continues(t, o) && exists a :: NewlyCrossed(t, o, a))
      && (got != [] ==> NewlyCrossed(t, o, got[0]) && forall a :: NewlyCrossed(t, o, a) ==> a.at <= got[0].at)
    ensures Continues(t, o) ==>
      forall k :: k in Track1(t, o).emitted <==> k in t.emitted || exists a :: NewlyCrossed(t, o, a) && a.kind == k
  {
    hide Planned;
    KindsDiffer(o.decision, o.warningMinutes);
    PlannedInOrder(o.decision, o.warningMinutes);
    var planned := Planned(o.decision, o.warningMinutes);
    SweepFinds(planned, t.previousCycle, o.now, t.emitted);
    var crossed := Sweep(planned, t.previousCycle, o.now, t.emitted);
    assert forall a :: a in crossed <==> NewlyCrossed(t, o, a);
    if crossed != [] {
      assert crossed[|crossed| - 1] in crossed;
    }
  }

  /** When a cycle of alerts begins: with the first block ahead, another policy revision,
      session or date, another reason, or a block put off by thirty seconds.  Then the
      consumed kinds are forgotten and nothing is returned; otherwise none is forgotten. */
  lemma {:induction false} CycleBegins(t: Track, o: Observation)
    requires t.initialized && t.previousCycle <= o.now && o.warningMinutes >= 0
    requires o.decision.allowed && o.decision.nextBlockAt.Some?
    ensures var next := Track1(t, o);
      var begins := || !t.active
                    || t.period.revision != o.period.revision || t.period.sessionId != o.period.sessionId
                    || t.period.date != o.period.date || t.reason != o.decision.nextBlockReason
                    || (t.previousBlockAt.Some?
                        && o.decision.nextBlockAt.value >= t.previousBlockAt.value + 30 * SECOND);
      && (begins ==> next.emitted == {} && Returned(t, o) == [])
      && (!begins ==> t.emitted <= next.emitted)
      && next == Track(true, true, o.period, o.decision.nextBlockReason, o.now, o.decision.nextBlockAt, next.emitted)
  {
  }

  /** What the other observations do: the first only initializes, one without a block
      ahead ends the cycle, and a refused one changes nothing. */
  lemma {:induction false} CycleEnds(t: Track, o: Observation)
    ensures o.warningMinutes < 0 || (t.initialized && o.now < t.previousCycle) ==>
      Track1(t, o) == t && Returned(t, o) == []
    ensures o.warningMinutes >= 0 && !t.initialized ==>
      && Returned(t, o) == []
      && Track1(t, o) == Track(true, o.decision.allowed && o.decision.nextBlockAt.Some?, o.period,
                               o.decision.nextBlockReason, o.now, o.decision.nextBlockAt, t.emitted)
    ensures o.warningMinutes >= 0 && t.initialized && t.previousCycle <= o.now
            && !(o.decision.allowed && o.decision.nextBlockAt.Some?) ==>
      && Returned(t, o) == []
      && Track1(t, o) == t.(active := false, previousCycle := o.now, previousBlockAt := None)
  {
  }

  /** Nothing is returned unless it may be delivered and a block is ahead. */
  lemma ReturnedIsDeliverable(t: Track, o: Observation)
    ensures Returned(t, o) != [] ==> o.deliver && o.decision.allowed && o.decision.nextBlockAt.Some?
  {
  }

  /** A kind consumed within a cycle, delivered or not, is not returned again while
      the cycle lasts. */
  lemma {:induction false} ConsumedStaysConsumed(t: Track, run: seq<Observation>, kind: Kind)
    requires kind in t.emitted
    requires forall m :: 0 <= m < |run| ==> Continues(TrackAfter(t, run[..m]), run[m])
    ensures kind in TrackAfter(t, run).emitted
    ensures run != [] ==> kind !in Kinds(Returned(TrackAfter(t, run[..|run| - 1]), run[|run| - 1]))
    decreases |run|
  {
    if run != [] {
      var front, o := run[..|run| - 1], run[|run| - 1];
      forall m | 0 <= m < |front|
        ensures Continues(TrackAfter(t, front[..m]), front[m])
      {
        assert front[..m] == run[..m];
      }
      ConsumedStaysConsumed(t, front, kind);
      var before := TrackAfter(t, front);
      if o.warningMinutes >= 0 && before.previousCycle <= o.now {
        NearestOnly(before, o);
      }
    }
  }

  lemma ReturnedIsConsumed(t: Track, o: Observation, kind: Kind)
    requires kind in Kinds(Returned(t, o))
    ensures Continues(t, o) && kind !in t.emitted && kind in Track1(t, o).emitted
  {
    NearestOnly(t, o);
  }

  /** No kind is returned twice by a stretch of observations that stays within one
      cycle after its first. */
  lemma OncePerStretch(t: Track, o: Observation, run: seq<Observation>, kind: Kind)
    requires run != [] && kind in Kinds(Returned(t, o))
    requires forall m :: 0 <= m < |run| ==> Continues(TrackAfter(Track1(t, o), run[..m]), run[m])
    ensures kind !in Kinds(Returned(TrackAfter(Track1(t, o), run[..|run| - 1]), run[|run| - 1]))
  {
    ReturnedIsConsumed(t, o, kind);
    ConsumedStaysConsumed(Track1(t, o), run, kind);
  }

  /** The observations after position `first`, seen from there. */
  lemma Suffix(t: Track, run: seq<Observation>, first: nat, m: nat)
    requires first + 1 + m <= |run|
    ensures TrackAfter(Track1(TrackAfter(t, run[..first]), run[first]), run[first + 1..][..m])
         == TrackAfter(t, run[..first + 1 + m])
  {
    assert run[..first + 1][..first] == run[..first];
    assert run[..first + 1] + run[first + 1..][..m] == run[..first + 1 + m];
    TrackConcat(t, run[..first + 1], run[first + 1..][..m]);
  }

  /** Each kind is returned at most once per cycle: it comes back only after some
      observation started a new cycle or lost the block. */
  lemma OncePerCycle(t: Track, run: seq<Observation>, first: nat, second: nat, kind: Kind)
    requires first < second < |run|
    requires kind in Kinds(Returned(TrackAfter(t, run[..first]), run[first]))
    requires forall m :: first < m <= second ==> Continues(TrackAfter(t, run[..m]), run[m])
    ensures kind !in Kinds(Returned(TrackAfter(t, run[..second]), run[second]))
  {
    hide Track1, Returned, Continues, TrackAfter, Kinds;
    var later := run[first + 1..second + 1];
    var after := Track1(TrackAfter(t, run[..first]), run[first]);
    forall m | 0 <= m < |later|
      ensures TrackAfter(after, later[..m]) == TrackAfter(t, run[..first + 1 + m])
      ensures Continues(TrackAfter(after, later[..m]), later[m])
    {
      assert later[..m] == run[first + 1..][..m];
      assert later[m] == run[first + 1 + m];
      Suffix(t, run, first, m);
    }
    OncePerStretch(TrackAfter(t, run[..first]), run[first], later, kind);
    assert first + 1 + (|later| - 1) == second;
  }

  lemma {:induction false} TrackConcat(t: Track, a: seq<Observation>, b: seq<Observation>)
    ensures TrackAfter(t, a + b) == TrackAfter(TrackAfter(t, a), b)
    decreases |b|
  {
    if b == [] {
      assert a + b == a;
    } else {
      assert (a + b)[..|a + b| - 1] == a + b[..|b| - 1];
      TrackConcat(t, a, b[..|b| - 1]);
    }
  }

  // ------------------------------------------------------- a block that stays put

  /** Two decisions that predict the same block for the same reason, whatever else
      has changed: the time left, say. */
  predicate SameBlock(d: Decision, e: Decision) {
    d.allowed == e.allowed && d.nextBlockAt == e.nextBlockAt && d.nextBlockReason == e.nextBlockReason
  }

  lemma SamePlan(d: Decision, e: Decision, warningMinutes: nat)
    requires SameBlock(d, e)
    ensures Planned(d, warningMinutes) == Planned(e, warningMinutes)
  {
  }

  predicate InTime(from: int, run: seq<Observation>) {
    && (forall m :: 0 <= m < |run| ==> from <= run[m].now)
    && (forall m, n :: 0 <= m < n < |run| ==> run[m].now <= run[n].now)
  }

  function LastSeen(t: Track, run: seq<Observation>): int {
    if run == [] then t.previousCycle else run[|run| - 1].now
  }

  /** Observations of one predicted block, in order, within the tracker's cycle. */
  ghost predicate Steady(t: Track, d: Decision, warningMinutes: nat, run: seq<Observation>) {
    && HasFutureBlock(d)
    && t.initialized && t.active && t.reason == d.nextBlockReason && t.previousBlockAt == d.nextBlockAt
    && InTime(t.previousCycle, run)
    && (forall m :: 0 <= m < |run| ==>
          run[m].warningMinutes == warningMinutes && run[m].period == t.period && SameBlock(d, run[m].decision))
  }

  /** With a fixed block no threshold between observations is skipped: exactly the
      thresholds since the cycle began are consumed, and every observation that may
      deliver returns the last threshold crossed since the one before. */
  lemma {:induction false} NothingSkipped(t: Track, d: Decision, warningMinutes: nat, run: seq<Observation>)
    requires Steady(t, d, warningMinutes, run) && t.emitted == {}
    ensures var end := TrackAfter(t, run);
      && end == t.(previousCycle := LastSeen(t, run), emitted := end.emitted)
      && forall k :: k in end.emitted <==>
           exists a :: a in Planned(d, warningMinutes) && a.kind == k && t.previousCycle < a.at <= LastSeen(t, run)
    ensures run != [] ==>
      var before, o := TrackAfter(t, run[..|run| - 1]), run[|run| - 1];
      forall a :: NewlyCrossed(before, o, a) <==>
        a in Planned(d, warningMinutes) && before.previousCycle < a.at <= o.now
    decreases |run|
  {
    if run != [] {
      var front, o := run[..|run| - 1], run[|run| - 1];
      NothingSkipped(t, d, warningMinutes, front);
      var before := TrackAfter(t, front);
      SamePlan(d, o.decision, warningMinutes);
      FreshThresholds(t, d, warningMinutes, before, o);
      NearestOnly(before, o);
    }
  }

  /** A threshold after the last observation has not been consumed yet. */
  lemma {:induction false} FreshThresholds(t: Track, d: Decision, warningMinutes: nat, before: Track, o: Observation)
    requires HasFutureBlock(d) && o.warningMinutes == warningMinutes
    requires Planned(o.decision, warningMinutes) == Planned(d, warningMinutes)
    requires forall k :: k in before.emitted ==>
      exists a :: a in Planned(d, warningMinutes) && a.kind == k && t.previousCycle < a.at <= before.previousCycle
    ensures forall a :: a in Planned(d, warningMinutes) && before.previousCycle < a.at <= o.now ==>
      NewlyCrossed(before, o, a)
  {
    hide Planned;
    forall a | a in Planned(d, warningMinutes) && before.previousCycle < a.at <= o.now
      ensures a.kind !in before.emitted
    {
      forall b | b in Planned(d, warningMinutes) && b.kind == a.kind
        ensures b.at == a.at
      {
        PlannedExactly(d, warningMinutes, a);
        PlannedExactly(d, warningMinutes, b);
      }
    }
  }

  /** Re-evaluations of one counting decision on its date, before its block, predict
      the block it predicted; so a tracker that follows them skips no threshold. */
  lemma {:induction false} ReevaluationsAreSteady(t: Track, input: Input, warningMinutes: nat, run: seq<Observation>)
    requires Validate(input).None? && Decide(input).shouldCount
    requires t.initialized && t.active && t.previousCycle >= input.now
    requires t.reason == Decide(input).nextBlockReason && t.previousBlockAt == Decide(input).nextBlockAt
    requires InTime(t.previousCycle, run)
    requires forall m :: 0 <= m < |run| ==>
      && run[m].warningMinutes == warningMinutes && run[m].period == t.period
      && DateOf(run[m].now) == DateOf(input.now)
      && run[m].decision == Decide(Advance(input, run[m].now))
      && (Decide(input).nextBlockAt.Some? ==> run[m].now < Decide(input).nextBlockAt.value)
    ensures Steady(t, Decide(input), warningMinutes, run)
  {
    hide Decide;
    Precedence(input);
    forall m | 0 <= m < |run|
      ensures SameBlock(Decide(input), run[m].decision)
    {
      PredictionHolds(input, run[m].now);
    }
  }

  // ------------------------------------------------------------ a block that drifts

  /** The block predicted while whole seconds are counted since `base` out of `total`:
      it moves by the fraction of a second not counted yet. */
  function CountdownBlock(base: int, total: int, now: int): int
    requires base <= now
  {
    now + (total - WholeSeconds(now - base)) * SECOND
  }

  lemma CountdownShape(base: int, total: int, now: int)
    requires base <= now
    ensures var fraction := now - base - WholeSeconds(now - base) * SECOND;
      0 <= fraction < SECOND && CountdownBlock(base, total, now) == base + total * SECOND + fraction
  {
  }

  function LeadSeconds(kind: Kind, warningMinutes: nat): int {
    match kind
    case Primary => warningMinutes * 60
    case FiveMinute => 300
    case OneMinute => 60
  }

  /** The counted second at which a kind of alert is due. */
  function DueSecond(total: int, kind: Kind, warningMinutes: nat): int {
    total - LeadSeconds(kind, warningMinutes)
  }

  predicate IsPlanned(kind: Kind, warningMinutes: nat) {
    kind == Primary ==> warningMinutes != 0 && warningMinutes != 1 && warningMinutes != 5
  }

  /** The decision of a countdown at an instant. */
  predicate CountsDown(d: Decision, base: int, total: int, now: int, reason: Option<Reason>) {
    base <= now && d.allowed && d.nextBlockReason == reason && d.nextBlockAt == Some(CountdownBlock(base, total, now))
  }

  /** The tracker's cycle began within a countdown, and these observations follow it. */
  ghost predicate Countdown(t: Track, base: int, total: int, warningMinutes: nat, run: seq<Observation>) {
    && t.initialized && t.active && base <= t.previousCycle
    && t.previousBlockAt == Some(CountdownBlock(base, total, t.previousCycle))
    && InTime(t.previousCycle, run)
    && (forall m :: 0 <= m < |run| ==>
          && run[m].warningMinutes == warningMinutes && run[m].period == t.period
          && CountsDown(run[m].decision, base, total, run[m].now, t.reason))
  }

  /** A planned kind falls due among the seconds counted after `since`, up to `now`. */
  predicate DueBetween(base: int, total: int, warningMinutes: nat, since: int, now: int, kind: Kind)
    requires base <= since && base <= now
  {
    && IsPlanned(kind, warningMinutes)
    && WholeSeconds(since - base) < DueSecond(total, kind, warningMinutes) <= WholeSeconds(now - base)
  }

  function AlertFor(d: Decision, kind: Kind, warningMinutes: nat): Alert
    requires HasFutureBlock(d)
  {
    AlertAt(d, d.nextBlockAt.value - Lead(kind, warningMinutes), kind)
  }

  /** In terms of seconds counted: when a kind's alert lies between two observations. */
  lemma {:induction false} CountdownCrossing(d: Decision, base: int, total: int, warningMinutes: nat,
                                             since: int, now: int, reason: Option<Reason>, kind: Kind)
    requires base <= since <= now && CountsDown(d, base, total, now, reason)
    ensures var a, due := AlertFor(d, kind, warningMinutes), DueSecond(total, kind, warningMinutes);
      && (a.at <= now <==> due <= WholeSeconds(now - base))
      && (WholeSeconds(since - base) < due ==> since < a.at)
      && (since < a.at ==> WholeSeconds(since - base) <= due)
  {
    CountdownShape(base, total, now);
    assert Lead(kind, warningMinutes) == LeadSeconds(kind, warningMinutes) * SECOND;
  }

  /** A countdown is followed by the tracker without rearming: its block moves by less
      than a second. */
  lemma {:induction false} CountdownContinues(t: Track, base: int, total: int, o: Observation)
    requires t.initialized && t.active && base <= t.previousCycle <= o.now && o.period == t.period
    requires t.previousBlockAt == Some(CountdownBlock(base, total, t.previousCycle))
    requires CountsDown(o.decision, base, total, o.now, t.reason)
    ensures Continues(t, o)
  {
    CountdownShape(base, total, t.previousCycle);
    CountdownShape(base, total, o.now);
  }

  /** Which kinds a cycle that began at `start` must and may have consumed. */
  ghost predicate Consumed(emitted: set<Kind>, base: int, total: int, warningMinutes: nat, start: int, last: int)
    requires base <= start && base <= last
  {
    && (forall k :: DueBetween(base, total, warningMinutes, start, last, k) ==> k in emitted)
    && (forall k :: k in emitted ==>
          && IsPlanned(k, warningMinutes)
          && WholeSeconds(start - base) <= DueSecond(total, k, warningMinutes) <= WholeSeconds(last - base))
  }

  /** Every kind due since the previous observation is found by this one. */
  ghost predicate FindsDue(t: Track, base: int, total: int, o: Observation)
    requires base <= t.previousCycle <= o.now && HasFutureBlock(o.decision) && o.warningMinutes >= 0
  {
    forall k :: DueBetween(base, total, o.warningMinutes, t.previousCycle, o.now, k) ==>
      NewlyCrossed(t, o, AlertFor(o.decision, k, o.warningMinutes))
  }

  /** However an observed countdown is polled, no threshold is skipped although the
      predicted block moves: every planned kind due after the seconds counted when the
      cycle began, and no later than the ones counted now, has been consumed; nothing
      is consumed before it is due; and the first observation that has counted the due
      second is the one that finds the threshold. */
  lemma {:induction false} CountdownSkipsNothing(t: Track, base: int, total: int, warningMinutes: nat,
                                                 run: seq<Observation>)
    requires Countdown(t, base, total, warningMinutes, run) && t.emitted == {}
    ensures var end, last := TrackAfter(t, run), LastSeen(t, run);
      && base <= t.previousCycle <= last
      && end == t.(previousCycle := last, emitted := end.emitted,
                   previousBlockAt := Some(CountdownBlock(base, total, last)))
      && Consumed(end.emitted, base, total, warningMinutes, t.previousCycle, last)
    ensures run != [] ==>
      var before, o := TrackAfter(t, run[..|run| - 1]), run[|run| - 1];
      && base <= before.previousCycle <= o.now && HasFutureBlock(o.decision)
      && FindsDue(before, base, total, o)
    decreases |run|
  {
    if run != [] {
      hide CountdownBlock, WholeSeconds, Track1, Consumed, FindsDue;
      var front, o := run[..|run| - 1], run[|run| - 1];
      CountdownSkipsNothing(t, base, total, warningMinutes, front);
      var before := TrackAfter(t, front);
      CountdownStep(before, base, total, o, t.previousCycle);
    } else {
      assert Consumed({}, base, total, warningMinutes, t.previousCycle, t.previousCycle);
    }
  }

  /** Hence the first observation that has counted a due second, if it may deliver,
      returns an alert. */
  lemma {:induction false} CountdownReturns(t: Track, base: int, total: int, warningMinutes: nat,
                                            run: seq<Observation>, kind: Kind)
    requires Countdown(t, base, total, warningMinutes, run) && t.emitted == {} && run != []
    requires run[|run| - 1].deliver && base <= LastSeen(t, run[..|run| - 1])
    requires DueBetween(base, total, warningMinutes, LastSeen(t, run[..|run| - 1]), run[|run| - 1].now, kind)
    ensures |Returned(TrackAfter(t, run[..|run| - 1]), run[|run| - 1])| == 1
  {
    hide CountdownBlock, WholeSeconds, Track1, Returned, Consumed, DueBetween, Continues, NewlyCrossed;
    var front, o := run[..|run| - 1], run[|run| - 1];
    CountdownSkipsNothing(t, base, total, warningMinutes, front);
    CountdownSkipsNothing(t, base, total, warningMinutes, run);
    CountdownContinues(TrackAfter(t, front), base, total, o);
    NearestOnly(TrackAfter(t, front), o);
  }

  /** The tracker's last observation was one of a countdown, and `o` is the next. */
  ghost predicate NextInCountdown(t: Track, base: int, total: int, o: Observation) {
    && t.initialized && t.active && base <= t.previousCycle <= o.now
    && t.previousBlockAt == Some(CountdownBlock(base, total, t.previousCycle))
    && o.warningMinutes >= 0 && o.period == t.period
    && CountsDown(o.decision, base, total, o.now, t.reason)
  }

  lemma {:induction false} DueIsFound(t: Track, base: int, total: int, o: Observation, kind: Kind)
    requires NextInCountdown(t, base, total, o)
    requires kind !in t.emitted && DueBetween(base, total, o.warningMinutes, t.previousCycle, o.now, kind)
    ensures NewlyCrossed(t, o, AlertFor(o.decision, kind, o.warningMinutes))
  {
    hide Planned, CountdownBlock, WholeSeconds;
    CountdownCrossing(o.decision, base, total, o.warningMinutes, t.previousCycle, o.now, t.reason, kind);
    PlannedExactly(o.decision, o.warningMinutes, AlertFor(o.decision, kind, o.warningMinutes));
  }

  lemma {:induction false} FoundIsDue(t: Track, base: int, total: int, o: Observation, a: Alert)
    requires NextInCountdown(t, base, total, o) && NewlyCrossed(t, o, a)
    ensures IsPlanned(a.kind, o.warningMinutes)
    ensures WholeSeconds(t.previousCycle - base) <= DueSecond(total, a.kind, o.warningMinutes)
    ensures DueSecond(total, a.kind, o.warningMinutes) <= WholeSeconds(o.now - base)
  {
    hide Planned, CountdownBlock, WholeSeconds;
    CountdownCrossing(o.decision, base, total, o.warningMinutes, t.previousCycle, o.now, t.reason, a.kind);
    PlannedExactly(o.decision, o.warningMinutes, a);
  }

  lemma {:induction false} CountdownStep(t: Track, base: int, total: int, o: Observation, start: int)
    requires NextInCountdown(t, base, total, o) && base <= start <= t.previousCycle
    requires Consumed(t.emitted, base, total, o.warningMinutes, start, t.previousCycle)
    ensures var end := Track1(t, o);
      && end == t.(previousCycle := o.now, emitted := end.emitted,
                   previousBlockAt := Some(CountdownBlock(base, total, o.now)))
      && Consumed(end.emitted, base, total, o.warningMinutes, start, o.now)
    ensures FindsDue(t, base, total, o)
  {
    CountdownContinues(t, base, total, o);
    hide Planned, Sweep, CountdownBlock, WholeSeconds, NewlyCrossed, IsPlanned, DueSecond;
    SecondsGrow(base, start, t.previousCycle);
    SecondsGrow(base, t.previousCycle, o.now);
    var emitted := Track1(t, o).emitted;
    CountdownFinds(t, base, total, o, start);
    assert Consumed(emitted, base, total, o.warningMinutes, start, o.now) by {
      hide Track1, Rearms, AlertAt;
      NearestOnly(t, o);
      forall k | k in emitted && k !in t.emitted
        ensures IsPlanned(k, o.warningMinutes)
        ensures WholeSeconds(start - base) <= DueSecond(total, k, o.warningMinutes) <= WholeSeconds(o.now - base)
      {
        var a :| NewlyCrossed(t, o, a) && a.kind == k;
        FoundIsDue(t, base, total, o, a);
      }
      forall k | DueBetween(base, total, o.warningMinutes, start, o.now, k)
        ensures k in emitted
      {
        if k !in t.emitted {
          assert !DueBetween(base, total, o.warningMinutes, start, t.previousCycle, k);
          assert NewlyCrossed(t, o, AlertFor(o.decision, k, o.warningMinutes));
        }
      }
    }
  }

  lemma {:induction false} CountdownFinds(t: Track, base: int, total: int, o: Observation, start: int)
    requires NextInCountdown(t, base, total, o) && base <= start <= t.previousCycle
    requires Consumed(t.emitted, base, total, o.warningMinutes, start, t.previousCycle)
    ensures FindsDue(t, base, total, o)
  {
    hide Planned, CountdownBlock, WholeSeconds, NewlyCrossed, IsPlanned, DueSecond;
    forall k | DueBetween(base, total, o.warningMinutes, t.previousCycle, o.now, k)
      ensures NewlyCrossed(t, o, AlertFor(o.decision, k, o.warningMinutes))
    {
      DueIsFound(t, base, total, o, k);
    }
  }

  lemma SecondsGrow(base: int, earlier: int, later: int)
    requires base <= earlier <= later
    ensures WholeSeconds(earlier - base) <= WholeSeconds(later - base)
  {
  }
}
