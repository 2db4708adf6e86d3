/**
  When the client tries again: the server's interval after a success, an immediate
  follow-up after commands, and a doubling backoff after failures, measured from
  the start of the failed attempt.
*/
module Cadence {
  import opened Wrappers
  import opened Calendar

  const MINIMUM_INTERVAL: int := SECOND
  const MAXIMUM_INTERVAL: int := 10 * MINUTE

  datatype Attempt =
    | Failed(duration: nat)
    | Succeeded(nextSeconds: int, commands: bool)

  predicate SafeInterval(interval: int) {
    MINIMUM_INTERVAL <= interval <= MAXIMUM_INTERVAL
  }

  function NextInterval(serverSeconds: int, fallback: int): (interval: int)
    ensures SafeInterval(fallback) ==> SafeInterval(interval)
    ensures interval == serverSeconds * SECOND || interval == fallback
    ensures SafeInterval(serverSeconds * SECOND) ==> interval == serverSeconds * SECOND
  {
    if serverSeconds < MINIMUM_INTERVAL / SECOND || serverSeconds > MAXIMUM_INTERVAL / SECOND
    then fallback else serverSeconds * SECOND
  }

  function InitialBackoff(interval: int): int {
    if interval < SECOND then interval else SECOND
  }

  function Min(a: int, b: int): int {
    if a < b then a else b
  }

  function Power(k: nat): (p: int)
    ensures p >= 1
  {
    if k == 0 then 1 else 2 * Power(k - 1)
  }

  // ------------------------------------------------------- what a run of attempts says

  /** The interval in force after these attempts. */
  function Interval(attempts: seq<Attempt>, fallback: int): int {
    if attempts == [] then fallback else
      match attempts[|attempts| - 1]
      case Failed(_) => Interval(attempts[..|attempts| - 1], fallback)
      case Succeeded(nextSeconds, _) => NextInterval(nextSeconds, fallback)
  }

  /** How many attempts have failed in a row at the end. */
  function Failures(attempts: seq<Attempt>): nat {
    if attempts == [] || attempts[|attempts| - 1].Succeeded? then 0
    else Failures(attempts[..|attempts| - 1]) + 1
  }

  /** The last attempt succeeded and was followed up at once. */
  predicate FollowedUp(attempts: seq<Attempt>) {
    && attempts != [] && attempts[|attempts| - 1].Succeeded? && attempts[|attempts| - 1].commands
    && !FollowedUp(attempts[..|attempts| - 1])
  }

  /** The wait after the last of these attempts. */
  function Wait(attempts: seq<Attempt>, fallback: int): int
    requires attempts != []
  {
    match attempts[|attempts| - 1]
    case Failed(duration) =>
      Positive(Min(Interval(attempts, fallback), Power(Failures(attempts) - 1) * SECOND) - duration)
    case Succeeded(_, _) => if FollowedUp(attempts) then 0 else Interval(attempts, fallback)
  }

  /** The client's loop over the attempts of a run.  The k-th failure in a row
      waits for 2^(k-1) seconds, the normal interval at most, less what the attempt
      itself took. */
  method Run(attempts: seq<Attempt>, fallback: int) returns (delays: seq<int>)
    requires SafeInterval(fallback)
    ensures |delays| == |attempts|
    ensures forall i :: 0 <= i < |attempts| ==> delays[i] == Wait(attempts[..i + 1], fallback)
  {
    var delay := 0;
    var normalInterval := fallback;
    var initialBackoff := InitialBackoff(normalInterval);
    var backoff := initialBackoff;
    var fastFollowUp := false;
    delays := [];
    for i := 0 to |attempts|
      invariant |delays| == i
      invariant forall j :: 0 <= j < i ==> delays[j] == Wait(attempts[..j + 1], fallback)
      invariant SafeInterval(normalInterval) && normalInterval == Interval(attempts[..i], fallback)
      invariant backoff == Min(normalInterval, Power(Failures(attempts[..i])) * SECOND)
      invariant fastFollowUp == FollowedUp(attempts[..i])
    {
      assert attempts[..i + 1][..i] == attempts[..i];
      match attempts[i] {
        case Failed(duration) =>
          fastFollowUp := false;
          delay := backoff - duration;
          if delay < 0 {
            delay := 0;
          }
          backoff := backoff * 2;
          if backoff > normalInterval {
            backoff := normalInterval;
          }
        case Succeeded(nextSeconds, commands) =>
          normalInterval := NextInterval(nextSeconds, fallback);
          initialBackoff := InitialBackoff(normalInterval);
          backoff := initialBackoff;
          if commands && !fastFollowUp {
            delay := 0;
            fastFollowUp := true;
          } else {
            delay := normalInterval;
            fastFollowUp := false;
          }
      }
      delays := delays + [delay];
    }
  }

  lemma {:induction false} IntervalIsSafe(attempts: seq<Attempt>, fallback: int)
    requires SafeInterval(fallback)
    ensures SafeInterval(Interval(attempts, fallback))
    decreases |attempts|
  {
    if attempts != [] && attempts[|attempts| - 1].Failed? {
      IntervalIsSafe(attempts[..|attempts| - 1], fallback);
    }
  }

  /** A server that repeats a command cannot cause a busy loop: of two successes in
      a row at most one is followed by no wait. */
  lemma NoBusyLoop(attempts: seq<Attempt>, fallback: int, i: nat)
    requires SafeInterval(fallback) && i + 1 < |attempts|
    requires attempts[i].Succeeded? && attempts[i + 1].Succeeded?
    ensures Wait(attempts[..i + 1], fallback) > 0 || Wait(attempts[..i + 2], fallback) > 0
  {
    assert attempts[..i + 2][..i + 1] == attempts[..i + 1];
    IntervalIsSafe(attempts[..i + 1], fallback);
    IntervalIsSafe(attempts[..i + 2], fallback);
  }

  /** Failures never wait longer than the normal interval, and a failure after k - 1
      others waits at least as long as its predecessor if they took equally long. */
  lemma {:induction false} BackoffGrows(attempts: seq<Attempt>, fallback: int, duration: nat)
    requires SafeInterval(fallback) && attempts != [] && attempts[|attempts| - 1] == Failed(duration)
    ensures Wait(attempts, fallback) <= Wait(attempts + [Failed(duration)], fallback) <= Interval(attempts, fallback)
  {
    var next := attempts + [Failed(duration)];
    assert next[..|next| - 1] == attempts;
    IntervalIsSafe(attempts, fallback);
    assert Failures(next) == Failures(attempts) + 1;
    assert Power(Failures(attempts)) == 2 * Power(Failures(attempts) - 1);
  }

  // -------------------------------------------------------------- wait by wait

  /** The interval in force: the one of the last success, if the server asked for one
      between a second and ten minutes, and the configured one otherwise. */
  lemma IntervalInForce(attempts: seq<Attempt>, fallback: int, duration: nat, seconds: int, commands: bool)
    ensures Interval([], fallback) == fallback
    ensures Interval(attempts + [Failed(duration)], fallback) == Interval(attempts, fallback)
    ensures Interval(attempts + [Succeeded(seconds, commands)], fallback)
         == if 1 <= seconds <= 600 then seconds * SECOND else fallback
  {
    assert (attempts + [Failed(duration)])[..|attempts|] == attempts;
  }

  lemma OneMoreFailure(attempts: seq<Attempt>, fallback: int, duration: nat)
    ensures var next := attempts + [Failed(duration)];
      && Failures(next) == Failures(attempts) + 1 && Interval(next, fallback) == Interval(attempts, fallback)
      && Wait(next, fallback)
         == Positive(Min(Interval(attempts, fallback), Power(Failures(attempts)) * SECOND) - duration)
  {
    var next := attempts + [Failed(duration)];
    assert next[|next| - 1] == Failed(duration) && next[..|next| - 1] == attempts;
  }

  /** The first failure waits for a second, less what the attempt itself took. */
  lemma FirstFailureWaits(attempts: seq<Attempt>, fallback: int, duration: nat)
    requires SafeInterval(fallback)
    requires attempts == [] || attempts[|attempts| - 1].Succeeded?
    ensures Wait(attempts + [Failed(duration)], fallback) == if duration < SECOND then SECOND - duration else 0
  {
    OneMoreFailure(attempts, fallback, duration);
    IntervalIsSafe(attempts, fallback);
    assert Power(0) == 1;
  }

  /** Every further failure waits for twice as long as the last one would have had it
      taken no time, for the interval at most, less what the attempt itself took. */
  lemma FailureDoubles(attempts: seq<Attempt>, fallback: int, first: nat, second: nat)
    requires SafeInterval(fallback)
    ensures var before := Wait(attempts + [Failed(0)], fallback);
      var backoff := if 2 * before < Interval(attempts, fallback) then 2 * before else Interval(attempts, fallback);
      Wait(attempts + [Failed(first), Failed(second)], fallback)
      == if second < backoff then backoff - second else 0
  {
    hide Failures, Interval, Wait;
    OneMoreFailure(attempts, fallback, 0);
    OneMoreFailure(attempts, fallback, first);
    OneMoreFailure(attempts + [Failed(first)], fallback, second);
    assert attempts + [Failed(first)] + [Failed(second)] == attempts + [Failed(first), Failed(second)];
    IntervalIsSafe(attempts, fallback);
    assert Power(Failures(attempts) + 1) == 2 * Power(Failures(attempts));
  }

  /** A success is followed up at once if it brought commands and is not itself such a
      follow-up; otherwise the interval it asks for is waited. */
  lemma {:induction false} SuccessWaits(attempts: seq<Attempt>, fallback: int, seconds: int, commands: bool)
    requires SafeInterval(fallback)
    ensures Wait(attempts + [Succeeded(seconds, commands)], fallback)
         == if commands && (attempts == [] || attempts[|attempts| - 1].Failed? || Wait(attempts, fallback) > 0) then 0
            else if 1 <= seconds <= 600 then seconds * SECOND else fallback
  {
    var next := attempts + [Succeeded(seconds, commands)];
    assert next[|next| - 1] == Succeeded(seconds, commands) && next[..|next| - 1] == attempts;
    IntervalIsSafe(attempts, fallback);
    IntervalInForce(attempts, fallback, 0, seconds, commands);
    assert FollowedUp(next) <==> commands && !FollowedUp(attempts);
    assert FollowedUp(attempts) <==>
      attempts != [] && attempts[|attempts| - 1].Succeeded? && Wait(attempts, fallback) == 0;
  }
}
