/**
  The local password: a correct one grants a bonus, wrong ones slow the next
  attempt down.
*/
module LocalAuth {
  import opened Wrappers
  import opened Calendar
  import opened Records
  import opened AgentTables
  import opened AgentStore
  import opened ServerTables
  import opened System

  /** Whether the password matches the stored verifier, if that can be read at all. */
  datatype Verdict = Correct | Wrong | Unreadable

  datatype GrantError =
    | InvalidSeconds
    | RateLimited
    | PolicyMissing
    | PasswordNotConfigured
    | VerifierUnreadable
    | WrongPassword
    | StoreRefused

  datatype Guard = Guard(failed: nat, nextAttemptAt: Option<int>)

  const FreshGuard: Guard := Guard(0, None)

  function BackoffForFailure(failures: int): int {
    if failures <= 0 then 0
    else if failures == 1 then 2 * SECOND
    else if failures == 2 then 5 * SECOND
    else if failures == 3 then 15 * SECOND
    else if failures == 4 then MINUTE
    else 5 * MINUTE
  }

  predicate Throttled(g: Guard, now: int) {
    g.nextAttemptAt.Some? && now < g.nextAttemptAt.value
  }

  function AfterWrong(g: Guard, now: int): Guard {
    Guard(g.failed + 1, Some(now + BackoffForFailure(g.failed + 1)))
  }

  /** Why an attempt is turned away, before its password counts for anything. */
  function TurnedAway(g: Guard, disk: Disk, verdict: Verdict, seconds: int, now: int): Option<GrantError> {
    if seconds < MIN_GRANT || seconds > MAX_LOCAL_BONUS then Some(InvalidSeconds)
    else if Throttled(g, now) then Some(RateLimited)
    else if disk.policy.None? then Some(PolicyMissing)
    else if disk.policy.value.verifier == "" then Some(PasswordNotConfigured)
    else if verdict.Unreadable? then Some(VerifierUnreadable)
    else None
  }

  /** Passwords are checked only for a bonus between a minute and twelve hours, once the
      delay is over, against a verifier that is there. */
  lemma TurnedAwayMeaning(g: Guard, disk: Disk, verdict: Verdict, seconds: int, now: int)
    ensures TurnedAway(g, disk, verdict, seconds, now)
         == if !(60 <= seconds <= 12 * 3600) then Some(InvalidSeconds)
            else if g.nextAttemptAt.Some? && now < g.nextAttemptAt.value then Some(RateLimited)
            else if disk.policy == None then Some(PolicyMissing)
            else if disk.policy.value.verifier == "" then Some(PasswordNotConfigured)
            else if verdict == Unreadable then Some(VerifierUnreadable)
            else None
  {
  }

  /** The guard after an attempt: a wrong password that was checked moves it, a correct
      one resets it. */
  function AfterAttempt(g: Guard, disk: Disk, verdict: Verdict, seconds: int, now: int): Guard {
    if TurnedAway(g, disk, verdict, seconds, now).Some? then g
    else if verdict.Wrong? then AfterWrong(g, now)
    else FreshGuard
  }

  /** The delays after the first, second, third, fourth and every further failure. */
  lemma DelaysGrow(g: Guard, disk: Disk, seconds: int, now: int)
    requires TurnedAway(g, disk, Wrong, seconds, now).None?
    ensures var after := AfterAttempt(g, disk, Wrong, seconds, now);
      var delay := if g.failed == 0 then 2 else if g.failed == 1 then 5 else if g.failed == 2 then 15
                   else if g.failed == 3 then 60 else 300;
      after == Guard(g.failed + 1, Some(now + delay * SECOND))
  {
  }

  class Service {
    const store: Store
    var failed: nat
    var nextAttemptAt: Option<int>

    function State(): Guard
      reads this
    {
      Guard(failed, nextAttemptAt)
    }

    constructor (store: Store)
      ensures this.store == store && State() == FreshGuard
    {
      this.store, failed, nextAttemptAt := store, 0, None;
    }

    /** A wrong password moves the guard and nothing else; a correct one resets it
        and writes the bonus, its event and its share of the anchor; anything else
        changes nothing. */
    method Grant(verdict: Verdict, seconds: int, now: int, id: Id) returns (result: Result<int, GrantError>)
      requires store.Valid() && id != ""
      modifies this, store
      ensures store.Valid()
      ensures State() == AfterAttempt(old(State()), old(store.Contents()), verdict, seconds, now)
      ensures var turned := TurnedAway(old(State()), old(store.Contents()), verdict, seconds, now);
        match turned
        case Some(error) =>
          result == Failure(error) && State() == old(State()) && store.Contents() == old(store.Contents())
        case None =>
          if verdict.Wrong? then
            && result == Failure(WrongPassword)
            && State() == AfterWrong(old(State()), now) && store.Contents() == old(store.Contents())
          else
            && State() == FreshGuard
            && InsertGrant(old(store.Contents()), GrantEvent(id, DateOf(now), seconds)) == Success(store.Contents())
            && result == Success(TotalBonus(store.Contents().bonus, DateOf(now)))
    {
      if seconds < MIN_GRANT || seconds > MAX_LOCAL_BONUS {
        return Failure(InvalidSeconds);
      }
      if nextAttemptAt.Some? && now < nextAttemptAt.value {
        return Failure(RateLimited);
      }
      if store.policy.None? {
        return Failure(PolicyMissing);
      }
      if store.policy.value.verifier == "" {
        return Failure(PasswordNotConfigured);
      }
      if verdict.Unreadable? {
        return Failure(VerifierUnreadable);
      }
      if verdict.Wrong? {
        failed := failed + 1;
        nextAttemptAt := Some(now + BackoffForFailure(failed));
        return Failure(WrongPassword);
      }
      failed, nextAttemptAt := 0, None;
      var error := store.AddBonusWithEvent(GrantEvent(id, DateOf(now), seconds));
      if error.Some? {
        return Failure(StoreRefused);
      }
      var total := store.TotalBonusSeconds(DateOf(now));
      return Success(total);
    }
  }

  // ------------------------------------------------------------------ guessing

  /** One attempt with a wrong password. */
  datatype Guess = Guess(now: int, disk: Disk, seconds: int)

  /** The guard after these guesses; the ones turned away are not even checked. */
  function AfterGuesses(guesses: seq<Guess>): Guard {
    if guesses == [] then FreshGuard else
      var last := guesses[|guesses| - 1];
      AfterAttempt(AfterGuesses(guesses[..|guesses| - 1]), last.disk, Wrong, last.seconds, last.now)
  }

  predicate InOrder(guesses: seq<Guess>) {
    forall i, j :: 0 <= i < j < |guesses| ==> guesses[i].now <= guesses[j].now
  }

  function TotalBackoff(failures: nat): int {
    if failures == 0 then 0 else TotalBackoff(failures - 1) + BackoffForFailure(failures)
  }

  lemma {:induction false} TotalBackoffFrom(failures: nat)
    requires failures >= 4
    ensures TotalBackoff(failures) == 82 * SECOND + (failures - 4) * 5 * MINUTE
  {
    if failures == 4 {
      assert TotalBackoff(1) == 2 * SECOND;
      assert TotalBackoff(2) == 7 * SECOND;
      assert TotalBackoff(3) == 22 * SECOND;
    } else {
      TotalBackoffFrom(failures - 1);
    }
  }

  /** However the guesses are timed, n of them are checked only once every backoff
      up to the n-th has been waited out. */
  lemma {:induction false} GuessesWait(guesses: seq<Guess>)
    requires guesses != [] && InOrder(guesses)
    ensures var g := AfterGuesses(guesses);
      && g.failed <= |guesses|
      && (g.failed == 0 <==> g.nextAttemptAt.None?)
      && (g.failed > 0 ==> g.nextAttemptAt.value >= guesses[0].now + TotalBackoff(g.failed))
    decreases |guesses|
  {
    var front := guesses[..|guesses| - 1];
    if front != [] {
      GuessesWait(front);
    }
    assert TotalBackoff(1) == BackoffForFailure(1);
  }

  /** In any span of time only so many passwords can be tried: four, and then one
      more for every five minutes after the first 82 seconds. */
  lemma {:induction false} GuessesBounded(guesses: seq<Guess>)
    requires guesses != [] && InOrder(guesses)
    ensures var g, span := AfterGuesses(guesses), guesses[|guesses| - 1].now - guesses[0].now;
      g.failed >= 5 ==> span >= 82 * SECOND + (g.failed - 5) * 5 * MINUTE
    decreases |guesses|
  {
    var front, last := guesses[..|guesses| - 1], guesses[|guesses| - 1];
    if front != [] {
      if TurnedAway(AfterGuesses(front), last.disk, Wrong, last.seconds, last.now).Some? {
        GuessesBounded(front);
      } else {
        GuessesWait(front);
        if AfterGuesses(front).failed >= 4 {
          TotalBackoffFrom(AfterGuesses(front).failed);
        }
      }
    }
  }
}
