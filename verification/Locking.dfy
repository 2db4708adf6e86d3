/**
  Enforcement of a decision: which sessions a cycle asks to lock or unlock, and
  how the attempts it remembers space its requests.
*/
module Locking {
  import opened Calendar
  import opened Records
  import opened Accounting

  const LOCK_RETRY_INTERVAL: int := 30 * SECOND

  /** When each session was last asked to lock. */
  type Attempts = map<Id, int>

  /** What one cycle asked of the session manager, in order. */
  datatype Enforcement = Enforcement(locked: seq<Id>, unlocked: seq<Id>)

  /** One pass over the sessions; it ends early when a request fails. */
  datatype Pass = Pass(attempts: Attempts, asked: seq<Id>, ok: bool)

  predicate IsActive(sessions: seq<Session>, key: Id) {
    exists s :: s in sessions && s.active && s.key == key
  }

  function StillActive(attempts: Attempts, sessions: seq<Session>): Attempts {
    map key | key in attempts && IsActive(sessions, key) :: attempts[key]
  }

  predicate TooSoon(attempts: Attempts, key: Id, now: int) {
    key in attempts && now - attempts[key] < LOCK_RETRY_INTERVAL
  }

  function LockPass(attempts: Attempts, sessions: seq<Session>, now: int, fails: set<Id>): Pass
    decreases |sessions|
  {
    if sessions == [] then Pass(attempts, [], true)
    else if !sessions[0].active || TooSoon(attempts, sessions[0].key, now) then
      LockPass(attempts, sessions[1..], now, fails)
    else
      var key := sessions[0].key;
      if key in fails then Pass(attempts[key := now], [key], false) else
      var rest := LockPass(attempts[key := now], sessions[1..], now, fails);
      rest.(asked := [key] + rest.asked)
  }

  function UnlockPass(attempts: Attempts, sessions: seq<Session>, fails: set<Id>): Pass
    decreases |sessions|
  {
    if sessions == [] then Pass(map[], [], true)
    else if !sessions[0].active || !sessions[0].locked then UnlockPass(attempts, sessions[1..], fails)
    else if sessions[0].key in fails then Pass(attempts, [sessions[0].key], false)
    else
      var rest := UnlockPass(attempts, sessions[1..], fails);
      rest.(asked := [sessions[0].key] + rest.asked)
  }

  /** A pass from position k on, one session at a time. */
  lemma LockFrom(attempts: Attempts, sessions: seq<Session>, k: nat, now: int, fails: set<Id>)
    requires k < |sessions|
    ensures var s, p := sessions[k], LockPass(attempts, sessions[k..], now, fails);
      if !s.active || TooSoon(attempts, s.key, now) then p == LockPass(attempts, sessions[k + 1..], now, fails)
      else if s.key in fails then p == Pass(attempts[s.key := now], [s.key], false)
      else var rest := LockPass(attempts[s.key := now], sessions[k + 1..], now, fails);
           p == rest.(asked := [s.key] + rest.asked)
  {
    assert sessions[k..][1..] == sessions[k + 1..];
  }

  lemma UnlockFrom(attempts: Attempts, sessions: seq<Session>, k: nat, fails: set<Id>)
    requires k < |sessions|
    ensures var s, p := sessions[k], UnlockPass(attempts, sessions[k..], fails);
      if !s.active || !s.locked then p == UnlockPass(attempts, sessions[k + 1..], fails)
      else if s.key in fails then p == Pass(attempts, [s.key], false)
      else var rest := UnlockPass(attempts, sessions[k + 1..], fails);
           p == rest.(asked := [s.key] + rest.asked)
  {
    assert sessions[k..][1..] == sessions[k + 1..];
  }

  /** A lock pass asks active sessions only, none twice and none within the retry
      interval of its last request; it remembers exactly the requests it made; and
      unless one failed, every active session was asked now or a moment ago. */
  lemma {:induction false} LockPassHolds(attempts: Attempts, sessions: seq<Session>, now: int, fails: set<Id>)
    ensures var p := LockPass(attempts, sessions, now, fails);
      && (forall key :: key in p.attempts <==> key in attempts || key in p.asked)
      && (forall key :: key in p.attempts ==> p.attempts[key] == if key in p.asked then now else attempts[key])
      && (forall key :: key in p.asked ==> IsActive(sessions, key) && !TooSoon(attempts, key, now))
      && (forall i, j :: 0 <= i < j < |p.asked| ==> p.asked[i] != p.asked[j])
      && (p.ok ==> forall key :: IsActive(sessions, key) ==> key in p.asked || TooSoon(attempts, key, now))
      && (p.ok <==> forall key :: key in p.asked ==> key !in fails)
    decreases |sessions|
  {
    if sessions != [] {
      var key := sessions[0].key;
      assert sessions == [sessions[0]] + sessions[1..];
      if sessions[0].active && !TooSoon(attempts, key, now) {
        assert IsActive(sessions, key);
        if key !in fails {
          LockPassHolds(attempts[key := now], sessions[1..], now, fails);
          MoreSessions(sessions);
        }
      } else {
        LockPassHolds(attempts, sessions[1..], now, fails);
        MoreSessions(sessions);
      }
    }
  }

  lemma MoreSessions(sessions: seq<Session>)
    requires sessions != []
    ensures forall key :: IsActive(sessions, key) <==>
      (sessions[0].active && sessions[0].key == key) || IsActive(sessions[1..], key)
  {
    forall key
      ensures IsActive(sessions, key) <==>
        (sessions[0].active && sessions[0].key == key) || IsActive(sessions[1..], key)
    {
      if IsActive(sessions[1..], key) {
        var s :| s in sessions[1..] && s.active && s.key == key;
        assert s in sessions;
      }
    }
  }

  /** An unlock pass asks exactly the sessions that are active and locked, unless
      one of them fails. */
  lemma {:induction false} UnlockPassHolds(attempts: Attempts, sessions: seq<Session>, fails: set<Id>)
    ensures var p := UnlockPass(attempts, sessions, fails);
      && p.attempts == (if p.ok then map[] else attempts)
      && (p.ok <==> forall key :: key in p.asked ==> key !in fails)
      && (forall key :: key in p.asked ==> exists s :: s in sessions && s.active && s.locked && s.key == key)
      && (p.ok ==> forall s :: s in sessions && s.active && s.locked ==> s.key in p.asked)
    decreases |sessions|
  {
    if sessions != [] {
      UnlockPassHolds(attempts, sessions[1..], fails);
      assert sessions == [sessions[0]] + sessions[1..];
    }
  }

  // ------------------------------------------------------------------ one cycle

  /** What enforcement needs to know of a cycle. */
  datatype Watch = Watch(
    now: int,
    sessions: seq<Session>,
    awaiting: bool,
    allowed: bool,
    unlockRequested: bool,
    fails: set<Id>)

  datatype Outcome = Outcome(attempts: Attempts, enforcement: Enforcement, ok: bool)

  function Enforce(attempts: Attempts, w: Watch): Outcome {
    var kept := StillActive(attempts, w.sessions);
    if w.awaiting then Outcome(kept, Enforcement([], []), true)
    else if !w.allowed then
      var p := LockPass(kept, w.sessions, w.now, w.fails);
      Outcome(p.attempts, Enforcement(p.asked, []), p.ok)
    else if w.unlockRequested then
      var p := UnlockPass(kept, w.sessions, w.fails);
      Outcome(p.attempts, Enforcement([], p.asked), p.ok)
    else Outcome(map[], Enforcement([], []), true)
  }

  /** A lock pass that ends early has dealt with every active session before the one
      that failed, which it asked last. */
  lemma {:induction false} LockPassFails(attempts: Attempts, sessions: seq<Session>, now: int, fails: set<Id>)
    returns (k: nat)
    requires !LockPass(attempts, sessions, now, fails).ok
    ensures var asked := LockPass(attempts, sessions, now, fails).asked;
      && k < |sessions| && sessions[k].active && asked != []
      && sessions[k].key == asked[|asked| - 1] && sessions[k].key in fails
      && forall j :: 0 <= j < k && sessions[j].active ==>
           sessions[j].key in asked || TooSoon(attempts, sessions[j].key, now)
    decreases |sessions|
  {
    var key := sessions[0].key;
    if !sessions[0].active || TooSoon(attempts, key, now) {
      k := LockPassFails(attempts, sessions[1..], now, fails);
      k := k + 1;
    } else if key in fails {
      k := 0;
    } else {
      k := LockPassFails(attempts[key := now], sessions[1..], now, fails);
      k := k + 1;
    }
  }

  lemma {:induction false} UnlockPassFails(attempts: Attempts, sessions: seq<Session>, fails: set<Id>)
    returns (k: nat)
    requires !UnlockPass(attempts, sessions, fails).ok
    ensures var asked := UnlockPass(attempts, sessions, fails).asked;
      && k < |sessions| && sessions[k].active && sessions[k].locked && asked != []
      && sessions[k].key == asked[|asked| - 1] && sessions[k].key in fails
      && forall j :: 0 <= j < k && sessions[j].active && sessions[j].locked ==> sessions[j].key in asked
    decreases |sessions|
  {
    if !sessions[0].active || !sessions[0].locked {
      k := UnlockPassFails(attempts, sessions[1..], fails);
      k := k + 1;
    } else if sessions[0].key in fails {
      k := 0;
    } else {
      k := UnlockPassFails(attempts, sessions[1..], fails);
      k := k + 1;
    }
  }

  // ------------------------------------------------- what a cycle asks, and of whom

  /** The session was asked to lock less than thirty seconds ago. */
  predicate AskedRecently(attempts: Attempts, key: Id, now: int) {
    key in attempts && now - attempts[key] < 30 * SECOND
  }

  predicate ActiveLocked(s: Session) {
    s.active && s.locked
  }

  /** While use is denied a cycle asks no one to unlock, and active sessions only to
      lock; unless a request fails, every active session is asked now or was a moment
      ago; a request that fails is the last one, and none before it is left out. */
  lemma {:induction false} DeniedLocks(attempts: Attempts, w: Watch)
    requires !w.awaiting && !w.allowed
    ensures var o := Enforce(attempts, w);
      var locked := o.enforcement.locked;
      && o.enforcement.unlocked == []
      && (forall key :: key in locked ==> !AskedRecently(attempts, key, w.now))
      && (forall key :: key in locked ==> exists s :: s in w.sessions && s.active && s.key == key)
      && (forall i, j :: 0 <= i < j < |locked| ==> locked[i] != locked[j])
      && (o.ok ==>
            && (forall key :: key in locked ==> key !in w.fails)
            && forall s :: s in w.sessions && s.active ==> s.key in locked || AskedRecently(attempts, s.key, w.now))
      && (!o.ok ==>
            && locked != [] && locked[|locked| - 1] in w.fails
            && exists k :: 0 <= k < |w.sessions| && w.sessions[k].key == locked[|locked| - 1]
                        && forall j :: 0 <= j < k && w.sessions[j].active ==>
                             w.sessions[j].key in locked || AskedRecently(attempts, w.sessions[j].key, w.now))
  {
    var kept := StillActive(attempts, w.sessions);
    LockPassHolds(kept, w.sessions, w.now, w.fails);
    forall s | s in w.sessions && s.active
      ensures IsActive(w.sessions, s.key)
      ensures TooSoon(kept, s.key, w.now) <==> AskedRecently(attempts, s.key, w.now)
    {
    }
    if !LockPass(kept, w.sessions, w.now, w.fails).ok {
      var k := LockPassFails(kept, w.sessions, w.now, w.fails);
    }
  }

  /** What a cycle remembers of its requests: while use is denied those of sessions
      still active, with the ones just made; once it is allowed, nothing. */
  lemma {:induction false} AttemptsKept(attempts: Attempts, w: Watch)
    ensures var o := Enforce(attempts, w);
      if w.awaiting || !w.allowed then
        && (forall key :: key in o.attempts <==>
              || key in o.enforcement.locked
              || (key in attempts && exists s :: s in w.sessions && s.active && s.key == key))
        && (forall key :: key in o.attempts ==>
              o.attempts[key] == if key in o.enforcement.locked then w.now else attempts[key])
      else o.ok ==> o.attempts == map[]
  {
    var kept := StillActive(attempts, w.sessions);
    LockPassHolds(kept, w.sessions, w.now, w.fails);
    UnlockPassHolds(kept, w.sessions, w.fails);
  }

  /** While use is allowed a cycle asks no one to lock; if an unlock is asked for,
      exactly the active locked sessions are asked, up to the first that fails. */
  lemma {:induction false} AllowedUnlocks(attempts: Attempts, w: Watch)
    requires !w.awaiting && w.allowed
    ensures var o := Enforce(attempts, w);
      var unlocked := o.enforcement.unlocked;
      && o.enforcement.locked == []
      && (!w.unlockRequested ==> unlocked == [] && o.ok)
      && (forall key :: key in unlocked ==> exists s :: s in w.sessions && ActiveLocked(s) && s.key == key)
      && (o.ok && w.unlockRequested ==>
            && (forall key :: key in unlocked ==> key !in w.fails)
            && forall s :: s in w.sessions && ActiveLocked(s) ==> s.key in unlocked)
      && (!o.ok ==>
            && unlocked != [] && unlocked[|unlocked| - 1] in w.fails
            && exists k :: 0 <= k < |w.sessions| && w.sessions[k].key == unlocked[|unlocked| - 1]
                        && forall j :: 0 <= j < k && ActiveLocked(w.sessions[j]) ==> w.sessions[j].key in unlocked)
  {
    var kept := StillActive(attempts, w.sessions);
    UnlockPassHolds(kept, w.sessions, w.fails);
    if !UnlockPass(kept, w.sessions, w.fails).ok {
      var k := UnlockPassFails(kept, w.sessions, w.fails);
    }
  }

  /** A cycle that waits for the server asks no one. */
  lemma AwaitingAsksNoOne(attempts: Attempts, w: Watch)
    requires w.awaiting
    ensures var o := Enforce(attempts, w); o.enforcement.locked == [] && o.enforcement.unlocked == [] && o.ok
  {
  }

  /** Whatever a cycle decides, the requests it makes are the ones it must. */
  lemma {:induction false} EnforcedExactly(attempts: Attempts, w: Watch)
    ensures var o := Enforce(attempts, w);
      && (w.allowed ==> o.enforcement.locked == [])
      && (w.awaiting ==> o.enforcement.locked == [] && o.enforcement.unlocked == [])
      && (!w.allowed ==> o.enforcement.unlocked == [])
      && (o.ok && !w.awaiting ==>
            forall s :: s in w.sessions && s.active ==>
              && (!w.allowed ==> s.key in o.enforcement.locked || AskedRecently(attempts, s.key, w.now))
              && (w.allowed && w.unlockRequested && s.locked ==> s.key in o.enforcement.unlocked))
  {
    hide Enforce;
    if w.awaiting {
      AwaitingAsksNoOne(attempts, w);
    } else if w.allowed {
      AllowedUnlocks(attempts, w);
    } else {
      DeniedLocks(attempts, w);
    }
  }

  /** Forgetting inactive sessions first makes no difference. */
  lemma EnforceKept(attempts: Attempts, w: Watch)
    ensures Enforce(StillActive(attempts, w.sessions), w) == Enforce(attempts, w)
  {
    assert StillActive(StillActive(attempts, w.sessions), w.sessions) == StillActive(attempts, w.sessions);
  }

  // ----------------------------------------------------------------------- runs

  function AttemptsAfter(attempts: Attempts, run: seq<Watch>): Attempts {
    if run == [] then attempts else Enforce(AttemptsAfter(attempts, run[..|run| - 1]), run[|run| - 1]).attempts
  }

  /** While a session stays active and use is not allowed, a request stays remembered. */
  lemma {:induction false} AttemptRemembered(attempts: Attempts, run: seq<Watch>, key: Id, since: int)
    requires key in attempts && attempts[key] >= since
    requires forall w :: w in run ==> w.now >= since && IsActive(w.sessions, key) && (w.awaiting || !w.allowed)
    ensures key in AttemptsAfter(attempts, run) && AttemptsAfter(attempts, run)[key] >= since
    decreases |run|
  {
    if run != [] {
      var front, w := run[..|run| - 1], run[|run| - 1];
      AttemptRemembered(attempts, front, key, since);
      LockPassHolds(StillActive(AttemptsAfter(attempts, front), w.sessions), w.sessions, w.now, w.fails);
    }
  }

  lemma {:induction false} AttemptsConcat(attempts: Attempts, a: seq<Watch>, b: seq<Watch>)
    ensures AttemptsAfter(attempts, a + b) == AttemptsAfter(AttemptsAfter(attempts, a), b)
    decreases |b|
  {
    if b == [] {
      assert a + b == a;
    } else {
      assert (a + b)[..|a + b| - 1] == a + b[..|b| - 1];
      AttemptsConcat(attempts, a, b[..|b| - 1]);
    }
  }

  lemma {:induction false} AskedAndRemembered(attempts: Attempts, w: Watch, key: Id)
    requires key in Enforce(attempts, w).enforcement.locked
    ensures !TooSoon(attempts, key, w.now)
    ensures key in Enforce(attempts, w).attempts && Enforce(attempts, w).attempts[key] == w.now
  {
    LockPassHolds(StillActive(attempts, w.sessions), w.sessions, w.now, w.fails);
  }

  lemma {:induction false} AttemptsThrough(attempts: Attempts, run: seq<Watch>, first: nat, second: nat)
    requires first < second <= |run|
    ensures AttemptsAfter(attempts, run[..second])
         == AttemptsAfter(Enforce(AttemptsAfter(attempts, run[..first]), run[first]).attempts, run[first + 1..second])
  {
    assert run[..first + 1][..first] == run[..first];
    assert run[..first + 1] + run[first + 1..second] == run[..second];
    AttemptsConcat(attempts, run[..first + 1], run[first + 1..second]);
  }

  /** Over any run of cycles two lock requests for a session lie at least the retry
      interval apart, unless in between it was not active or use was allowed. */
  lemma {:induction false} LocksSpaced(attempts: Attempts, run: seq<Watch>, first: nat, second: nat, key: Id)
    requires first < second < |run|
    requires forall m, n :: 0 <= m < n < |run| ==> run[m].now <= run[n].now
    requires key in Enforce(AttemptsAfter(attempts, run[..first]), run[first]).enforcement.locked
    requires key in Enforce(AttemptsAfter(attempts, run[..second]), run[second]).enforcement.locked
    requires forall m :: first < m < second ==>
      IsActive(run[m].sessions, key) && (run[m].awaiting || !run[m].allowed)
    ensures run[second].now - run[first].now >= LOCK_RETRY_INTERVAL
  {
    hide Enforce, AttemptsAfter, StillActive;
    var w := run[first];
    AskedAndRemembered(AttemptsAfter(attempts, run[..first]), w, key);
    AskedAndRemembered(AttemptsAfter(attempts, run[..second]), run[second], key);
    var between := run[first + 1..second];
    forall v | v in between
      ensures v.now >= w.now && IsActive(v.sessions, key) && (v.awaiting || !v.allowed)
    {
      var k :| 0 <= k < |between| && between[k] == v;
      assert v == run[first + 1 + k];
    }
    AttemptRemembered(Enforce(AttemptsAfter(attempts, run[..first]), w).attempts, between, key, w.now);
    AttemptsThrough(attempts, run, first, second);
  }
}
