# Compasso: agent, server and heartbeat

Compasso limits the time a person spends at a computer.  An administrator keeps
quotas, weekly routines and commands on a server; an agent on the controlled
computer decides every second whether the desktop may stay open, counts the time
spent, and synchronizes with the server by heartbeats that may fail at any point.
This project models both sides and the protocol between them, and proves what
they promise over every run.

## How it is organised

* **Local engine.** `Calendar`, `Schedule` (routines, week intervals, overlap),
  `Policy` (the decision and its prediction), `Usage` (the day's counter),
  `Accounting`, `CycleLaws` and `AccountingLaws` (one daemon cycle, and what holds over
  many),
  `Locking` (enforcement and its retries), `Alert`, `LocalAuth`, `Daemon` (the cycle
  carried out on fields, tracker, store, synchronization client and alerts), and
  `AlertLaws` (what the alert tracker is shown and returns over a window of cycles).
* **Tables.** `Records` (rows and messages), `AgentTables` / `ServerTables` (what a
  transaction does, as functions on tables), `PolicyTables` (the agent's policy row by
  row), `AdminLaws`, `ServerLaws` (what the server's operations store and answer).
  `AgentStore` and `ServerStore` are a refinement layer: classes that carry the
  transactions out on fields and caches, each method proved equal to its function on
  tables.  What those functions achieve is what the table below names.
* **Protocol.** `Heartbeat` (the agent's request, checks and the phases of applying an
  answer), `Client` (the class that applies them), `ClientLaws` (which answers are
  accepted and what they leave), `Cadence` (when it tries again), and `System`: agent, server and network as one step system.  Its labels are
  administrator changes, queued credits and control orders, local grants, daemon
  cycles, building and delivering a request, a server that handles a request long
  given up (any request ever sent, any number of times), lost requests, lost
  answers, one transaction of applying an answer, and a crash of the agent.
* **Proofs about every run.** Six invariants (`PolicyInvariant`, `UsageInvariant`,
  `CreditInvariant`, `LocalInvariant`, `OrderInvariant`, `AnchorInvariant`), put
  together in `Safety`; `Balances` (online and offline authority agree), `Rounds` (what
  a heartbeat achieves), `Progress` (what two of them achieve) and `CrossDate` (a run
  across midnight).

The history in a `System.State` (which grants, credits and orders there were, what
cycles saw, which requests were sent) is read by no step; it exists to state
properties.

Two promises are false of the code as it stands, and are stated with their exact
condition:

* The block prediction announces a routine too late when a full-day routine
  (start equal to end) does not start at midnight, because the look-ahead uses the
  stored start while the activity test blocks from midnight.
  `Policy.PredictionLateIff` says for which inputs a routine blocks before the
  predicted instant: exactly when a midnight before that instant opens inside a
  full-day routine.  (The next date's own quota may deny use at midnight as well; a
  prediction speaks of the quota of its date only.)  `Policy.RoutinePredictionExactIff`
  says for which routine lists this can happen at all;
  `AdminLaws.LateAnnouncementExample` is a routine the server accepts.
* The server dates a remote credit when it first offers it, the agent when it takes it,
  so the two sides may count one credit for different dates.
  `Rounds.CreditDatesAgreeIff` gives the condition, readable from the server's bonus
  table before the heartbeat: a heartbeat leaves both rows with one date exactly if the
  server had no row for the credit yet, or had dated it as this heartbeat does.
  `Rounds.HeartbeatBalances` carries that over to the balances of a whole day,
  `Balances.AnchorIsCache` gives their difference in every state, and
  `CrossDate.CrossDateExample` is a run of the step system, from its start, that ends
  in such a state.

## Modelling assumptions

* Instants are integers (nanoseconds) in a zone of fixed offset; instants that Go
  calls zero are not representable.
* A heartbeat is one atomic step of the server.  The code reads control, policy,
  balance and commands after its commit (`server/storage/sync.go:246-281`).
* Building a request is one atomic step of the agent.  The code reads policy, session,
  control revision, anchor, usage, events and acknowledgements one after another
  (`agent/syncclient/client.go:171-200`).
* Completeness of an answer (`Rounds.HeartbeatAgrees`, `Rounds.CreditDatesAgreeIff`,
  `Rounds.HeartbeatBalances`) needs at most 100 unacknowledged commands after the
  heartbeat; by `Progress.BacklogNeverGrows` at most 100 before it are enough.
  `Progress.CreditsConfirmed` and `Progress.ControlCompletes` also need at most 100
  acknowledgements waiting.  Everything else holds for any number.
* The guesses at a password are bounded within one run of the agent: the count of
  failures and the end of the backoff live in memory (`agent/localauth/service.go:31-36`),
  and a restart forgets them.
* Pending events are a queue in creation order; identifiers are fresh and unique; no
  database is restored and no device enrolled again.
* Storage calls succeed within a daemon cycle; lock and unlock requests may fail.
* Sessions, instants, identifiers and whether a password matches are inputs.

## Model

| member | source | states |
|---|---|---|
| Schedule.BlocksAtIsOccurrence | agent/policy/policy.go:132-159 | the activity test holds at an instant iff an occurrence of the routine (same day, overnight or full day) contains it |
| Schedule.RoutineIntervals | server/storage/domain.go:534-559 | the loop lists exactly the week intervals of the routine, day by day |
| Schedule.FindOverlap | server/storage/domain.go:561-570 | the nested search answers yes iff some instant has both routines active |
| Schedule.SchedulesAgree | server/storage/domain.go:534-559 | a routine is active at an instant for the agent iff one of the server's intervals covers that instant of the week |
| Schedule.OverlapIffSharedInstant | server/storage/domain.go:561-570 | the interval search finds a conflict iff at some instant the agent would see both routines active, week wrap and midnight included |
| Policy.ActiveRoutine | agent/policy/policy.go:132-159 | the loop finds the first routine of the list that blocks, and none iff none blocks |
| Policy.EightDaysSuffice | agent/policy/policy.go:161-179 | every later start of a routine has a start of the same routine among the eight scanned days that is no later |
| Policy.NextRoutineStart | agent/policy/policy.go:161-179 | the scan returns the least start strictly after now over the whole future, and none iff no routine selects a day |
| Policy.Evaluate | agent/policy/policy.go:69-130 | refuses exactly the invalid inputs, otherwise returns the decision that Policy.DecisionMeaning and Policy.PredictionMeaning fix |
| Policy.DecisionMeaning | agent/policy/policy.go:69-107 | for every valid input: the time left is quota of the weekday plus bonus less usage, cut off at zero; each reason holds in exactly its case; the routine named is the first of the list that blocks |
| Policy.PredictionMeaning | agent/policy/policy.go:97-107 | a counting decision predicts the end of the time left unless a routine starts no later; then the first such start, with the reason that goes with it |
| Policy.Precedence | agent/policy/policy.go:69-107 | use is allowed iff paused, or neither blocked by hand nor by a routine and time is left; counting coincides with a predicted block within the time left |
| Policy.PredictionHolds | agent/policy/policy.go:97-107 | at any instant of the same date before the predicted block, with usage advanced by the time elapsed, the decision still allows and predicts the same block |
| Policy.PredictionArrives | agent/policy/policy.go:97-107 | at the predicted instant use is denied for the predicted reason, routines winning ties |
| Policy.RoutinePredictionExactIff | agent/policy/policy.go:132-179 | some free instant has its block announced late iff some weekday opens inside a full-day routine without any routine starting at its midnight while the day before ends free |
| Policy.LateImpliesUnannounced | agent/policy/policy.go:132-179 | a late announcement exhibits such a weekday |
| Policy.UnannouncedImpliesLate | agent/policy/policy.go:132-179 | such a weekday makes the announcement at its eve late |
| Policy.BlockedBeforeIff | agent/policy/policy.go:132-179 | between a free instant and one before which no routine starts, a routine blocks iff a midnight in between opens inside a full-day routine |
| Policy.LatePredictionIff | agent/policy/policy.go:132-179 | one instant's announcement of a routine is late iff the instant is free and such a midnight lies before the announced start |
| Policy.PredictionLateIff | agent/policy/policy.go:97-107 | a routine blocks before the instant a decision predicts, whatever it predicts, iff such a midnight lies before it |
| AdminLaws.LateAnnouncementExample | agent/policy/policy.go:161-179 | a full-day Monday the server accepts is announced for ten o'clock, while use is denied from midnight |
| Usage.UsageTracker.Add | agent/storage/state.go:264-283 | whole seconds are added, and checkpointed once the interval is reached; fractions and negative durations are refused |
| Usage.UsageTracker.Flush | agent/storage/state.go:285-299 | the durable counter catches up with the live one and nothing is left uncheckpointed |
| Usage.UsageTracker.EnsureAtLeast | agent/storage/state.go:309-323 | the counter is raised to the confirmed usage, never lowered |
| Usage.CounterOperations | agent/storage/state.go:239-323 | every counter operation keeps the live counter within one interval of the durable one, lowers no counter and touches no other date |
| Usage.AddedExactly | agent/storage/state.go:264-283 | seconds are added to the date's counter and made durable exactly when a whole interval is not |
| Usage.FlushedExactly | agent/storage/state.go:285-323 | a flush makes the counter durable, a raise lifts it durably to the minimum |
| Usage.CrashLoss | agent/storage/state.go:249-283 | reloading after a crash returns less than one checkpoint interval |
| Accounting.InputIsValid | agent/daemon/daemon.go:380-423 | the daemon never builds an invalid policy input, and what it leaves is the anchor's balance online and the tables' balance offline |
| Accounting.ElapseSound | agent/daemon/daemon.go:367-378 | seconds counted plus the fraction carried equal the elapsed time plus the old fraction, and the fraction stays below a second |
| AccountingLaws.StepSound | agent/daemon/daemon.go:88-279 | a cycle keeps the books sound, moves to the date of now, lowers no durable counter and changes nothing else durable but the staged effect |
| AccountingLaws.CountsExactly | agent/daemon/daemon.go:190-195 | a later cycle of the date counts exactly the time from the last one to now, capped at the predicted block, and nothing if that one did not count or saw no session; the fraction is carried |
| AccountingLaws.StartsExactly | agent/daemon/daemon.go:348-365 | the first cycle takes up the durable counter of the date, or the confirmed usage if that is more |
| AccountingLaws.MidnightExactly | agent/daemon/daemon.go:169-189 | across midnight the old date is closed with exactly the attended time until midnight, and the new one opens with exactly the time since midnight that its own decision counts while someone is present |
| CycleLaws.CycleAwaits | agent/daemon/daemon.go:203-211 | use waits uncounted for the server exactly while online, neither paused nor blocked, with a session in front that the anchor is not for, or not of this date or policy |
| CycleLaws.CycleRules | agent/daemon/daemon.go:380-423 | a cycle's time left is, in seconds, what the anchor authorises less what is counted online, and quota and bonus of the date less what is counted offline; pause and block apply online only; the reason is the first rule that holds |
| CycleLaws.CycleRemembers | agent/daemon/daemon.go:213-240 | the next cycle accounts by this instant, this decision and this session; before use is denied the counted seconds are durable |
| CycleLaws.CycleCompletes | agent/daemon/daemon.go:142-163 | a cycle completes the staged control exactly if it holds its revision online and the session in front shows the lock state it asks for, spelled out for each kind |
| CycleLaws.UnlockAskedMeaning | agent/daemon/daemon.go:244-246 | an unlock is asked for exactly by a current clearing or pausing control while the session in front is locked |
| AccountingLaws.NoOvershoot | agent/daemon/daemon.go:164-195 | the next cycle, after any gap and any change of the tables, adds to the old date at most what the last decision granted and to the new date at most what the decision at midnight grants |
| AccountingLaws.MidnightSplit | agent/daemon/daemon.go:164-189 | a cycle across midnight counts no more on both dates together than the time since the last cycle |
| AccountingLaws.NoIntervalCountedTwice | agent/daemon/daemon.go:164-240 | over any run of cycles the seconds counted on all dates never exceed the time between first and last cycle |
| AccountingLaws.PollingIndependence | agent/daemon/daemon.go:190-240 | from any cycle on, within an undisturbed window, the counter is min(allowance, s + whole seconds of carried fraction plus elapsed time) and use is denied iff the allowance is reached, whatever the polling schedule |
| Daemon.Daemon.AddElapsed | agent/daemon/daemon.go:367-378 | carries the fraction and adds whole seconds, as the specification of elapsed time says |
| Daemon.Daemon.PrepareTracker | agent/daemon/daemon.go:348-365 | flushes the old date's counter, loads the new one and drops the fraction |
| Daemon.Daemon.EvaluateAt | agent/daemon/daemon.go:380-423 | the decision of the authority in force, from cached rows and tracker |
| Locking.LockPassHolds | agent/daemon/daemon.go:262-276 | a lock pass asks active sessions only, none twice and none within 30 seconds of its last request, remembers exactly its requests, and unless one fails asks every active session now or did a moment ago |
| Locking.UnlockPassHolds | agent/daemon/daemon.go:246-261 | an unlock pass asks exactly the active locked sessions unless one fails, and forgets all attempts only if none did |
| Locking.DeniedLocks | agent/daemon/daemon.go:262-276 | while use is denied nobody is asked to unlock, and unless a request fails every active session is asked to lock or was asked less than thirty seconds ago; a failing request is the last one and leaves none before it out |
| Locking.AllowedUnlocks | agent/daemon/daemon.go:244-261 | while use is allowed nobody is asked to lock, and if an unlock is asked for exactly the active locked sessions are asked, up to a failing one |
| Locking.AttemptsKept | agent/daemon/daemon.go:125-129 | requests of sessions still active are remembered with their instants while use is denied, and all are forgotten once it is allowed without a failure |
| Locking.LocksSpaced | agent/daemon/daemon.go:242-276 | over any run two lock requests for a session lie at least 30 seconds apart, unless in between it was inactive or use was allowed |
| Daemon.Daemon.Enforce | agent/daemon/daemon.go:242-276 | the loops ask for and remember exactly what the specified pass does, failures included; Locking.DeniedLocks, AllowedUnlocks and AttemptsKept say what that is |
| Daemon.Daemon.ShowAlerts | agent/daemon/daemon.go:227-234 | the alert tracker never refuses what the daemon shows it |
| Daemon.Daemon.Step | agent/daemon/daemon.go:88-279 | the cycle equals the specified one on fields, tracker and store, whether or not lock and unlock succeed; it reports the session in front, shows its decision to the alert tracker and enforces it: denied use locks every active session, an unlock asked for unlocks every locked one, unless a request fails; alerts go to an unlocked session in front only; a refused cycle changes nothing |
| Alert.PlannedExactly | agent/alert/alert.go:114-144 | exactly the thresholds at their lead before the block are planned, in order; the configured one gives way when it coincides with a fixed one or the block |
| Alert.PlannedMinutes | agent/alert/alert.go:114-144 | the same in minutes: an alert names how long it comes before the block |
| Alert.CycleBegins | agent/alert/alert.go:65-82 | a new revision, session, date or reason, or a block put off by thirty seconds, begins a cycle that forgets the consumed kinds; nothing else does |
| Alert.CycleEnds | agent/alert/alert.go:54-79 | what the first, a blockless and a refused observation leave |
| Alert.Tracker.DueAlerts | agent/alert/alert.go:54-101 | the tracker moves as specified; a negative warning time or a clock going back is refused without a trace |
| Alert.Tracker.Emit | agent/alert/alert.go:83-100 | the loop consumes every newly crossed kind and returns the last one if it may be delivered |
| Alert.NearestOnly | agent/alert/alert.go:83-100 | one call returns at most one alert, the newly crossed threshold nearest to the block, and consumes all newly crossed kinds |
| Alert.ConsumedStaysConsumed | agent/alert/alert.go:70-100 | a kind consumed, delivered or not, is not returned again while the cycle lasts |
| Alert.OncePerCycle | agent/alert/alert.go:54-101 | over any run of observations each kind is returned at most once per cycle |
| Alert.NothingSkipped | agent/alert/alert.go:83-100 | while block and reason stay, whatever else the decisions say, exactly the thresholds since the cycle began are consumed, and each observation finds exactly those since the one before, however far apart they are |
| Alert.ReevaluationsAreSteady | agent/policy/policy.go:97-107 | re-evaluations of one counting decision on its date, before its block, are such observations although the time left falls |
| Alert.CountdownSkipsNothing | agent/alert/alert.go:54-101 | when the predicted block moves by the fraction of a second not counted yet, the tracker does not rearm, every threshold whose second was counted since the cycle began is consumed, none before its second, and the first observation past it finds it |
| AlertLaws.ShownMeaning | agent/daemon/daemon.go:227-234 | the tracker is shown the decision under revision, session in front and date; only an open session that waits for nothing may be sent an alert |
| AlertLaws.NoWarningSkipped | agent/daemon/daemon.go:190-234 | from any cycle on that begins a cycle of alerts, within an undisturbed window with the quota as the next block, however the daemon is polled: every threshold the counted seconds pass is consumed, none before it is reached, and each cycle that passes one and may deliver returns one alert |
| AlertLaws.RoutineKeepsSteady | agent/daemon/daemon.go:190-234 | within such a window with a routine as the next block every cycle predicts its start, so Alert.NothingSkipped applies to whatever the daemon shows the tracker |
| LocalAuth.Service.Grant | agent/localauth/service.go:46-105 | a wrong password moves the guard only, a correct one resets it and writes bonus, event and anchor share, anything else changes nothing |
| LocalAuth.TurnedAwayMeaning | agent/localauth/service.go:46-68 | when a password is not even checked, and why |
| LocalAuth.DelaysGrow | agent/localauth/service.go:107-116 | the delays after the first five failures are 2, 5, 15, 60 and 300 seconds, and 300 after any more |
| LocalAuth.GuessesWait | agent/localauth/service.go:56-75 | within one run of the agent, n passwords are checked only after every backoff up to the n-th was waited out |
| LocalAuth.GuessesBounded | agent/localauth/service.go:107-116 | within one run of the agent, n checked passwords take at least 82 seconds plus five minutes for each beyond the fifth |
| Records.SumRows | agent/storage/state.go:145-157 | the sum of the rows, in whatever order they come |
| Records.TotalByOrigin | agent/storage/state.go:145-157 | a date's bonus is its local rows plus its web rows |
| LocalInvariant.GrantExtends | agent/storage/state.go:91-143 | a stored grant extends the queue and the local rows by exactly one, and nothing the server knows moves |
| LocalInvariant.AcknowledgeOldest | agent/storage/state.go:190-202 | acknowledging the oldest pending event removes exactly it |
| AnchorInvariant.GrantRaisesAnchor | agent/storage/state.go:127-134 | a grant of the anchor's date keeps the anchor exact |
| AnchorInvariant.AnchoringKeeps | agent/storage/session_state.go:34-88 | storing a confirmed balance, raised by the pending local bonuses, leaves the anchor exact |
| CreditInvariant.CommandApplied | agent/storage/sync.go:45-73 | taking a command from an answer gives a credit its one row and stages an order, and leaves the rest of the answer covering what is missing |
| OrderInvariant.PhaseKeeps | agent/storage/control_effect.go:29-114 | staging, forgetting and taking credits leave only confirmed orders acknowledgeable, and the staged effect the order it was issued as |
| PolicyTables.Tables.ReplacePolicy | agent/storage/policy.go:36-121 | the refilled tables hold the policy with its routines sorted by identifier; refused or equal revisions change nothing |
| PolicyTables.Tables.StoreRoutines | agent/storage/policy.go:80-100 | after the loops the routine and day tables hold exactly these routines |
| PolicyTables.Tables.LoadPolicy | agent/storage/policy.go:168-258 | what is read back from the rows is the policy in memory |
| PolicyTables.Tables.RefreshPolicyCache | agent/storage/policy.go:140-161 | a restart leaves the cached policy as it was |
| PolicyTables.ByIdInOrder | agent/storage/policy.go:43 | sorting distinct routines by identifier orders them strictly |
| PolicyTables.SortedDecidesAlike | agent/storage/policy.go:43 | no decision can tell the server's routine order from the agent's |
| ServerTables.CreditsInserted | server/storage/sync.go:323-336 | existing rows stay, every queued credit has a row, and every new row is a credit's with the queued seconds and the reported date |
| ServerTables.EventsInserted | server/storage/sync.go:284-317 | existing rows stay, every event has a row, and every new row is an event's |
| ServerTables.AllAcknowledged | server/storage/sync.go:188-242 | an acknowledgement marks a credit and removes a control; no other command moves |
| ServerLaws.QuotasStored | server/storage/domain.go:381-410 | quotas and warning are stored iff they are in range, with the next revision and nothing else changed |
| ServerLaws.RoutineStored | server/storage/domain.go:412-498 | a routine takes the place of its old row iff it is well formed, known when edited, and shares no instant with another |
| ServerLaws.ConflictNamed | server/storage/domain.go:450-475 | a refusal names a routine with which an instant would be shared |
| ServerLaws.RoutineDeleted | server/storage/domain.go:572-599 | exactly the named routine goes |
| ServerLaws.PasswordStored | server/storage/domain.go:601-625 | the verifier is stored and nothing else changed |
| ServerLaws.CreditQueued | server/storage/sync.go:585-621 | a credit of at most a day becomes the youngest command, with the next revision |
| ServerLaws.HeartbeatRefused | server/storage/sync.go:117-161 | the exact conditions under which a heartbeat is refused |
| ServerLaws.HeartbeatStored | server/storage/sync.go:163-242 | usage is raised and never lowered, every waiting credit and event has its row, acknowledgements are taken, and nothing else changes |
| ServerLaws.HeartbeatAnswered | server/storage/sync.go:246-281 | policy and balance are answered exactly if outdated or asked for, and the balance is quota plus bonus less usage, cut off at zero |
| ServerLaws.OldestOffered | server/storage/sync.go:409-460 | the commands answered are the oldest hundred unacknowledged ones, in their order |
| ServerStore.FindConflict | server/storage/domain.go:450-475 | the loop names the first other routine that overlaps, and none iff none does |
| ServerStore.ApplyPendingRemoteBonuses | server/storage/sync.go:323-336 | the loop inserts the queued credits' rows and nothing else |
| ServerStore.ReceiveEvents | server/storage/sync.go:180-187 | events are inserted and acknowledged in order, or the whole batch is refused |
| ServerStore.AcknowledgeCommands | server/storage/sync.go:188-242 | the loop applies every acknowledgement, or refuses the whole batch |
| PolicyInvariant.ChangeKeeps | server/storage/domain.go:381-625 | every change of quotas, routines or password keeps the server's policy valid, its routines disjoint, past revisions settled and replication intact |
| PolicyInvariant.AdminRevision | server/storage/domain.go:783-801 | a change is refused without a trace, or advances both revision columns by exactly one |
| CreditInvariant.QueueCreditKeeps | server/storage/sync.go:585-621 | queueing a credit keeps one command per credit, at most one row per side, and every answer under way covering the credits of its own revision |
| OrderInvariant.QueueOrderKeeps | server/storage/sync.go:506-583 | a control request keeps the order invariant: at most one pending control, which is the order behind the flags and revision, and earlier orders as confirmed as they were; Safety.ControlRequested says what the request itself achieves |
| ServerStore.Store.SaveRoutine | server/storage/domain.go:412-498 | a routine is stored iff it is well formed, known when edited and overlaps no other; then the revision advances |
| ServerStore.Store.ReceiveHeartbeat | server/storage/sync.go:117-282 | refused without a trace, or absorbed and answered from the tables it left |
| ServerStore.Store.ConfirmedSessionState | server/storage/sync.go:661-689 | quota plus bonus less usage of the date, cut off at zero, with the current revision |
| ServerStore.Store.UnacknowledgedRemoteBonusSeconds | server/storage/sync.go:650-659 | the sum of the date's rows whose credit the device has not acknowledged |
| ServerStore.Store.LoadDeviceLiveStatus | server/web/status.go:55-75 | the bonus and remaining time an administrator is shown |
| AdminLaws.RoutinesStayDisjoint | server/storage/domain.go:450-475 | any sequence of saved and deleted routines keeps stored routines pairwise disjoint over the week |
| AdminLaws.AtMostOneActive | server/storage/domain.go:450-475 | at any instant at most one stored routine is active |
| AdminLaws.SameRoutineFound | agent/policy/policy.go:132-159 | the active routine found does not depend on the order of the list |
| AdminLaws.DecisionIgnoresOrder | server/storage/domain.go:720 | the whole decision does not depend on the order of the list |
| AdminLaws.AdminKeepsValid | agent/storage/policy.go:279-309 | every policy the server can hold is one the agent accepts |
| Heartbeat.PhaseFrame | agent/syncclient/client.go:256-305 | each transaction of applying an answer writes its own tables only |
| Client.Client.Build | agent/syncclient/client.go:169-220 | the request carries revisions, usage, session, the oldest hundred events and the newest hundred acknowledgements |
| Client.Client.Heartbeat | agent/syncclient/client.go:159-306 | no answer costs the online authority and touches no table; an answer is applied as far as it goes |
| Client.Client.ApplyResponse | agent/syncclient/client.go:256-306 | the answer is applied transaction by transaction up to the first refusal, and a refusal revokes the online authority |
| Client.Client.InstallState | agent/syncclient/client.go:262-296 | acknowledgements are forgotten, then policy, then the balance is stored, after the coherence checks |
| Client.Client.Apply | agent/syncclient/client.go:347-375 | a control command is staged, a credit applied once, anything malformed refused |
| ClientLaws.RequestMeaning | agent/syncclient/client.go:169-220 | what each field of a request says, and when it asks for a balance |
| ClientLaws.GrantStored | agent/storage/state.go:91-143 | a local bonus gets its row, its place at the end of the queue and its share of the anchor of its date; a repeated one changes nothing |
| ClientLaws.EffectCompleted | agent/storage/control_effect.go:69-94 | completing a control makes it acknowledgeable only while it is the staged one |
| ClientLaws.AnswerAccepted | agent/syncclient/client.go:256-306 | the exact conditions under which an answer is accepted: policy not older, balance there when needed and for this session and date, every command executable |
| ClientLaws.AnswerInstalled | agent/syncclient/client.go:256-306 | what an accepted answer leaves in queue, policy, anchor, usage, bonus rows, staged control and acknowledgements |
| Cadence.NextInterval | agent/syncclient/client.go:487-493 | the server's interval if it is between one second and ten minutes, the configured one otherwise |
| Cadence.Run | agent/syncclient/client.go:388-473 | after the k-th failure in a row the wait is min(interval, 2^(k-1) s) less the attempt's duration, not below zero; after a success the interval, or nothing after commands |
| Cadence.IntervalInForce | agent/syncclient/client.go:487-493 | the interval is the one the last success asked for, between a second and ten minutes, else the configured one |
| Cadence.FirstFailureWaits | agent/syncclient/client.go:435-448 | a first failure waits for a second less its duration |
| Cadence.FailureDoubles | agent/syncclient/client.go:435-448 | each further failure waits twice as long, up to the interval, less its duration, whatever the failures before it took |
| Cadence.SuccessWaits | agent/syncclient/client.go:462-471 | commands are followed up at once, except after a follow-up; otherwise the interval is waited |
| Cadence.NoBusyLoop | agent/syncclient/client.go:462-471 | of two consecutive successes at most one is followed by no wait |
| Cadence.BackoffGrows | agent/syncclient/client.go:435-448 | waits never shrink over repeated failures and never exceed the interval |
| PolicyInvariant.PolicyStep | agent/syncclient/client.go:265-286 | every step keeps replication: the agent's policy is the server's of that revision, no request, answer or anchor runs ahead |
| UsageInvariant.UsageStep | server/storage/sync.go:170-176 | every step keeps the server's counters below the durable ones and those exactly the uncheckpointed part below the live one |
| CreditInvariant.CreditStep | server/storage/sync.go:323-336 | every step keeps one row per credit and side with the queued seconds, the server's row first, and acknowledgements only of credits the agent holds |
| LocalInvariant.LocalStep | agent/storage/state.go:159-202 | every step keeps the queue a suffix of the grants, every sent batch a slice of them, and the server's local rows exactly a prefix |
| OrderInvariant.OrderStep | server/storage/sync.go:506-583 | every step keeps the one pending control the order behind the current flags and revision, and acknowledgeable orders confirmed by a cycle |
| AnchorInvariant.AnchorStep | agent/storage/session_state.go:34-88 | every step keeps anchor remaining plus usage equal to quota, grants and credits of its revision and date plus what the clamp added |
| AnchorInvariant.BalanceExact | server/storage/sync.go:661-689 | the balance a heartbeat answers with is the quota plus the grants it knows plus every credit queued so far, less usage |
| AnchorInvariant.PendingRows | agent/storage/session_state.go:46-54 | the local bonuses added to a stored anchor are exactly the grants not acknowledged yet |
| Safety.RunInv | server/storage/sync.go:117-282 | all six invariants hold in every state of every run |
| Safety.PolicyReplicated | agent/storage/policy.go:50-59 | in every reachable state the agent's policy is the server's of that revision, and anchor revision <= agent's <= server's |
| Safety.RevisionsNeverMove | server/storage/domain.go:783-801 | the server's revision never falls and a revision never gets a second policy |
| Safety.RunsOnlyGrow | server/storage/sync.go:170-176 | however a run goes on, no revision and no usage counter falls and no bonus row changes or disappears, on either side |
| Safety.CreditExactlyOnce | agent/storage/sync.go:45-73 | in every run a credit has at most one row per side with the queued seconds, the server's first, and its acknowledged command means a row on both |
| Safety.NoForeignRows | server/storage/sync.go:284-336 | no row is made up: web rows are credits', local rows are grants', and every local row of the server is on the agent |
| Safety.GrantNeverLost | agent/storage/state.go:91-143 | every local bonus is on the agent, and still pending or already on the server with the same date and seconds |
| Safety.KnownIsPrefix | agent/syncclient/client.go:257-261 | the pending events the server already knows are a prefix of the queue of at most one batch |
| Safety.UsageBounded | agent/storage/state.go:264-283 | for every date server <= durable, and the live counter is ahead of the durable one by less than one checkpoint interval, which is all a crash returns |
| Safety.ConfirmedUsageIsKnown | agent/daemon/daemon.go:197-202 | raising the counter to the confirmed usage never changes anything |
| Safety.SightingsAreCycles | agent/daemon/daemon.go:142-163 | what is on record as seen was seen by an earlier cycle of the run holding that control revision |
| Safety.CompletedWasSeen | agent/daemon/daemon.go:142-163 | a completed control command was preceded by a cycle holding the revision created with it that saw its effect: a session in front and locked for a block, none or an open one for an unlock or a pause |
| Safety.ControlRequested | server/storage/sync.go:506-583 | in every reachable state a control request leaves the flags of its kind and answers a pending command of that kind: the one pending already, with nothing changed, or a new one in place of any other, at the next revision |
| Safety.OneControlAtATime | server/storage/sync.go:506-583 | at most one control is unacknowledged, with the current revision and the current flags |
| Safety.LateAckIsIdle | server/storage/sync.go:188-242 | acknowledging a replaced or completed control changes nothing |
| Safety.DisplayedIsConfirmed | server/web/status.go:55-63 | the bonus shown is local rows plus acknowledged web rows, the clamp never fires, and every web bonus in it is on the agent |
| Safety.DisplayedRemainingIsConfirmed | server/web/status.go:64-75 | the remaining time shown is quota and confirmed bonus less usage, never more than the balance the next answer authorises, and equal to it once no credit waits |
| Balances.AnchorIsCache | agent/daemon/daemon.go:380-410 | in every reachable state with a current anchor the online balance is the offline one plus an exactly stated gap, before both are cut off at zero |
| Balances.SwitchingKeepsBalance | agent/daemon/daemon.go:380-410 | with credits delivered and dated alike the online balance is never below the offline one, and equal unless the server's clamp fired |
| Balances.SwitchingKeepsRemaining | agent/daemon/daemon.go:380-410 | the remaining time decided with is then the same online and offline |
| Balances.BalancedLasts | agent/storage/state.go:127-134 | that agreement lasts however the run goes on, as long as the revision and date in force stay: grants, accounting, lost and uneventful heartbeats, crashes |
| CrossDate.CrossDateExample | agent/syncclient/client.go:368-371 | a run from the start in which the answer that offers a credit is lost and the credit is taken on the next date: the two rows have different dates, and the current anchor is 600 seconds short of the agent's own tables |
| Rounds.AcceptedIff | server/storage/sync.go:117-161 | the server accepts any request ever sent, at any later time, iff its session identifier is valid and its usage within 48 hours |
| Rounds.ApplyNeverFails | agent/syncclient/client.go:256-305 | no transaction of applying an answer is ever refused: never a stale policy, never an incoherent balance |
| Rounds.HeartbeatAgrees | agent/syncclient/client.go:159-306 | one undisturbed heartbeat makes policy, control flags and usage equal on both sides, the anchor current, delivers every credit and takes one batch off the queue |
| Rounds.QueueDrains | agent/syncclient/client.go:190-220 | n pending events are gone after ceil(n/100) completed heartbeats and no earlier, and then both sides hold the same local rows |
| Rounds.RoundIsRun | agent/syncclient/client.go:159-306 | such a heartbeat is a run of the step system |
| Rounds.RoundDates | server/storage/sync.go:323-331 | a heartbeat for a date changes no row and dates every new web row, on either side, alike |
| Rounds.CreditDatesAgreeIff | server/storage/sync.go:323-331 | a credit the agent lacks is on both sides after a heartbeat, with one date iff the server had no row for it or had dated it as this heartbeat does |
| Rounds.HeartbeatBalances | agent/syncclient/client.go:270-305 | after a completed heartbeat the two authorities are balanced iff the dates of the credits met before it; then anchor and tables give the same balance unless the clamp fired, and the anchor never less |
| Rounds.OneDayMeets | server/storage/sync.go:323-331 | the dates meet on every run whose heartbeats all fell on that date |
| Progress.BacklogNeverGrows | server/storage/sync.go:188-242 | a heartbeat leaves no more commands unacknowledged than there were |
| Progress.RoundTakes | agent/syncclient/client.go:347-375 | after a heartbeat within the batch size every credit still waiting is acknowledgeable, a control still waiting is staged with the revision in force, and the next heartbeat is within the batch size too |
| Progress.CreditsConfirmed | server/web/status.go:55-63 | after two such heartbeats, of whatever dates, no credit waits for its acknowledgement and the administrator is shown the whole bonus of every date |
| Progress.ControlCompletes | agent/daemon/daemon.go:142-163 | a control command is completed and gone from the server after one heartbeat, one cycle that sees its effect and one more heartbeat |
| Progress.CycleIsReported | agent/daemon/daemon.go:131-140 | a request built after a cycle reports the session that cycle saw in front, and whether it was locked |
| Progress.SecondHeartbeatIsQuiet | agent/syncclient/client.go:205-220 | a second heartbeat of the date with nothing new on the server carries the revisions in force and is answered without policy or balance |
| Rounds.SettleAppliesAll | agent/syncclient/client.go:256-306 | settling an answer transaction by transaction leaves the tables and the authority that the client's method leaves |

## Left out

- Balances.SwitchingKeepsBalance: assumes that no credit counts for different dates on the two sides, because the code can date one differently across midnight; Rounds.CreditDatesAgreeIff says exactly when a heartbeat does.
- Rounds.CreditDatesAgreeIff: assumes at most 100 unacknowledged commands, because one answer offers no more.
- Rounds.HeartbeatBalances: assumes the same.
- Rounds.HeartbeatAgrees: assumes at most 100 unacknowledged commands for the delivery of every credit, because one answer offers no more.
- AlertLaws.NoWarningSkipped: leaves open a routine that starts within the last second of the quota, where the predicted reason, and with it the cycle of alerts, may change from poll to poll.
- Progress.CreditsConfirmed: assumes at most 100 unacknowledged commands and 100 acknowledgements waiting, because one message carries no more.
- Progress.ControlCompletes: assumes the same.
- Daemon.Daemon.Control: without a synchronization client the model clears pause and block, while the code keeps the flags of the stored policy (agent/daemon/daemon.go:101-106).
- LocalAuth.GuessesBounded: does not bound the guesses over restarts of the agent, which forget the failures.
- ServerStore.Store.SaveRoutine: does not trim white space from the name or keep the icon key, because neither reaches the agent's decisions, and counts the characters of the name where the code counts bytes.
- ServerStore.Store.LoadDeviceLiveStatus: leaves out the control status, the counting flag and the next block of the live view (server/web/status.go:84-144), which rest on when the device was last heard of.
- AgentStore.Store.ReplacePolicy: keeps the routines in the order received; the rows and the sorting are in PolicyTables, and PolicyTables.SortedDecidesAlike shows that the order is immaterial.
- PolicyTables.Tables.LoadDays: asks the day table once per routine and weekday instead of scanning its rows once.
- Alert.PlannedExactly: the texts of a notification are left out except for the minutes they name.
- Safety.RunInv: the step system treats a daemon cycle, a server transaction and each transaction of the client as one step; races inside one of them are not modelled.
- Storage failures: a storage error in the middle of a daemon cycle, which could recount an interval, is not modelled.
- Reads after the commit: an administrator's change between a heartbeat's commit and the reads that build its answer is not modelled.
- The pause and block columns of the policy table: read only by an agent without a synchronization client.
- Applied-revision columns, retry counters, delivery attempts and time stamps: written but never read by the protocol.
- Activity history, audit and communication logs: projections that must not affect delivery.
- Session enumeration failures beyond refusing the cycle, and the desktop notifier.
- Enrollment, database restore, token and administrator authentication, and password hashing.
- HTTP, JSON, TLS, D-Bus, logind, SQL text and schema, the web and local user interfaces, and configuration files.
- Daylight saving time and the time-zone database.
- Protocol version 1.
