/**
  The agent's side of one heartbeat: the request it builds, the checks it makes
  on the answer, and the transactions that apply the answer one after another.
*/
module Heartbeat {
  import opened Wrappers
  import opened Records
  import opened AgentTables
  import opened ServerTables
  import opened Accounting

  /** The graphical session the daemon last reported. */
  datatype SessionView = SessionView(active: bool, id: Id, locked: bool)

  datatype Memory = Memory(session: SessionView, control: RemoteControl)

  const NoSession: SessionView := SessionView(false, "", false)
  const Offline: RemoteControl := RemoteControl(false, false, false, 0)
  const FreshMemory: Memory := Memory(NoSession, Offline)

  function ViewOf(session: Option<Session>): SessionView {
    if session.Some? then SessionView(true, session.value.key, session.value.locked) else NoSession
  }

  function PolicyRevision(disk: Disk): int {
    if disk.policy.Some? then disk.policy.value.revision else 0
  }

  function AnchorRevision(disk: Disk): int {
    if disk.anchor.Some? then disk.anchor.value.revision else 0
  }

  function BuildRequest(disk: Disk, memory: Memory, date: Date): Request {
    var session := memory.session;
    Request(
      PolicyRevision(disk),
      memory.control.revision,
      AnchorRevision(disk),
      date,
      UsageOn(disk.usage, date),
      session.active,
      session.id,
      session.locked,
      session.active
        && (|| disk.anchor.None?
            || disk.anchor.value.sessionId != session.id
            || disk.anchor.value.date != date
            || disk.anchor.value.revision < PolicyRevision(disk)),
      First(disk.pending, BATCH),
      Newest(disk.applied, BATCH))
  }

  /** The answer carries the session state that was asked for, and a coherent one. */
  predicate Coherent(req: Request, resp: Response) {
    && (req.requestSessionState ==> resp.sessionState.Some?)
    && (resp.policy.Some? && req.sessionActive && resp.policy.value.revision > req.sessionStateRevision
        ==> resp.sessionState.Some?)
    && (resp.sessionState.Some? ==>
        var state := resp.sessionState.value;
        && req.sessionActive && state.sessionId == req.sessionId && state.date == req.date
        && state.revision >= 0 && state.remaining >= 0 && state.usage >= 0
        && (resp.policy.Some? ==> state.revision >= resp.policy.value.revision))
  }

  function AnchorOf(state: SessionState): Anchor {
    Anchor(state.revision, state.sessionId, state.date, state.remaining, state.usage)
  }

  function ControlOf(resp: Response): RemoteControl {
    RemoteControl(true, resp.control.paused, resp.control.blocked, resp.control.revision)
  }

  function ApplyCommand(disk: Disk, c: Command, controlRevision: int, date: Date): Result<Disk, StoreError> {
    if c.id == "" then Failure(InvalidArgument)
    else if c.kind.IsControl() then StageEffect(disk, Effect(c.id, controlRevision, c.kind))
    else if c.seconds <= 0 then Failure(InvalidArgument)
    else ApplyRemoteBonus(disk, c.id, BonusRow(date, c.seconds, Web))
  }

  /** How far an answer has been applied: a crash can fall between any two. */
  datatype Phase = Acking(next: nat) | Forgetting | Replacing | Anchoring | Commanding(next: nat) | Done

  /** The transaction of one phase, and the phase after it. */
  ghost function ApplyPhase(disk: Disk, req: Request, resp: Response, phase: Phase): Result<(Disk, Phase), StoreError>
    requires !phase.Done?
  {
    match phase
    case Acking(k) =>
      if k < |resp.acknowledgedEvents| then
        match Acknowledge(disk, resp.acknowledgedEvents[k])
        case Success(d) => Success((d, Acking(k + 1)))
        case Failure(e) => Failure(e)
      else Success((disk, Forgetting))
    case Forgetting =>
      (match Forget(disk, resp.acknowledgedCommands)
       case Success(d) => Success((d, Replacing))
       case Failure(e) => Failure(e))
    case Replacing =>
      if resp.policy.Some? then
        match ReplacePolicy(disk, resp.policy.value)
        case Success(d) => Success((d, Anchoring))
        case Failure(e) => Failure(e)
      else Success((disk, Anchoring))
    case Anchoring =>
      if !Coherent(req, resp) then Failure(InvalidArgument)
      else if resp.sessionState.Some? then
        match SaveAnchor(disk, AnchorOf(resp.sessionState.value))
        case Success(d) => Success((d, Commanding(0)))
        case Failure(e) => Failure(e)
      else Success((disk, Commanding(0)))
    case Commanding(k) =>
      if k < |resp.commands| then
        match ApplyCommand(disk, resp.commands[k], resp.control.revision, req.date)
        case Success(d) => Success((d, Commanding(k + 1)))
        case Failure(e) => Failure(e)
      else Success((disk, Done))
  }

  /** Each phase writes its own tables only. */
  lemma PhaseFrame(disk: Disk, req: Request, resp: Response, phase: Phase)
    requires !phase.Done? && ApplyPhase(disk, req, resp, phase).Success?
    ensures var d := ApplyPhase(disk, req, resp, phase).value.0;
      match phase
      case Acking(_) => d == disk.(pending := d.pending)
      case Forgetting => d == disk.(applied := d.applied)
      case Replacing => d == disk.(policy := d.policy)
      case Anchoring => d == disk.(anchor := d.anchor, usage := d.usage)
      case Commanding(_) => d == disk.(staged := d.staged, applied := d.applied, bonus := d.bonus)
  {
  }

  function PhasesLeft(resp: Response, phase: Phase): nat {
    match phase
    case Acking(k) => |resp.commands| + 6 + if k < |resp.acknowledgedEvents| then |resp.acknowledgedEvents| - k else 0
    case Forgetting => |resp.commands| + 5
    case Replacing => |resp.commands| + 4
    case Anchoring => |resp.commands| + 3
    case Commanding(k) => 1 + if k < |resp.commands| then |resp.commands| - k else 0
    case Done => 0
  }

  /** All remaining phases in turn; the flag is false if one of them failed. */
  ghost function ApplyAll(disk: Disk, req: Request, resp: Response, phase: Phase): (Disk, bool)
    decreases PhasesLeft(resp, phase)
  {
    if phase.Done? then (disk, true) else
      match ApplyPhase(disk, req, resp, phase)
      case Success(r) => ApplyAll(r.0, req, resp, r.1)
      case Failure(_) => (disk, false)
  }
}
