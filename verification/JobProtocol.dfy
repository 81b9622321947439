/**
 The concurrent life of backup jobs as a transition system: RPC clients that start
 jobs or read state, one detached worker per job, and one monitor per worker.

 Every lock acquisition and every critical section is a step of its own, so any
 interleaving of tasks is a run.  A worker may be aborted (a panic, or a
 cancellation at an await) wherever it stands; dropping its guards frees its locks.
 */
module JobProtocol {
  import opened Wrappers
  import opened JobRegistry

  datatype Outcome = Finished(payload: string) | Broken(message: string)

  /** Where a worker stands.  The `Holding*` points own a lock. */
  datatype WorkerPc =
    | Spawned
    | HoldingToMarkRunning
    | Working
    | HoldingToMarkProgress
    | HoldingToSetSlot
    | BackingUp
    | HoldingToClearSlot
    | SlotCleared
    | Concluding(outcome: Outcome)
    | HoldingToConclude(outcome: Outcome)
    | Returned
    | Aborted

  datatype Worker = Worker(profile: ProfileId, kind: Kind, pc: WorkerPc)

  datatype MonitorPc = Awaiting | Recovering | HoldingRegistry | HoldingBoth | Done

  datatype Request = StartRequest(profile: ProfileId, kind: Kind) | ReadRequest | StatusRequest

  datatype ClientPc =
    | Queued(request: Request)
    | Holding(request: Request)
    | Spawning(job: JobId, profile: ProfileId, kind: Kind)

  datatype Task = WorkerOf(job: JobId) | MonitorOf(job: JobId) | Client(client: nat)

  /** The running marker.  The code stores the profile alone; the writer is kept for the proofs. */
  datatype Marker = Marker(profile: ProfileId, writer: JobId)

  datatype System = System(
    jobs: Jobs,
    issued: set<JobId>,
    slot: Option<Marker>,
    registryLock: Option<Task>,
    slotLock: Option<Task>,
    workers: map<JobId, Worker>,
    monitors: map<JobId, MonitorPc>,
    clients: map<nat, ClientPc>)

  const INITIAL := System(map[], {}, None, None, None, map[], map[], map[])

  datatype Step =
    | Arrive(client: nat, request: Request)
    | Leave(client: nat)
    | ClientLock(client: nat)
    | ClientAct(client: nat, now: int, newId: JobId)
    | Spawn(client: nat)
    | WorkerLock(job: JobId)
    | WorkerAct(job: JobId, now: int, fraction: real)
    | WorkerConclude(job: JobId, outcome: Outcome)
    | Abort(job: JobId)
    | MonitorWake(job: JobId)
    | MonitorLock(job: JobId)
    | MonitorAct(job: JobId, now: int)

  // ---- Who owns and who wants which lock ----

  predicate HoldsRegistry(pc: WorkerPc) {
    pc.HoldingToMarkRunning? || pc.HoldingToMarkProgress? || pc.HoldingToConclude?
  }

  predicate HoldsSlot(pc: WorkerPc) {
    pc.HoldingToSetSlot? || pc.HoldingToClearSlot?
  }

  predicate WantsRegistry(w: Worker) {
    w.pc.Spawned? || w.pc.Concluding? || (w.pc.Working? && w.kind == Restore)
  }

  predicate WantsSlot(w: Worker) {
    w.kind == RunBackup && (w.pc.Working? || w.pc.BackingUp?)
  }

  /** The point a worker reaches once it has the lock it waits for. */
  function Locked(w: Worker): WorkerPc
    requires WantsRegistry(w) || WantsSlot(w)
  {
    match w.pc
    case Spawned => HoldingToMarkRunning
    case Concluding(o) => HoldingToConclude(o)
    case BackingUp => HoldingToClearSlot
    case _ => if w.kind == Restore then HoldingToMarkProgress else HoldingToSetSlot
  }

  predicate Ended(pc: WorkerPc) {
    pc.Returned? || pc.Aborted?
  }

  predicate OnSlot(request: Request) {
    request.StatusRequest?
  }

  // ---- Steps ----

  predicate Enabled(s: System, step: Step) {
    match step
    case Arrive(c, request) => c !in s.clients
    case Leave(c) => c in s.clients && s.clients[c].Queued?
    case ClientLock(c) =>
      && c in s.clients && s.clients[c].Queued?
      && (if OnSlot(s.clients[c].request) then s.slotLock == None else s.registryLock == None)
    case ClientAct(c, now, newId) => c in s.clients && s.clients[c].Holding? && newId !in s.issued
    case Spawn(c) => c in s.clients && s.clients[c].Spawning?
    case WorkerLock(j) =>
      && j in s.workers
      && ((WantsRegistry(s.workers[j]) && s.registryLock == None) || (WantsSlot(s.workers[j]) && s.slotLock == None))
    case WorkerAct(j, now, fraction) =>
      j in s.workers && (HoldsRegistry(s.workers[j].pc) || HoldsSlot(s.workers[j].pc))
    case WorkerConclude(j, outcome) =>
      && j in s.workers
      && (s.workers[j].pc.SlotCleared?
          || (s.workers[j].pc.Working? && (s.workers[j].kind == RunBackup ==> outcome.Broken?)))
    case Abort(j) => j in s.workers && !Ended(s.workers[j].pc)
    case MonitorWake(j) => j in s.workers && j in s.monitors && s.monitors[j].Awaiting? && Ended(s.workers[j].pc)
    case MonitorLock(j) =>
      && j in s.monitors
      && ((s.monitors[j].Recovering? && s.registryLock == None)
          || (s.monitors[j].HoldingRegistry? && Active(s.jobs, j) && s.slotLock == None))
    case MonitorAct(j, now) =>
      && j in s.monitors
      && ((s.monitors[j].HoldingRegistry? && !Active(s.jobs, j)) || (s.monitors[j].HoldingBoth? && j in s.jobs))
  }

  function Moved(s: System, j: JobId, pc: WorkerPc): map<JobId, Worker>
    requires j in s.workers
  {
    s.workers[j := s.workers[j].(pc := pc)]
  }

  function ClientActed(s: System, c: nat, now: int, newId: JobId): System
    requires Enabled(s, ClientAct(c, now, newId))
  {
    match s.clients[c].request
    case StatusRequest => s.(clients := s.clients - {c}, slotLock := None)
    case ReadRequest => s.(clients := s.clients - {c}, registryLock := None, jobs := Collected(s.jobs, now))
    case StartRequest(p, k) =>
      var next := Started(s.jobs, p, k, now, newId);
      var accepted := newId in next;
      s.(jobs := next,
         registryLock := None,
         issued := if accepted then s.issued + {newId} else s.issued,
         clients := if accepted then s.clients[c := Spawning(newId, p, k)] else s.clients - {c})
  }

  // What a worker's critical section does to its program point, to the registry and to the slot.

  function AfterSection(pc: WorkerPc): WorkerPc {
    match pc
    case HoldingToSetSlot => BackingUp
    case HoldingToClearSlot => SlotCleared
    case HoldingToConclude(_) => Returned
    case _ => Working
  }

  function JobsAfterSection(jobs: Jobs, j: JobId, pc: WorkerPc, now: int, fraction: real): Jobs {
    match pc
    case HoldingToMarkRunning => MarkedRunning(jobs, j, now)
    case HoldingToMarkProgress => MarkedProgress(jobs, j, fraction)
    case HoldingToConclude(Finished(payload)) => MarkedSucceeded(jobs, j, payload, now)
    case HoldingToConclude(Broken(message)) => MarkedFailed(jobs, j, message, now)
    case _ => jobs
  }

  function SlotAfterSection(slot: Option<Marker>, j: JobId, w: Worker): Option<Marker> {
    match w.pc
    case HoldingToSetSlot => Some(Marker(w.profile, j))
    case HoldingToClearSlot => None
    case _ => slot
  }

  function WorkerActed(s: System, j: JobId, now: int, fraction: real): System
    requires Enabled(s, WorkerAct(j, now, fraction))
  {
    var w := s.workers[j];
    s.(jobs := JobsAfterSection(s.jobs, j, w.pc, now, fraction),
       slot := SlotAfterSection(s.slot, j, w),
       registryLock := if HoldsRegistry(w.pc) then None else s.registryLock,
       slotLock := if HoldsSlot(w.pc) then None else s.slotLock,
       workers := Moved(s, j, AfterSection(w.pc)))
  }

  /** Recovery takes the marker down when it names this job's profile, whoever wrote it. */
  predicate RecoveryClears(s: System, j: JobId)
    requires j in s.jobs
  {
    s.slot.Some? && s.slot.value.profile == s.jobs[j].profile
  }

  function MonitorActed(s: System, j: JobId, now: int): System
    requires Enabled(s, MonitorAct(j, now))
  {
    if s.monitors[j].HoldingRegistry?
    then s.(monitors := s.monitors[j := Done], registryLock := None)
    else s.(
      monitors := s.monitors[j := Done],
      registryLock := None,
      slotLock := None,
      slot := if RecoveryClears(s, j) then None else s.slot,
      jobs := MarkedFailed(s.jobs, j, UNEXPECTED_TASK_ERROR, now))
  }

  function Apply(s: System, step: Step): System
    requires Enabled(s, step)
  {
    match step
    case Arrive(c, request) => s.(clients := s.clients[c := Queued(request)])
    case Leave(c) => s.(clients := s.clients - {c})
    case ClientLock(c) =>
      var request := s.clients[c].request;
      if OnSlot(request)
      then s.(clients := s.clients[c := Holding(request)], slotLock := Some(Client(c)))
      else s.(clients := s.clients[c := Holding(request)], registryLock := Some(Client(c)))
    case ClientAct(c, now, newId) => ClientActed(s, c, now, newId)
    case Spawn(c) =>
      var Spawning(j, p, k) := s.clients[c];
      s.(clients := s.clients - {c},
         workers := s.workers[j := Worker(p, k, Spawned)],
         monitors := s.monitors[j := Awaiting])
    case WorkerLock(j) =>
      var w := s.workers[j];
      if WantsRegistry(w)
      then s.(workers := Moved(s, j, Locked(w)), registryLock := Some(WorkerOf(j)))
      else s.(workers := Moved(s, j, Locked(w)), slotLock := Some(WorkerOf(j)))
    case WorkerAct(j, now, fraction) => WorkerActed(s, j, now, fraction)
    case WorkerConclude(j, outcome) => s.(workers := Moved(s, j, Concluding(outcome)))
    case Abort(j) =>
      var w := s.workers[j];
      s.(workers := Moved(s, j, Aborted),
         registryLock := if HoldsRegistry(w.pc) then None else s.registryLock,
         slotLock := if HoldsSlot(w.pc) then None else s.slotLock)
    case MonitorWake(j) => s.(monitors := s.monitors[j := Recovering])
    case MonitorLock(j) =>
      if s.monitors[j].Recovering?
      then s.(monitors := s.monitors[j := HoldingRegistry], registryLock := Some(MonitorOf(j)))
      else s.(monitors := s.monitors[j := HoldingBoth], slotLock := Some(MonitorOf(j)))
    case MonitorAct(j, now) => MonitorActed(s, j, now)
  }

  /** A run: `states[0]` is the empty engine and each step leads to the next state. */
  ghost predicate IsRun(states: seq<System>, steps: seq<Step>) {
    && |states| == |steps| + 1
    && states[0] == INITIAL
    && forall i | 0 <= i < |steps| :: Enabled(states[i], steps[i]) && states[i + 1] == Apply(states[i], steps[i])
  }

  // ---- The invariant ----

  predicate TaskHoldsRegistry(s: System, t: Task) {
    match t
    case WorkerOf(j) => j in s.workers && HoldsRegistry(s.workers[j].pc)
    case MonitorOf(j) => j in s.monitors && (s.monitors[j].HoldingRegistry? || s.monitors[j].HoldingBoth?)
    case Client(c) => c in s.clients && s.clients[c].Holding? && !OnSlot(s.clients[c].request)
  }

  predicate TaskHoldsSlot(s: System, t: Task) {
    match t
    case WorkerOf(j) => j in s.workers && HoldsSlot(s.workers[j].pc)
    case MonitorOf(j) => j in s.monitors && s.monitors[j].HoldingBoth?
    case Client(c) => c in s.clients && s.clients[c].Holding? && OnSlot(s.clients[c].request)
  }

  predicate LocksAgreeFor(s: System, t: Task) {
    && (TaskHoldsRegistry(s, t) <==> s.registryLock == Some(t))
    && (TaskHoldsSlot(s, t) <==> s.slotLock == Some(t))
  }

  ghost predicate LocksAgree(s: System) {
    forall t :: LocksAgreeFor(s, t)
  }

  predicate BeingSpawned(s: System, c: nat, j: JobId) {
    c in s.clients && s.clients[c].Spawning? && s.clients[c].job == j
  }

  /** Every issued job belongs to a worker or to exactly one client about to spawn it. */
  ghost predicate JobsOwned(s: System) {
    && s.monitors.Keys == s.workers.Keys <= s.issued
    && s.jobs.Keys <= s.issued
    && (forall j :: j in s.jobs ==> j in s.workers || exists c :: BeingSpawned(s, c, j))
    && (forall c, j :: BeingSpawned(s, c, j) ==>
          && j in s.issued && j !in s.workers
          && j in s.jobs && s.jobs[j].state == Pending
          && s.jobs[j].profile == s.clients[c].profile && s.jobs[j].kind == s.clients[c].kind)
    && (forall c, d, j :: BeingSpawned(s, c, j) && BeingSpawned(s, d, j) ==> c == d)
  }

  /** The job record a worker's program point implies. */
  predicate RecordFits(s: System, j: JobId)
    requires j in s.workers && j in s.monitors
  {
    var w, m := s.workers[j], s.monitors[j];
    && (j in s.jobs ==> s.jobs[j].profile == w.profile && s.jobs[j].kind == w.kind)
    && (!m.Awaiting? ==> Ended(w.pc))
    && (m.HoldingBoth? ==> Active(s.jobs, j))
    && (match w.pc
        case Spawned => j in s.jobs && s.jobs[j].state == Pending
        case HoldingToMarkRunning => j in s.jobs && s.jobs[j].state == Pending
        case Returned => !Active(s.jobs, j)
        case Aborted => m.Done? <==> !Active(s.jobs, j)
        case _ => j in s.jobs && s.jobs[j].state == Running)
    && ((w.pc.HoldingToSetSlot? || w.pc.BackingUp? || w.pc.HoldingToClearSlot? || w.pc.SlotCleared?) ==>
          w.kind == RunBackup)
  }

  ghost predicate RecordsFit(s: System)
    requires s.monitors.Keys == s.workers.Keys
  {
    forall j :: j in s.workers ==> RecordFits(s, j)
  }

  /** A posted marker was written by an active backup that has not taken it down yet. */
  predicate MarkerLive(s: System) {
    s.slot.Some? ==>
      var Marker(p, j) := s.slot.value;
      && Active(s.jobs, j)
      && s.jobs[j].profile == p && s.jobs[j].kind == RunBackup
      && j in s.workers
      && (s.workers[j].pc.BackingUp? || s.workers[j].pc.HoldingToClearSlot? || s.workers[j].pc.Aborted?)
  }

  ghost predicate Inv(s: System) {
    && LocksAgree(s)
    && JobsOwned(s)
    && RecordsFit(s)
    && OneActivePerProfile(s.jobs)
    && MarkerLive(s)
  }

  // ---- Every step keeps the invariant ----

  function Actor(step: Step): Task {
    match step
    case Arrive(c, _) => Client(c)
    case Leave(c) => Client(c)
    case ClientLock(c) => Client(c)
    case ClientAct(c, _, _) => Client(c)
    case Spawn(c) => Client(c)
    case WorkerLock(j) => WorkerOf(j)
    case WorkerAct(j, _, _) => WorkerOf(j)
    case WorkerConclude(j, _) => WorkerOf(j)
    case Abort(j) => WorkerOf(j)
    case MonitorWake(j) => MonitorOf(j)
    case MonitorLock(j) => MonitorOf(j)
    case MonitorAct(j, _) => MonitorOf(j)
  }

  predicate SpawnsNew(s: System, step: Step)
    requires Enabled(s, step)
  {
    step.Spawn? ==> s.clients[step.client].job !in s.workers && s.clients[step.client].job !in s.monitors
  }

  lemma LocksAgreeForKeptByClient(s: System, step: Step, t: Task)
    requires Enabled(s, step) && Actor(step).Client? && SpawnsNew(s, step)
    requires LocksAgreeFor(s, t) && LocksAgreeFor(s, Actor(step))
    ensures LocksAgreeFor(Apply(s, step), t)
  {
  }

  lemma LocksAgreeForKeptByWorker(s: System, step: Step, t: Task)
    requires Enabled(s, step) && Actor(step).WorkerOf?
    requires LocksAgreeFor(s, t) && LocksAgreeFor(s, Actor(step))
    ensures LocksAgreeFor(Apply(s, step), t)
  {
  }

  lemma LocksAgreeForKeptByMonitor(s: System, step: Step, t: Task)
    requires Enabled(s, step) && Actor(step).MonitorOf?
    requires LocksAgreeFor(s, t) && LocksAgreeFor(s, Actor(step))
    ensures LocksAgreeFor(Apply(s, step), t)
  {
  }

  lemma LocksAgreeKept(s: System, step: Step)
    requires LocksAgree(s) && Enabled(s, step) && SpawnsNew(s, step)
    ensures LocksAgree(Apply(s, step))
  {
    var next := Apply(s, step);
    forall t
      ensures LocksAgreeFor(next, t)
    {
      match Actor(step)
      case Client(_) => LocksAgreeForKeptByClient(s, step, t);
      case WorkerOf(_) => LocksAgreeForKeptByWorker(s, step, t);
      case MonitorOf(_) => LocksAgreeForKeptByMonitor(s, step, t);
    }
  }

  /** The only jobs a step may touch: its own, plus finished ones that GC drops and the one it starts. */
  lemma JobsChange(s: System, step: Step, j: JobId)
    requires Enabled(s, step) && s.jobs.Keys <= s.issued
    requires Actor(step) != WorkerOf(j) && Actor(step) != MonitorOf(j)
    ensures var next := Apply(s, step);
            || (j in s.jobs && j in next.jobs && next.jobs[j] == s.jobs[j])
            || (j !in s.jobs && j !in next.jobs)
            || (j in s.jobs && j !in next.jobs && s.jobs[j].state.Terminal())
            || (j !in s.jobs && j in next.jobs && step.ClientAct? && j == step.newId && next.jobs[j].state == Pending)
  {
  }

  lemma RecordFitsKeptByOthers(s: System, step: Step, j: JobId)
    requires Enabled(s, step) && s.jobs.Keys <= s.issued && SpawnsNew(s, step)
    requires j in s.workers && j in s.monitors && j in s.issued && RecordFits(s, j)
    requires Actor(step) != WorkerOf(j) && Actor(step) != MonitorOf(j)
    ensures var next := Apply(s, step);
            j in next.workers && j in next.monitors && RecordFits(next, j)
  {
    JobsChange(s, step, j);
    var next := Apply(s, step);
    assert next.workers[j] == s.workers[j] && next.monitors[j] == s.monitors[j];
  }

  lemma RecordFitsKeptByWorker(s: System, step: Step, j: JobId)
    requires Enabled(s, step) && Actor(step) == WorkerOf(j)
    requires j in s.workers && j in s.monitors && RecordFits(s, j)
    ensures var next := Apply(s, step);
            j in next.workers && j in next.monitors && RecordFits(next, j)
  {
  }

  lemma RecordFitsKeptByMonitor(s: System, step: Step, j: JobId)
    requires Enabled(s, step) && Actor(step) == MonitorOf(j)
    requires j in s.workers && j in s.monitors && RecordFits(s, j)
    ensures var next := Apply(s, step);
            j in next.workers && j in next.monitors && RecordFits(next, j)
  {
  }

  lemma RecordsFitKept(s: System, step: Step)
    requires Inv(s) && Enabled(s, step) && SpawnsNew(s, step)
    requires Apply(s, step).monitors.Keys == Apply(s, step).workers.Keys
    ensures RecordsFit(Apply(s, step))
  {
    var next := Apply(s, step);
    forall j | j in next.workers
      ensures RecordFits(next, j)
    {
      if j !in s.workers {
        assert BeingSpawned(s, step.client, j);
      } else if Actor(step) == WorkerOf(j) {
        RecordFitsKeptByWorker(s, step, j);
      } else if Actor(step) == MonitorOf(j) {
        RecordFitsKeptByMonitor(s, step, j);
      } else {
        RecordFitsKeptByOthers(s, step, j);
      }
    }
  }

  lemma SpawnTarget(s: System, step: Step)
    requires JobsOwned(s) && Enabled(s, step)
    ensures SpawnsNew(s, step)
    ensures step.Spawn? ==> s.clients[step.client].job in s.issued
  {
  }

  lemma KeyKept(s: System, step: Step, j: JobId)
    requires Enabled(s, step)
    requires j in s.monitors <==> j in s.workers
    requires j in s.workers || j in s.jobs ==> j in s.issued
    requires step.Spawn? ==> s.clients[step.client].job in s.issued
    ensures var next := Apply(s, step);
            && (j in next.monitors <==> j in next.workers)
            && (j in next.workers || j in next.jobs ==> j in next.issued)
            && (j in s.workers ==> j in next.workers)
  {
  }

  lemma KeysKept(s: System, step: Step)
    requires JobsOwned(s) && Enabled(s, step)
    ensures SpawnsNew(s, step)
    ensures var next := Apply(s, step);
            && next.monitors.Keys == next.workers.Keys <= next.issued
            && next.jobs.Keys <= next.issued
            && s.workers.Keys <= next.workers.Keys
  {
    SpawnTarget(s, step);
    forall j {
      KeyKept(s, step, j);
    }
  }

  /** A client about to spawn a job stays the job's only owner until it does. */
  lemma SpawningKept(s: System, step: Step, c: nat, j: JobId)
    requires JobsOwned(s) && Enabled(s, step)
    requires BeingSpawned(Apply(s, step), c, j)
    ensures var next := Apply(s, step);
            && j in next.issued && j !in next.workers
            && j in next.jobs && next.jobs[j].state == Pending
            && next.jobs[j].profile == next.clients[c].profile && next.jobs[j].kind == next.clients[c].kind
    ensures BeingSpawned(s, c, j) || (step.ClientAct? && step.newId == j && step.client == c)
  {
    KeysKept(s, step);
    if BeingSpawned(s, c, j) {
      JobsChange(s, step, j);
      if step.Spawn? {
        assert BeingSpawned(s, step.client, s.clients[step.client].job);
      }
    }
  }

  lemma OwnerKept(s: System, step: Step, j: JobId) returns (c: nat)
    requires JobsOwned(s) && Enabled(s, step)
    requires j in Apply(s, step).jobs && j !in Apply(s, step).workers
    ensures BeingSpawned(Apply(s, step), c, j)
  {
    KeysKept(s, step);
    JobsChange(s, step, j);
    if j in s.jobs {
      c :| BeingSpawned(s, c, j);
    } else {
      c := step.client;
    }
  }

  lemma JobsOwnedKept(s: System, step: Step)
    requires JobsOwned(s) && Enabled(s, step)
    ensures JobsOwned(Apply(s, step))
  {
    var next := Apply(s, step);
    KeysKept(s, step);
    forall c, j | BeingSpawned(next, c, j)
      ensures j in next.issued && j !in next.workers && j in next.jobs && next.jobs[j].state == Pending
      ensures next.jobs[j].profile == next.clients[c].profile && next.jobs[j].kind == next.clients[c].kind
    {
      SpawningKept(s, step, c, j);
    }
    forall c, d, j | BeingSpawned(next, c, j) && BeingSpawned(next, d, j)
      ensures c == d
    {
      SpawningKept(s, step, c, j);
      SpawningKept(s, step, d, j);
    }
    forall j | j in next.jobs && j !in next.workers
      ensures exists c :: BeingSpawned(next, c, j)
    {
      var c := OwnerKept(s, step, j);
    }
  }

  /** Ending or dropping jobs cannot create a rival. */
  lemma FewerActive(jobs: Jobs, next: Jobs)
    requires OneActivePerProfile(jobs)
    requires forall id :: Active(next, id) ==> Active(jobs, id) && next[id].profile == jobs[id].profile
    ensures OneActivePerProfile(next)
  {
  }

  lemma OneActiveKept(s: System, step: Step)
    requires Inv(s) && Enabled(s, step)
    ensures OneActivePerProfile(Apply(s, step).jobs)
  {
    var next := Apply(s, step);
    if step.ClientAct? && s.clients[step.client].request.StartRequest? {
      var StartRequest(p, k) := s.clients[step.client].request;
      StartedKeepsOneActive(s.jobs, p, k, step.now, step.newId);
    } else {
      forall j | Active(next.jobs, j)
        ensures Active(s.jobs, j) && next.jobs[j].profile == s.jobs[j].profile
      {
        if Actor(step) == WorkerOf(j) {
          assert RecordFits(s, j);
        } else if Actor(step) != MonitorOf(j) {
          JobsChange(s, step, j);
        }
      }
      FewerActive(s.jobs, next.jobs);
    }
  }

  /** Recovery only ever takes down the marker that its own job's worker posted. */
  lemma RecoveryOwnsMarker(s: System, j: JobId)
    requires Inv(s) && j in s.monitors && s.monitors[j].HoldingBoth?
    ensures Active(s.jobs, j)
    ensures RecoveryClears(s, j) ==> s.slot.value.writer == j
    ensures s.slot.Some? && s.slot.value.writer == j ==> RecoveryClears(s, j)
  {
  }

  /** Another task's step leaves a marker and its writer alone, or takes the marker down. */
  lemma MarkerLiveKeptByOthers(s: System, step: Step)
    requires JobsOwned(s) && MarkerLive(s) && Enabled(s, step)
    requires Apply(s, step).slot.Some?
    requires var j := Apply(s, step).slot.value.writer; Actor(step) != WorkerOf(j) && Actor(step) != MonitorOf(j)
    ensures MarkerLive(Apply(s, step))
  {
    var j := Apply(s, step).slot.value.writer;
    KeysKept(s, step);
    JobsChange(s, step, j);
    assert Apply(s, step).workers[j] == s.workers[j];
  }

  lemma MarkerLiveKept(s: System, step: Step)
    requires Inv(s) && Enabled(s, step)
    ensures MarkerLive(Apply(s, step))
  {
    var next := Apply(s, step);
    if next.slot.Some? {
      var j := next.slot.value.writer;
      if Actor(step) != WorkerOf(j) && Actor(step) != MonitorOf(j) {
        MarkerLiveKeptByOthers(s, step);
      } else {
        assert RecordFits(s, j);
      }
    }
  }

  lemma InvKept(s: System, step: Step)
    requires Inv(s) && Enabled(s, step)
    ensures Inv(Apply(s, step))
  {
    KeysKept(s, step);
    LocksAgreeKept(s, step);
    JobsOwnedKept(s, step);
    RecordsFitKept(s, step);
    OneActiveKept(s, step);
    MarkerLiveKept(s, step);
  }

  lemma {:induction false} InvAlways(states: seq<System>, steps: seq<Step>, i: nat)
    requires IsRun(states, steps) && i < |states|
    ensures Inv(states[i])
  {
    if i > 0 {
      InvAlways(states, steps, i - 1);
      InvKept(states[i - 1], steps[i - 1]);
    }
  }

  // ---- Safety over whole runs ----

  /** In every interleaving, no profile has two non-terminal jobs. */
  lemma OneActiveJobAlways(states: seq<System>, steps: seq<Step>, i: nat, a: JobId, b: JobId)
    requires IsRun(states, steps) && i < |states|
    requires Active(states[i].jobs, a) && Active(states[i].jobs, b)
    requires states[i].jobs[a].profile == states[i].jobs[b].profile
    ensures a == b
  {
    InvAlways(states, steps, i);
  }

  lemma FinishedKept(s: System, step: Step, j: JobId)
    requires Inv(s) && Enabled(s, step)
    requires j in s.issued && !Active(s.jobs, j)
    ensures var next := Apply(s, step);
            j in next.issued && (j in next.jobs ==> j in s.jobs && next.jobs[j] == s.jobs[j])
  {
    KeysKept(s, step);
    if Actor(step) == WorkerOf(j) || Actor(step) == MonitorOf(j) {
      assert RecordFits(s, j);
    } else {
      JobsChange(s, step, j);
    }
  }

  /**
   A finished job's whole record never changes again: later it is the same or gone,
   and once gone it never comes back.
   */
  lemma {:induction false} FinishedForever(states: seq<System>, steps: seq<Step>, i: nat, k: nat, j: JobId)
    requires IsRun(states, steps) && i <= k < |states|
    requires j in states[i].issued && !Active(states[i].jobs, j)
    ensures j in states[k].issued
    ensures j in states[k].jobs ==> j in states[i].jobs && states[k].jobs[j] == states[i].jobs[j]
  {
    if i < k {
      FinishedForever(states, steps, i, k - 1, j);
      InvAlways(states, steps, k - 1);
      FinishedKept(states[k - 1], steps[k - 1], j);
    }
  }

  /** A job leaves the registry only after it has finished. */
  lemma OnlyFinishedJobsDisappear(states: seq<System>, steps: seq<Step>, i: nat, j: JobId)
    requires IsRun(states, steps) && i < |steps|
    requires Active(states[i].jobs, j)
    ensures j in states[i + 1].jobs
  {
    InvAlways(states, steps, i);
    if Actor(steps[i]) == WorkerOf(j) || Actor(steps[i]) == MonitorOf(j) {
      assert RecordFits(states[i], j);
    } else {
      JobsChange(states[i], steps[i], j);
    }
  }

  /** The step is a registry request that finds `job` an hour old. */
  predicate Expires(s: System, step: Step, job: Job)
    requires Enabled(s, step)
  {
    && step.ClientAct? && !OnSlot(s.clients[step.client].request)
    && match job.finishedAt
       case Some(At(t)) => t + JOB_RETENTION <= step.now
       case _ => false
  }

  lemma DropsIffExpired(s: System, step: Step, j: JobId)
    requires Inv(s) && Enabled(s, step) && j in s.jobs && s.jobs[j].state.Terminal()
    ensures j !in Apply(s, step).jobs <==> Expires(s, step, s.jobs[j])
  {
    assert step.ClientAct? ==> s.clients[step.client].Holding?;
  }

  lemma JobIsIssued(s: System, j: JobId)
    requires Inv(s) && j in s.jobs
    ensures j in s.issued
  {
  }

  /** A finished job stays readable until a registry request finds it an hour old, and goes with that request. */
  lemma {:induction false} ReadableUntilExpired(states: seq<System>, steps: seq<Step>, i: nat, k: nat, j: JobId)
    requires IsRun(states, steps) && i <= k < |states|
    requires j in states[i].jobs && states[i].jobs[j].state.Terminal()
    ensures j in states[k].jobs <==>
            forall m :: i <= m < k ==> !Expires(states[m], steps[m], states[i].jobs[j])
  {
    hide Inv, Apply, Enabled, Expires;
    if i < k {
      var m := k - 1;
      ReadableUntilExpired(states, steps, i, m, j);
      InvAlways(states, steps, i);
      JobIsIssued(states[i], j);
      InvAlways(states, steps, m);
      FinishedForever(states, steps, i, m, j);
      if j in states[m].jobs {
        DropsIffExpired(states[m], steps[m], j);
      } else {
        FinishedKept(states[m], steps[m], j);
      }
    }
  }

  predicate Carries(job: Job, outcome: Outcome) {
    match outcome
    case Finished(payload) => job.state == Succeeded && job.result == Some(payload)
    case Broken(message) => job.state == Failed && job.error == Some(message)
  }

  /** The verdict a worker writes is never overwritten, not even by its own monitor. */
  lemma WorkerVerdictStands(states: seq<System>, steps: seq<Step>, i: nat, k: nat, j: JobId)
    requires IsRun(states, steps) && i < |steps| && i < k < |states|
    requires steps[i].WorkerAct? && steps[i].job == j && states[i].workers[j].pc.HoldingToConclude?
    ensures j in states[i + 1].jobs && Carries(states[i + 1].jobs[j], states[i].workers[j].pc.outcome)
    ensures j in states[k].jobs ==> Carries(states[k].jobs[j], states[i].workers[j].pc.outcome)
  {
    InvAlways(states, steps, i);
    assert RecordFits(states[i], j);
    FinishedForever(states, steps, i + 1, k, j);
  }

  /** Once its monitor is done, a job is finished or gone, for good. */
  lemma MonitorDoneMeansSettled(states: seq<System>, steps: seq<Step>, i: nat, k: nat, j: JobId)
    requires IsRun(states, steps) && i <= k < |states|
    requires j in states[i].monitors && states[i].monitors[j].Done?
    ensures !Active(states[k].jobs, j)
  {
    InvAlways(states, steps, i);
    assert RecordFits(states[i], j);
    FinishedForever(states, steps, i, k, j);
  }

  /**
   When recovery takes a marker down it is the one its own abandoned job posted, that
   job is the profile's only active job, and afterwards the job is failed.  Any other
   posted marker is left alone.
   */
  lemma RecoveryTakesOwnMarker(states: seq<System>, steps: seq<Step>, i: nat, j: JobId)
    requires IsRun(states, steps) && i < |steps|
    requires steps[i].MonitorAct? && steps[i].job == j && states[i].monitors[j].HoldingBoth?
    ensures states[i].slot != states[i + 1].slot <==>
            states[i].slot.Some? && states[i].slot.value.writer == j
    ensures states[i].slot != states[i + 1].slot ==> states[i + 1].slot == None
    ensures forall k :: Active(states[i].jobs, k) && states[i].jobs[k].profile == states[i].jobs[j].profile ==> k == j
    ensures states[i + 1].jobs[j].state == Failed && states[i + 1].jobs[j].error == Some(UNEXPECTED_TASK_ERROR)
  {
    InvAlways(states, steps, i);
    RecoveryOwnsMarker(states[i], j);
  }

  /** `backup.status` never names a profile without an unfinished backup job. */
  lemma MarkerNamesActiveBackup(states: seq<System>, steps: seq<Step>, i: nat) returns (j: JobId)
    requires IsRun(states, steps) && i < |states| && states[i].slot.Some?
    ensures Active(states[i].jobs, j)
    ensures states[i].jobs[j].profile == states[i].slot.value.profile
    ensures states[i].jobs[j].kind == RunBackup
  {
    InvAlways(states, steps, i);
    j := states[i].slot.value.writer;
  }

  /** When every task has run to its end, nothing is left active and no marker is left up. */
  lemma QuietEngineIsClean(states: seq<System>, steps: seq<Step>, i: nat)
    requires IsRun(states, steps) && i < |states|
    requires states[i].clients == map[]
    requires forall j :: j in states[i].monitors ==> states[i].monitors[j].Done?
    ensures states[i].slot == None
    ensures forall j :: !Active(states[i].jobs, j)
  {
    InvAlways(states, steps, i);
    var s := states[i];
    forall j
      ensures !Active(s.jobs, j)
    {
      if j in s.workers {
        assert RecordFits(s, j);
      } else {
        assert forall c :: !BeingSpawned(s, c, j);
      }
    }
  }

  // ---- No deadlock ----

  predicate Progress(step: Step) {
    !step.Abort? && !step.Arrive? && !step.Leave?
  }

  /** `path` is a run fragment from `s` in which nobody is aborted, arrives or gives up. */
  ghost predicate IsPath(s: System, path: seq<System>, steps: seq<Step>) {
    && |path| == |steps| + 1
    && path[0] == s
    && forall i | 0 <= i < |steps| ::
         Progress(steps[i]) && Enabled(path[i], steps[i]) && path[i + 1] == Apply(path[i], steps[i])
  }

  predicate Unfinished(s: System, t: Task) {
    match t
    case WorkerOf(j) => j in s.workers && !Ended(s.workers[j].pc)
    case MonitorOf(j) =>
      j in s.monitors && j in s.workers && !s.monitors[j].Done? && (s.monitors[j].Awaiting? ==> Ended(s.workers[j].pc))
    case Client(c) => c in s.clients
  }

  ghost predicate CanMove(s: System, t: Task) {
    exists step :: Actor(step) == t && Progress(step) && Enabled(s, step)
  }

  lemma {:induction false} FreshId(used: set<JobId>) returns (id: JobId)
    ensures forall u :: u in used ==> u < id
  {
    if used == {} {
      id := 0;
    } else {
      var u :| u in used;
      var rest := FreshId(used - {u});
      id := if u < rest then rest else u + 1;
      assert forall v :: v in used ==> v == u || v in used - {u};
    }
  }

  lemma FreeLocksLetAllMove(s: System, t: Task)
    requires Inv(s) && s.registryLock == None && s.slotLock == None && Unfinished(s, t)
    ensures CanMove(s, t)
  {
    assert LocksAgreeFor(s, t);
    match t
    case WorkerOf(j) =>
      var w := s.workers[j];
      assert RecordFits(s, j);
      if WantsRegistry(w) || WantsSlot(w) {
        assert Enabled(s, WorkerLock(j)) && Actor(WorkerLock(j)) == t;
      } else {
        var step := WorkerConclude(j, Broken(""));
        assert Enabled(s, step) && Actor(step) == t;
      }
    case MonitorOf(j) =>
      var step := if s.monitors[j].Awaiting? then MonitorWake(j) else MonitorLock(j);
      assert Enabled(s, step) && Actor(step) == t;
    case Client(c) =>
      var step := if s.clients[c].Spawning? then Spawn(c) else ClientLock(c);
      assert Enabled(s, step) && Actor(step) == t;
  }

  /** Whoever holds the slot lock can finish its section at once, and frees all it holds. */
  lemma SlotLockDrains(s: System) returns (step: Step)
    requires Inv(s) && s.slotLock.Some?
    ensures Progress(step) && Enabled(s, step)
    ensures Apply(s, step).slotLock == None
    ensures Apply(s, step).registryLock == if s.registryLock == s.slotLock then None else s.registryLock
  {
    var t := s.slotLock.value;
    assert LocksAgreeFor(s, t);
    match t
    case WorkerOf(j) => step := WorkerAct(j, 0, 0.0);
    case MonitorOf(j) =>
      assert RecordFits(s, j);
      step := MonitorAct(j, 0);
    case Client(c) =>
      var id := FreshId(s.issued);
      step := ClientAct(c, 0, id);
  }

  /** With the slot lock free, the registry's holder frees it or goes on to take the slot lock too. */
  lemma RegistryLockMoves(s: System) returns (step: Step)
    requires Inv(s) && s.registryLock.Some? && s.slotLock == None
    ensures Progress(step) && Enabled(s, step)
    ensures var next := Apply(s, step);
            next.slotLock == next.registryLock && (next.slotLock == None || next.slotLock == s.registryLock)
  {
    var t := s.registryLock.value;
    assert LocksAgreeFor(s, t);
    match t
    case WorkerOf(j) => step := WorkerAct(j, 0, 0.0);
    case MonitorOf(j) => step := if Active(s.jobs, j) then MonitorLock(j) else MonitorAct(j, 0);
    case Client(c) =>
      var id := FreshId(s.issued);
      step := ClientAct(c, 0, id);
  }

  lemma Extended(s: System, path: seq<System>, steps: seq<Step>, step: Step)
    requires IsPath(s, path, steps) && Inv(path[|steps|])
    requires Progress(step) && Enabled(path[|steps|], step)
    ensures IsPath(s, path + [Apply(path[|steps|], step)], steps + [step])
    ensures Inv(Apply(path[|steps|], step))
  {
    InvKept(path[|steps|], step);
  }

  /** From any state, at most three steps of the lock holders free both locks. */
  lemma LocksDrain(s: System) returns (steps: seq<Step>, path: seq<System>)
    requires Inv(s)
    ensures IsPath(s, path, steps) && |steps| <= 3
    ensures Inv(path[|steps|]) && path[|steps|].registryLock == None && path[|steps|].slotLock == None
  {
    hide Inv, Apply, Enabled;
    steps, path := [], [s];
    var last := s;
    if last.slotLock.Some? {
      var step := SlotLockDrains(last);
      Extended(s, path, steps, step);
      steps, path, last := steps + [step], path + [Apply(last, step)], Apply(last, step);
    }
    if last.registryLock.Some? {
      var step := RegistryLockMoves(last);
      Extended(s, path, steps, step);
      steps, path, last := steps + [step], path + [Apply(last, step)], Apply(last, step);
    }
    if last.slotLock.Some? {
      var step := SlotLockDrains(last);
      Extended(s, path, steps, step);
      steps, path, last := steps + [step], path + [Apply(last, step)], Apply(last, step);
    }
  }

  lemma UnfinishedKept(s: System, step: Step, t: Task)
    requires JobsOwned(s) && Enabled(s, step) && Unfinished(s, t) && Actor(step) != t
    ensures Unfinished(Apply(s, step), t)
  {
    SpawnTarget(s, step);
  }

  lemma {:induction false} UnfinishedAlong(s: System, path: seq<System>, steps: seq<Step>, t: Task, k: nat)
    requires Inv(s) && IsPath(s, path, steps) && Unfinished(s, t) && k <= |steps|
    requires forall i | 0 <= i < |steps| :: Actor(steps[i]) != t
    ensures Inv(path[k]) && Unfinished(path[k], t)
  {
    if k > 0 {
      UnfinishedAlong(s, path, steps, t, k - 1);
      InvKept(path[k - 1], steps[k - 1]);
      UnfinishedKept(path[k - 1], steps[k - 1], t);
    }
  }

  /**
   No reachable state is deadlocked: for every task that is not waiting for a live
   worker, at most three steps of lock holders lead to a state where it has moved or can.
   */
  lemma NoDeadlock(states: seq<System>, history: seq<Step>, i: nat, t: Task)
    returns (steps: seq<Step>, path: seq<System>)
    requires IsRun(states, history) && i < |states| && Unfinished(states[i], t)
    ensures IsPath(states[i], path, steps) && |steps| <= 3
    ensures CanMove(path[|steps|], t) || exists k :: 0 <= k < |steps| && Actor(steps[k]) == t
  {
    InvAlways(states, history, i);
    steps, path := LocksDrain(states[i]);
    if forall k | 0 <= k < |steps| :: Actor(steps[k]) != t {
      UnfinishedAlong(states[i], path, steps, t, |steps|);
      FreeLocksLetAllMove(path[|steps|], t);
    }
  }
}
