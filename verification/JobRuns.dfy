/**
 What runs of the job protocol write down: the marker of a backup under way, and the record of each job,
 stated on the states before and after a step.
 */
module JobRuns {
  import opened Wrappers
  import opened JobRegistry
  import opened JobProtocol

  // ---- The marker ----

  /** The step is a section under the slot lock that may write the slot: a worker's, or a recovery. */
  predicate SlotSection(s: System, step: Step)
    requires Enabled(s, step)
  {
    || (step.WorkerAct? && (s.workers[step.job].pc.HoldingToSetSlot? || s.workers[step.job].pc.HoldingToClearSlot?))
    || (step.MonitorAct? && s.monitors[step.job].HoldingBoth?)
  }

  lemma SlotChangesInSections(s: System, step: Step)
    requires Enabled(s, step) && !SlotSection(s, step)
    ensures Apply(s, step).slot == s.slot
  {
  }

  /** In step `i` the worker of `j` comes to back up. */
  ghost predicate BeginsBackup(states: seq<System>, steps: seq<Step>, i: nat, j: JobId)
    requires IsRun(states, steps)
  {
    && i < |steps| && steps[i].WorkerAct? && steps[i].job == j && j in states[i + 1].workers
    && states[i + 1].workers[j].pc.BackingUp?
  }

  lemma BeginningPosts(s: System, step: Step, j: JobId)
    requires Enabled(s, step) && step.WorkerAct? && step.job == j && Apply(s, step).workers[j].pc.BackingUp?
    ensures Apply(s, step).slot == Some(Marker(s.workers[j].profile, j))
    ensures Apply(s, step).workers[j].profile == s.workers[j].profile
  {
  }

  /** A backup that begins posts its marker, and the marker stays until the next slot section. */
  lemma {:induction false} MarkerIsPosted(states: seq<System>, steps: seq<Step>, i: nat, k: nat, j: JobId)
    requires IsRun(states, steps) && BeginsBackup(states, steps, i, j) && i < k < |states|
    requires forall m :: i < m < k ==> !SlotSection(states[m], steps[m])
    ensures states[k].slot == Some(Marker(states[i + 1].workers[j].profile, j))
  {
    if k == i + 1 {
      BeginningPosts(states[i], steps[i], j);
    } else {
      MarkerIsPosted(states, steps, i, k - 1, j);
      SlotChangesInSections(states[k - 1], steps[k - 1]);
    }
  }

  /** No job but `j` was ever a backup. */
  ghost predicate OnlyBackup(s: System, j: JobId) {
    forall o :: o in s.workers && s.workers[o].kind == RunBackup ==> o == j
  }

  predicate ShowsMarker(s: System, j: JobId)
    requires j in s.workers
  {
    s.slot == Some(Marker(s.workers[j].profile, j))
  }

  lemma WorkersStay(s: System, step: Step, o: JobId)
    requires Inv(s) && Enabled(s, step) && o in s.workers
    ensures o in Apply(s, step).workers
    ensures Apply(s, step).workers[o].profile == s.workers[o].profile
    ensures Apply(s, step).workers[o].kind == s.workers[o].kind
  {
    hide Inv;
    SpawnIsNew(s, step);
  }

  lemma SpawnIsNew(s: System, step: Step)
    requires Inv(s) && Enabled(s, step)
    ensures step.Spawn? ==> s.clients[step.client].job !in s.workers
  {
    if step.Spawn? {
      assert BeingSpawned(s, step.client, s.clients[step.client].job);
    }
  }

  lemma OnlyBackupBefore(s: System, step: Step, j: JobId)
    requires Inv(s) && Enabled(s, step) && OnlyBackup(Apply(s, step), j)
    ensures OnlyBackup(s, j)
  {
    hide Inv, Apply, Enabled;
    forall o | o in s.workers && s.workers[o].kind == RunBackup
      ensures o == j
    {
      WorkersStay(s, step, o);
    }
  }

  /** While the only backup is under way, no step of another takes its marker down. */
  lemma LoneMarkerKept(s: System, step: Step, j: JobId)
    requires Inv(s) && Enabled(s, step) && OnlyBackup(s, j)
    requires j in s.workers && s.workers[j].pc.BackingUp? && ShowsMarker(s, j)
    requires Apply(s, step).workers[j].pc.BackingUp?
    ensures Apply(s, step).slot == s.slot
  {
    if SlotSection(s, step) {
      assert RecordFits(s, step.job);
      if step.MonitorAct? {
        RecoveryOwnsMarker(s, step.job);
        assert RecordFits(s, j);
      }
    } else {
      SlotChangesInSections(s, step);
    }
  }

  lemma BackingUpFrom(s: System, step: Step, j: JobId)
    requires Inv(s) && Enabled(s, step) && j in Apply(s, step).workers && Apply(s, step).workers[j].pc.BackingUp?
    ensures j in s.workers
    ensures s.workers[j].pc.BackingUp? || (step.WorkerAct? && step.job == j)
  {
    hide Inv, Started, Collected, SlotAfterSection, JobsAfterSection, MarkedFailed, RecoveryClears;
  }

  /** With one backup under way, and no other ever, status names its profile. */
  lemma {:induction false} LoneBackupIsShown(states: seq<System>, steps: seq<Step>, k: nat, j: JobId)
    requires IsRun(states, steps) && k < |states| && OnlyBackup(states[k], j)
    requires j in states[k].workers && states[k].workers[j].pc.BackingUp?
    ensures ShowsMarker(states[k], j)
  {
    hide Inv, Apply, Enabled;
    assert k > 0;
    var s, step := states[k - 1], steps[k - 1];
    InvAlways(states, steps, k - 1);
    BackingUpFrom(s, step, j);
    WorkersStay(s, step, j);
    if s.workers[j].pc.BackingUp? && !(step.WorkerAct? && step.job == j) {
      OnlyBackupBefore(s, step, j);
      LoneBackupIsShown(states, steps, k - 1, j);
      LoneMarkerKept(s, step, j);
    } else {
      BeginningPosts(s, step, j);
    }
  }

  // ---- The record of a job ----

  /** A start that is let through adds this record; a start that is refused adds none and gives no worker. */
  lemma StartRecords(s: System, c: nat, p: ProfileId, kind: Kind, now: int, j: JobId)
    requires Inv(s) && Enabled(s, ClientAct(c, now, j)) && s.clients[c].request == StartRequest(p, kind)
    ensures var next := Apply(s, ClientAct(c, now, j));
            if exists o :: Active(s.jobs, o) && s.jobs[o].profile == p
            then j !in next.jobs && c !in next.clients
            else && j in next.jobs && next.clients == s.clients[c := Spawning(j, p, kind)]
                 && next.jobs[j] == Job(p, kind, Pending, At(now), None, None, None, None, None)
  {
    assert j !in s.jobs;
    ClashIffActive(s.jobs, p, now);
    hide Inv, Clashes, Active;
  }

  lemma ClashIffActive(jobs: Jobs, p: ProfileId, now: int)
    ensures Clashes(Collected(jobs, now), p) != {} <==> exists o :: Active(jobs, o) && jobs[o].profile == p
  {
    CollectedKeepsActive(jobs, now);
    var kept := Collected(jobs, now);
    if o :| Active(jobs, o) && jobs[o].profile == p {
      assert Active(kept, o) && o in Clashes(kept, p);
    }
    if x :| x in Clashes(kept, p) {
      assert Active(kept, x) && Active(jobs, x);
    }
  }

  /** Marking a job running sets its state and its start, and nothing else anywhere. */
  lemma RunningRecords(s: System, j: JobId, now: int, fraction: real)
    requires Inv(s) && Enabled(s, WorkerAct(j, now, fraction)) && s.workers[j].pc.HoldingToMarkRunning?
    ensures j in s.jobs
    ensures Apply(s, WorkerAct(j, now, fraction)).jobs ==
            s.jobs[j := s.jobs[j].(state := Running, startedAt := Some(At(now)))]
  {
    assert RecordFits(s, j);
  }

  /** Progress is the fraction, cut to the interval from 0 to 1, and nothing else changes anywhere. */
  lemma ProgressRecords(s: System, j: JobId, now: int, fraction: real)
    requires Inv(s) && Enabled(s, WorkerAct(j, now, fraction)) && s.workers[j].pc.HoldingToMarkProgress?
    ensures j in s.jobs
    ensures var next := Apply(s, WorkerAct(j, now, fraction)).jobs;
            && j in next && next[j].progress.Some?
            && (var f := next[j].progress.value;
                && (0.0 <= fraction <= 1.0 ==> f == fraction)
                && (fraction < 0.0 ==> f == 0.0) && (fraction > 1.0 ==> f == 1.0))
            && next == s.jobs[j := s.jobs[j].(progress := next[j].progress)]
  {
    assert RecordFits(s, j);
  }

  /** A conclusion sets state, end and result or error, and nothing else anywhere. */
  lemma ConclusionRecords(s: System, j: JobId, now: int, fraction: real)
    requires Inv(s) && Enabled(s, WorkerAct(j, now, fraction)) && s.workers[j].pc.HoldingToConclude?
    ensures j in s.jobs
    ensures var next, job := Apply(s, WorkerAct(j, now, fraction)).jobs, s.jobs[j];
            var o, end := s.workers[j].pc.outcome, Some(At(now));
            && (o.Finished? ==>
                  next == s.jobs[j := job.(state := Succeeded, finishedAt := end, result := Some(o.payload))])
            && (o.Broken? ==> next == s.jobs[j := job.(state := Failed, finishedAt := end, error := Some(o.message))])
  {
    assert RecordFits(s, j);
  }

  lemma FinishStamps(s: System, step: Step, j: JobId)
    requires Inv(s) && Enabled(s, step) && Active(s.jobs, j) && !Active(Apply(s, step).jobs, j)
    ensures (step.WorkerAct? || step.MonitorAct?) && step.job == j
    ensures j in Apply(s, step).jobs && Apply(s, step).jobs[j].finishedAt == Some(At(step.now))
  {
    assert s.jobs.Keys <= s.issued;
    hide Inv;
    if Actor(step) != WorkerOf(j) && Actor(step) != MonitorOf(j) {
      JobsChange(s, step, j);
    } else {
      hide Started, Collected, SlotAfterSection, RecoveryClears, HoldsRegistry, HoldsSlot;
    }
  }

  /** The step is a request to the registry: a start or a read. */
  predicate RegistryRequest(s: System, step: Step)
    requires Enabled(s, step)
  {
    step.ClientAct? && (s.clients[step.client].request.StartRequest? || s.clients[step.client].request.ReadRequest?)
  }

  /** A job that ended at step `i` is kept for an hour from that step: it goes with the first registry request after. */
  lemma KeptForAnHour(states: seq<System>, steps: seq<Step>, i: nat, k: nat, j: JobId)
    requires IsRun(states, steps) && i < |steps| && i < k < |states|
    requires Active(states[i].jobs, j) && !Active(states[i + 1].jobs, j)
    ensures steps[i].WorkerAct? || steps[i].MonitorAct?
    ensures j in states[k].jobs <==>
            forall m :: i < m < k && RegistryRequest(states[m], steps[m]) ==> steps[m].now < steps[i].now + 3600
  {
    InvAlways(states, steps, i);
    FinishStamps(states[i], steps[i], j);
    ReadableUntilExpired(states, steps, i + 1, k, j);
    var job := states[i + 1].jobs[j];
    forall m | i < m < k
      ensures Expires(states[m], steps[m], job) <==>
              RegistryRequest(states[m], steps[m]) && steps[m].now >= steps[i].now + 3600
    {
    }
    hide Inv, Apply, Enabled, Expires, RegistryRequest;
  }

  // ---- A backup can run through ----

  /** The worker takes the lock it waits for, does its section and lets go. */
  ghost predicate Section(s: System, j: JobId, now: int, mid: System, next: System) {
    && Enabled(s, WorkerLock(j)) && mid == Apply(s, WorkerLock(j))
    && Enabled(mid, WorkerAct(j, now, 0.0)) && next == Apply(mid, WorkerAct(j, now, 0.0))
  }

  predicate LocksFree(s: System) {
    s.registryLock == None && s.slotLock == None
  }

  lemma SectionTo(s: System, j: JobId, now: int) returns (mid: System, next: System)
    requires LocksFree(s) && j in s.workers && (WantsRegistry(s.workers[j]) || WantsSlot(s.workers[j]))
    ensures Section(s, j, now, mid, next) && LocksFree(next) && next.workers.Keys == s.workers.Keys
    ensures next.workers[j].profile == s.workers[j].profile && next.workers[j].kind == s.workers[j].kind
    ensures s.workers[j].pc.Spawned? ==> next.workers[j].pc.Working? && next.slot == s.slot
    ensures s.workers[j].kind == RunBackup && s.workers[j].pc.Working? ==>
              next.workers[j].pc.BackingUp? && next.slot == Some(Marker(s.workers[j].profile, j)) && next.jobs == s.jobs
    ensures s.workers[j].pc.BackingUp? ==> next.workers[j].pc.SlotCleared? && next.slot == None && next.jobs == s.jobs
    ensures s.workers[j].pc.Concluding? ==> next.workers[j].pc.Returned? && next.slot == s.slot
  {
    mid := Apply(s, WorkerLock(j));
    next := Apply(mid, WorkerAct(j, now, 0.0));
  }

  predicate ShowsRunning(s: System, p: ProfileId, j: JobId) {
    s.slot == Some(Marker(p, j)) && j in s.jobs && s.jobs[j].state == Running
  }

  predicate Reports(s: System, j: JobId, o: Outcome) {
    j in s.jobs && Carries(s.jobs[j], o) && j in s.workers && s.workers[j].pc.Returned?
  }

  /** From its spawning on, an undisturbed backup posts its marker, takes it down and succeeds with its result. */
  lemma BackupRunsThrough(s: System, j: JobId, now: int, text: string)
    returns (
      a: System, running: System, b: System, posted: System, c: System, cleared: System,
      concluding: System, d: System, done: System)
    requires Inv(s) && LocksFree(s) && j in s.workers
    requires s.workers[j] == Worker(s.workers[j].profile, RunBackup, Spawned)
    ensures Section(s, j, now, a, running) && Section(running, j, now, b, posted)
    ensures ShowsRunning(posted, s.workers[j].profile, j)
    ensures Section(posted, j, now, c, cleared) && cleared.slot == None
    ensures Enabled(cleared, WorkerConclude(j, Finished(text)))
    ensures concluding == Apply(cleared, WorkerConclude(j, Finished(text)))
    ensures Section(concluding, j, now, d, done) && Reports(done, j, Finished(text))
  {
    hide Inv, Apply, Enabled;
    a, running := SectionTo(s, j, now);
    InvThrough(s, j, now, a, running);
    b, posted := SectionTo(running, j, now);
    InvThrough(running, j, now, b, posted);
    BackingUpIsRunning(posted, j);
    c, cleared := SectionTo(posted, j, now);
    InvThrough(posted, j, now, c, cleared);
    concluding := Concluded(cleared, j, text);
    d, done := SectionTo(concluding, j, now);
    ConclusionCarries(concluding, j, now, d, done);
  }

  lemma InvThrough(s: System, j: JobId, now: int, mid: System, next: System)
    requires Inv(s) && Section(s, j, now, mid, next)
    ensures Inv(mid) && Inv(next)
  {
    hide Inv, Apply, Enabled;
    InvKept(s, WorkerLock(j));
    InvKept(mid, WorkerAct(j, now, 0.0));
  }

  lemma BackingUpIsRunning(s: System, j: JobId)
    requires Inv(s) && j in s.workers && s.workers[j].pc.BackingUp?
    ensures j in s.jobs && s.jobs[j].state == Running
  {
    assert RecordFits(s, j);
  }

  lemma Concluded(s: System, j: JobId, text: string) returns (next: System)
    requires Inv(s) && LocksFree(s) && j in s.workers && s.workers[j].pc.SlotCleared?
    ensures Enabled(s, WorkerConclude(j, Finished(text))) && next == Apply(s, WorkerConclude(j, Finished(text)))
    ensures Inv(next) && LocksFree(next) && j in next.workers && next.workers[j].pc == Concluding(Finished(text))
  {
    next := Apply(s, WorkerConclude(j, Finished(text)));
    InvKept(s, WorkerConclude(j, Finished(text)));
    hide Inv;
  }

  lemma ConclusionCarries(s: System, j: JobId, now: int, mid: System, next: System)
    requires Inv(s) && j in s.workers && s.workers[j].pc.Concluding? && Section(s, j, now, mid, next)
    ensures j in next.jobs && Carries(next.jobs[j], s.workers[j].pc.outcome)
  {
    hide Inv, Apply, Enabled;
    InvThrough(s, j, now, mid, next);
    LockedToConclude(s, j);
    ConclusionRecords(mid, j, now, 0.0);
  }

  lemma LockedToConclude(s: System, j: JobId)
    requires Enabled(s, WorkerLock(j)) && s.workers[j].pc.Concluding?
    ensures j in Apply(s, WorkerLock(j)).workers
    ensures Apply(s, WorkerLock(j)).workers[j].pc == HoldingToConclude(s.workers[j].pc.outcome)
  {
  }

  // ---- Clients and monitors can run through ----

  /** A start that finds no active job of its profile goes from arrival to a spawned worker with its monitor. */
  lemma StartRunsThrough(s: System, c: nat, p: ProfileId, kind: Kind, now: int, j: JobId)
    returns (queued: System, holding: System, started: System, spawned: System)
    requires Inv(s) && c !in s.clients && s.registryLock == None && j !in s.issued
    requires forall o :: Active(s.jobs, o) ==> s.jobs[o].profile != p
    ensures Enabled(s, Arrive(c, StartRequest(p, kind))) && queued == Apply(s, Arrive(c, StartRequest(p, kind)))
    ensures Enabled(queued, ClientLock(c)) && holding == Apply(queued, ClientLock(c))
    ensures Enabled(holding, ClientAct(c, now, j)) && started == Apply(holding, ClientAct(c, now, j))
    ensures Enabled(started, Spawn(c)) && spawned == Apply(started, Spawn(c))
    ensures spawned.workers == s.workers[j := Worker(p, kind, Spawned)] && spawned.monitors == s.monitors[j := Awaiting]
    ensures spawned.clients == s.clients && spawned.registryLock == None && Active(spawned.jobs, j)
  {
    queued, holding := ArrivesAndLocks(s, c, StartRequest(p, kind));
    hide Inv;
    StartRecords(holding, c, p, kind, now, j);
    started := Apply(holding, ClientAct(c, now, j));
    spawned := SpawnsWorker(started, c, p, kind, j);
    hide Started, Collected, Active;
  }

  lemma ArrivesAndLocks(s: System, c: nat, request: Request) returns (queued: System, holding: System)
    requires Inv(s) && c !in s.clients && s.registryLock == None && !request.StatusRequest?
    ensures Enabled(s, Arrive(c, request)) && queued == Apply(s, Arrive(c, request))
    ensures Enabled(queued, ClientLock(c)) && holding == Apply(queued, ClientLock(c))
    ensures Inv(holding)
    ensures holding == s.(clients := s.clients[c := Holding(request)], registryLock := Some(Client(c)))
  {
    hide Inv;
    queued := Apply(s, Arrive(c, request));
    InvKept(s, Arrive(c, request));
    holding := Apply(queued, ClientLock(c));
    InvKept(queued, ClientLock(c));
  }

  lemma SpawnsWorker(s: System, c: nat, p: ProfileId, kind: Kind, j: JobId) returns (next: System)
    requires c in s.clients && s.clients[c] == Spawning(j, p, kind)
    ensures Enabled(s, Spawn(c)) && next == Apply(s, Spawn(c))
    ensures next.workers == s.workers[j := Worker(p, kind, Spawned)] && next.monitors == s.monitors[j := Awaiting]
    ensures next.clients == s.clients - {c} && next.jobs == s.jobs && next.registryLock == s.registryLock
  {
    next := Apply(s, Spawn(c));
  }

  /** A client that has not got its lock can leave, and nothing else changes. */
  lemma LeaverIsGone(s: System, c: nat)
    requires c in s.clients && s.clients[c].Queued?
    ensures Enabled(s, Leave(c))
    ensures c !in Apply(s, Leave(c)).clients && Apply(s, Leave(c)).jobs == s.jobs
    ensures forall o :: o != c && o in s.clients ==>
              o in Apply(s, Leave(c)).clients && Apply(s, Leave(c)).clients[o] == s.clients[o]
  {
  }

  /** A backup succeeds only once its marker is down; work of another kind can end either way. */
  lemma WorkEnds(s: System, j: JobId, text: string)
    requires j in s.workers
    ensures s.workers[j].kind == RunBackup && Enabled(s, WorkerConclude(j, Finished(text))) ==>
              s.workers[j].pc.SlotCleared?
    ensures s.workers[j].pc.Working? ==> Enabled(s, WorkerConclude(j, Broken(text)))
    ensures s.workers[j].pc.Working? && s.workers[j].kind != RunBackup ==> Enabled(s, WorkerConclude(j, Finished(text)))
  {
  }

  /** Locks are free but for those the worker of `j` holds. */
  predicate FreeButFor(s: System, j: JobId) {
    && (s.registryLock == None || s.registryLock == Some(WorkerOf(j)))
    && (s.slotLock == None || s.slotLock == Some(WorkerOf(j)))
  }

  /** A worker that dies at any point lets go of its locks, and its monitor wakes. */
  lemma DyingIsNoticed(s: System, j: JobId) returns (dead: System, awake: System)
    requires Inv(s) && FreeButFor(s, j) && j in s.workers && !s.workers[j].pc.Returned? && !s.workers[j].pc.Aborted?
    ensures Enabled(s, Abort(j)) && dead == Apply(s, Abort(j)) && LocksFree(dead)
    ensures Enabled(dead, MonitorWake(j)) && awake == Apply(dead, MonitorWake(j))
    ensures Inv(awake) && LocksFree(awake) && j in awake.monitors && awake.monitors[j] == Recovering
    ensures awake.jobs == s.jobs && awake.slot == s.slot
  {
    dead := Apply(s, Abort(j));
    DyingFrees(s, j);
    InvKept(s, Abort(j));
    awake := Apply(dead, MonitorWake(j));
    InvKept(dead, MonitorWake(j));
    hide Inv;
  }

  lemma DyingFrees(s: System, j: JobId)
    requires Inv(s) && FreeButFor(s, j) && Enabled(s, Abort(j))
    ensures LocksFree(Apply(s, Abort(j))) && Enabled(Apply(s, Abort(j)), MonitorWake(j))
  {
    assert LocksAgreeFor(s, WorkerOf(j)) && RecordFits(s, j);
    hide Inv;
  }

  /** From there the job fails with the engine's own message, and a marker of its profile comes down. */
  lemma RecoveryRunsThrough(s: System, j: JobId, now: int) returns (first: System, both: System, done: System)
    requires Inv(s) && LocksFree(s) && j in s.monitors && s.monitors[j] == Recovering && Active(s.jobs, j)
    ensures Enabled(s, MonitorLock(j)) && first == Apply(s, MonitorLock(j))
    ensures Enabled(first, MonitorLock(j)) && both == Apply(first, MonitorLock(j))
    ensures Enabled(both, MonitorAct(j, now)) && done == Apply(both, MonitorAct(j, now))
    ensures LocksFree(done) && done.monitors == s.monitors[j := Done]
    ensures var job := s.jobs[j];
            && done.jobs == s.jobs[j := job.(
                 state := Failed,
                 finishedAt := Some(At(now)),
                 error := Some("Backup operation stopped unexpectedly; retry the operation"))]
            && done.slot == if s.slot.Some? && s.slot.value.profile == job.profile then None else s.slot
  {
    hide Inv;
    first := Apply(s, MonitorLock(j));
    both := Apply(first, MonitorLock(j));
    done := Apply(both, MonitorAct(j, now));
  }
}
