/**
 The in-memory registry of backup jobs.  Every public operation runs under one
 write lock, so each is a function from the old map to the new one; the class at
 the end is the registry object itself.
 */
module JobRegistry {
  import opened Wrappers

  // A UUID; fresh for every job.
  type JobId = nat
  type ProfileId = string

  datatype Kind = InitRepo | RunBackup | CheckRepo | Restore

  datatype JobState = Pending | Running | Succeeded | Failed {
    predicate Terminal() {
      Succeeded? || Failed?
    }
  }

  /** An RFC 3339 timestamp: seconds on the clock, or text that does not parse. */
  datatype Stamp = At(seconds: int) | Unparseable

  datatype Job = Job(
    profile: ProfileId,
    kind: Kind,
    state: JobState,
    createdAt: Stamp,
    startedAt: Option<Stamp>,
    finishedAt: Option<Stamp>,
    progress: Option<real>,
    result: Option<string>,
    error: Option<string>)

  type Jobs = map<JobId, Job>

  const JOB_RETENTION := 3600
  const UNEXPECTED_TASK_ERROR := "Backup operation stopped unexpectedly; retry the operation"

  predicate Active(jobs: Jobs, id: JobId) {
    id in jobs && !jobs[id].state.Terminal()
  }

  /** The registry's promise: one non-terminal job per profile. */
  ghost predicate OneActivePerProfile(jobs: Jobs) {
    forall a, b :: Active(jobs, a) && Active(jobs, b) && jobs[a].profile == jobs[b].profile ==> a == b
  }

  // ---- The operations as functions of the map ----

  function NewJob(profile: ProfileId, kind: Kind, now: int): Job {
    Job(profile, kind, Pending, At(now), None, None, None, None, None)
  }

  predicate Retained(job: Job, now: int) {
    !job.state.Terminal()
    || match job.finishedAt
       case Some(At(t)) => t > now - JOB_RETENTION
       case _ => true
  }

  function Collected(jobs: Jobs, now: int): Jobs {
    map id | id in jobs && Retained(jobs[id], now) :: jobs[id]
  }

  function Clashes(jobs: Jobs, profile: ProfileId): set<JobId> {
    set id | id in jobs && jobs[id].profile == profile && !jobs[id].state.Terminal()
  }

  function Started(jobs: Jobs, profile: ProfileId, kind: Kind, now: int, newId: JobId): Jobs {
    var kept := Collected(jobs, now);
    if Clashes(kept, profile) != {} then kept else kept[newId := NewJob(profile, kind, now)]
  }

  function MarkedRunning(jobs: Jobs, id: JobId, now: int): Jobs {
    if id in jobs then jobs[id := jobs[id].(state := Running, startedAt := Some(At(now)))] else jobs
  }

  function Clamp(fraction: real): real {
    if fraction < 0.0 then 0.0 else if fraction > 1.0 then 1.0 else fraction
  }

  function MarkedProgress(jobs: Jobs, id: JobId, fraction: real): Jobs {
    if id in jobs then jobs[id := jobs[id].(progress := Some(Clamp(fraction)))] else jobs
  }

  function MarkedSucceeded(jobs: Jobs, id: JobId, payload: string, now: int): Jobs {
    if id in jobs
    then jobs[id := jobs[id].(state := Succeeded, finishedAt := Some(At(now)), result := Some(payload))]
    else jobs
  }

  function MarkedFailed(jobs: Jobs, id: JobId, message: string, now: int): Jobs {
    if id in jobs
    then jobs[id := jobs[id].(state := Failed, finishedAt := Some(At(now)), error := Some(message))]
    else jobs
  }

  // ---- What each operation keeps ----

  /** GC removes terminal jobs only, and changes none that it leaves. */
  lemma CollectedKeepsActive(jobs: Jobs, now: int)
    ensures forall id :: Active(jobs, id) <==> Active(Collected(jobs, now), id)
    ensures forall id :: id in Collected(jobs, now) ==> id in jobs && Collected(jobs, now)[id] == jobs[id]
    ensures OneActivePerProfile(jobs) ==> OneActivePerProfile(Collected(jobs, now))
  {
  }

  lemma StartedKeepsOneActive(jobs: Jobs, profile: ProfileId, kind: Kind, now: int, newId: JobId)
    requires OneActivePerProfile(jobs) && newId !in jobs
    ensures OneActivePerProfile(Started(jobs, profile, kind, now, newId))
  {
    CollectedKeepsActive(jobs, now);
    var kept := Collected(jobs, now);
    var next := Started(jobs, profile, kind, now, newId);
    if Clashes(kept, profile) == {} {
      forall a, b | Active(next, a) && Active(next, b) && next[a].profile == next[b].profile
        ensures a == b
      {
        assert a != newId ==> Active(kept, a);
        assert b != newId ==> Active(kept, b);
        assert a != newId && b == newId ==> a in Clashes(kept, profile);
        assert b != newId && a == newId ==> b in Clashes(kept, profile);
      }
    }
  }

  /**
   `mark_running` does not look at the old state, so on its own it can revive a
   finished job.  It keeps the registry's promise exactly when the job is missing,
   still active, or has no active rival.
   */
  lemma MarkedRunningKeepsOneActive(jobs: Jobs, id: JobId, now: int)
    requires OneActivePerProfile(jobs)
    ensures OneActivePerProfile(MarkedRunning(jobs, id, now)) <==>
            id !in jobs || Active(jobs, id) || Clashes(jobs, jobs[id].profile) == {}
  {
    var next := MarkedRunning(jobs, id, now);
    if id in jobs {
      if rival :| rival in Clashes(jobs, jobs[id].profile) {
        assert Active(next, rival) && Active(next, id) && next[rival].profile == next[id].profile;
      } else {
        forall a, b | Active(next, a) && Active(next, b) && next[a].profile == next[b].profile
          ensures a == b
        {
          assert a !in Clashes(jobs, jobs[id].profile) && b !in Clashes(jobs, jobs[id].profile);
        }
      }
    }
  }

  // ---- The registry object ----

  /** `running`: the profile whose backup is under way, for `backup.status`. */
  class RunningSlot {
    var profile: Option<ProfileId>

    constructor ()
      ensures profile == None
    {
      profile := None;
    }
  }

  datatype StartOutcome = Accepted(id: JobId, job: Job) | AlreadyRunning(profile: ProfileId, existing: JobId)

  class Registry {
    var jobs: Jobs

    constructor ()
      ensures jobs == map[] && OneActivePerProfile(jobs)
    {
      jobs := map[];
    }

    method Start(profile: ProfileId, kind: Kind, now: int, newId: JobId) returns (outcome: StartOutcome)
      requires OneActivePerProfile(jobs) && newId !in jobs
      modifies this
      ensures jobs == Started(old(jobs), profile, kind, now, newId)
      ensures OneActivePerProfile(jobs)
      ensures outcome.Accepted? <==> forall id :: Active(old(jobs), id) ==> old(jobs)[id].profile != profile
      ensures outcome.Accepted? ==>
                && outcome.id == newId && newId in jobs && jobs[newId] == outcome.job
                && outcome.job.state == Pending && outcome.job.profile == profile
      ensures outcome.AlreadyRunning? ==>
                && outcome.profile == profile
                && Active(old(jobs), outcome.existing) && old(jobs)[outcome.existing].profile == profile
    {
      CollectedKeepsActive(jobs, now);
      StartedKeepsOneActive(jobs, profile, kind, now, newId);
      jobs := Collected(jobs, now);
      var clashes := Clashes(jobs, profile);
      if clashes != {} {
        var existing :| existing in clashes;
        assert Active(jobs, existing);
        return AlreadyRunning(profile, existing);
      }
      forall id | Active(jobs, id)
        ensures jobs[id].profile != profile
      {
        assert id !in clashes;
      }
      var job := NewJob(profile, kind, now);
      jobs := jobs[newId := job];
      outcome := Accepted(newId, job);
    }

    method MarkRunning(id: JobId, now: int)
      modifies this
      ensures jobs == MarkedRunning(old(jobs), id, now)
      ensures OneActivePerProfile(old(jobs)) && Active(old(jobs), id) ==> OneActivePerProfile(jobs)
    {
      if OneActivePerProfile(jobs) {
        MarkedRunningKeepsOneActive(jobs, id, now);
      }
      if id in jobs {
        jobs := jobs[id := jobs[id].(state := Running, startedAt := Some(At(now)))];
      }
    }

    method MarkProgress(id: JobId, fraction: real)
      modifies this
      ensures jobs == MarkedProgress(old(jobs), id, fraction)
      ensures forall j :: j in jobs ==> j in old(jobs) && jobs[j].state == old(jobs)[j].state
      ensures id in jobs ==> jobs[id].progress.Some? && 0.0 <= jobs[id].progress.value <= 1.0
    {
      if id in jobs {
        jobs := jobs[id := jobs[id].(progress := Some(Clamp(fraction)))];
      }
    }

    method MarkSucceeded(id: JobId, payload: string, now: int)
      modifies this
      ensures jobs == MarkedSucceeded(old(jobs), id, payload, now)
      ensures !Active(jobs, id)
    {
      if id in jobs {
        jobs := jobs[id := jobs[id].(state := Succeeded, finishedAt := Some(At(now)), result := Some(payload))];
      }
    }

    method MarkFailed(id: JobId, message: string, now: int)
      modifies this
      ensures jobs == MarkedFailed(old(jobs), id, message, now)
      ensures !Active(jobs, id)
    {
      if id in jobs {
        jobs := jobs[id := jobs[id].(state := Failed, finishedAt := Some(At(now)), error := Some(message))];
      }
    }

    /** A worker ended without a verdict: fail its job and take down its running marker. */
    method RecoverAbandoned(id: JobId, running: RunningSlot, now: int) returns (recovered: bool)
      modifies this, running
      ensures recovered == Active(old(jobs), id)
      ensures jobs == if recovered then MarkedFailed(old(jobs), id, UNEXPECTED_TASK_ERROR, now) else old(jobs)
      ensures running.profile ==
              if recovered && old(running.profile) == Some(old(jobs)[id].profile) then None else old(running.profile)
      ensures !Active(jobs, id)
      ensures OneActivePerProfile(old(jobs)) ==> OneActivePerProfile(jobs)
    {
      if id !in jobs {
        return false;
      }
      var job := jobs[id];
      if job.state.Terminal() {
        return false;
      }
      if running.profile == Some(job.profile) {
        running.profile := None;
      }
      jobs := jobs[id := jobs[id].(state := Failed, finishedAt := Some(At(now)), error := Some(UNEXPECTED_TASK_ERROR))];
      recovered := true;
    }

    method Get(id: JobId, now: int) returns (job: Option<Job>)
      modifies this
      ensures jobs == Collected(old(jobs), now)
      ensures job == if id in jobs then Some(jobs[id]) else None
      ensures Active(old(jobs), id) ==> job == Some(old(jobs)[id])
    {
      jobs := Collected(jobs, now);
      job := if id in jobs then Some(jobs[id]) else None;
    }
  }
}
