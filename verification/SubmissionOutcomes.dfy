/** What a source-event submission answers, and what it leaves behind, over whole runs
    (orchestrator/job_manager.py, `submit_job`, `_await_job_loadable`, `_create_job`). */
module SubmissionOutcomes {
  import opened IdempotencyStore
  import opened JobSubmission

  // ---------------------------------------------------------------- at the lock

  /** What the lock leads to when the key is fresh. */
  ghost predicate EntersFresh(s: State, s': State, t: nat, candidate: string, now: int)
    requires t in s.tasks
  {
    var key, intent := s.tasks[t].key, s.tasks[t].intent;
    && t in s'.tasks && s'.tasks[t] == Task(key, intent, Emitting(candidate)) && s'.locks == s.locks[key := t]
    && s'.sources == s.sources[key := SourceRecord(candidate, intent, now)]
  }

  /** What it leads to when the key is known: the job there is, the wait for one that cannot be loaded
      yet, or the other intent. */
  ghost predicate EntersKnown(s: State, s': State, t: nat)
    requires t in s.tasks && s.tasks[t].key in s.sources
  {
    var key, intent := s.tasks[t].key, s.tasks[t].intent;
    var j := s.sources[key].jobId;
    && t in s'.tasks && s'.sources == s.sources
    && s'.tasks[t] == Task(key, intent,
         if s.sources[key].intentHash != intent then Conflicting(j)
         else if j in s.jobs || j in s.stored then Done(Returned(j))
         else Polling(j, 5))
    && s'.locks == if s'.tasks[t].phase.Done? then s.locks else s.locks[key := t]
  }

  lemma FreshEntry(s: State, t: nat, candidate: string, now: int)
    requires t in s.tasks && s.tasks[t].key !in s.sources
    ensures EntersFresh(s, EnterLocked(s, t, candidate, now), t, candidate, now)
  {
  }

  lemma KnownEntry(s: State, t: nat, candidate: string, now: int)
    requires t in s.tasks && s.tasks[t].key in s.sources
    ensures EntersKnown(s, EnterLocked(s, t, candidate, now), t)
  {
  }

  /** Behind its lock a submission reserves a fresh key for its own candidate and goes on to announce
      it; on a known key it returns the job there is, waits for one that cannot be loaded yet, or
      reports the other intent.  Nothing but a fresh key is written. */
  lemma EntryMeaning(s: State, t: nat, candidate: string, now: int)
    requires Enabled(s, Enter(t, candidate, now))
    ensures var s' := Next(s, Enter(t, candidate, now));
      && s'.jobs == s.jobs && s'.stored == s.stored && s'.created == s.created && s'.abandoned == s.abandoned
      && s'.persistent == s.persistent
      && if s.tasks[t].key in s.sources then EntersKnown(s, s', t) else EntersFresh(s, s', t, candidate, now)
  {
    EnterHistory(s, t, candidate, now);
    EntryPersistence(s, t, candidate, now);
    if s.tasks[t].key in s.sources {
      KnownEntry(s, t, candidate, now);
    } else {
      FreshEntry(s, t, candidate, now);
    }
    hide EnterLocked, EntersFresh, EntersKnown;
  }

  lemma EntryPersistence(s: State, t: nat, candidate: string, now: int)
    requires t in s.tasks
    ensures EnterLocked(s, t, candidate, now).persistent == s.persistent
  {
  }

  /** The steps that end a submission: what it answers, and that its lock is free. */
  lemma EndMeaning(s: State, t: nat, step: Step)
    requires Enabled(s, step) && Of(step, t) && t in s.tasks && Holding(s.tasks[t].phase)
    requires step.Diverged? || step.ConflictSent? || step.Cancel? || (step.Emitted? && !step.ok)
    ensures var s' := Next(s, step);
      && s.tasks[t].key !in s'.locks && s'.jobs == s.jobs && s'.stored == s.stored && s'.created == s.created
      && t in s'.tasks
      && s'.tasks[t].phase == match step
                              case Diverged(_) => Done(PendingError(s.tasks[t].phase.jobId))
                              case ConflictSent(_, true) => Done(ConflictError(s.tasks[t].phase.jobId))
                              case Cancel(_) => Done(Cancelled)
                              case _ => Done(EmitFailed)
  {
    if step.Emitted? {
      FailedEmitEnds(s, t, step.queueFull);
    }
    hide EnterLocked, AfterEmit;
  }

  lemma FailedEmitEnds(s: State, t: nat, queueFull: bool)
    requires t in s.tasks && s.tasks[t].phase.Emitting?
    ensures var s' := AfterEmit(s, t, false, queueFull);
      && s.tasks[t].key !in s'.locks && s'.jobs == s.jobs && s'.stored == s.stored && s'.created == s.created
      && t in s'.tasks && s'.tasks[t].phase == Done(EmitFailed)
  {
    hide Release, Loadable, Finish;
    var released := if Loadable(s, s.tasks[t].phase.jobId) then s else s.(sources := Release(s.sources, s.tasks[t].key, s.tasks[t].phase.jobId));
    FinishEnds(released, t, EmitFailed);
  }

  lemma FinishEnds(s: State, t: nat, result: Result)
    requires t in s.tasks && Holding(s.tasks[t].phase)
    ensures var s' := Finish(s, t, result);
      && s'.locks == s.locks - {s.tasks[t].key} && s'.jobs == s.jobs && s'.stored == s.stored && s'.created == s.created
      && t in s'.tasks && s'.tasks[t].phase == Done(result)
  {
  }

  /** A restart forgets calls and locks, keeps the database, and reads back into memory exactly the stored
      jobs that are neither delivered nor failed nor revoked; the keys of interrupted announcements
      are abandoned. */
  lemma RestartMeaning(s: State)
    requires s.persistent
    ensures var s' := Next(s, Restart);
      && s'.tasks == map[] && s'.locks == map[] && s'.stored == s.stored && s'.sources == s.sources && s'.created == s.created
      && (forall j :: j in s'.jobs <==> j in s.stored && s.stored[j] !in {"delivered", "failed", "revoked"})
      && (forall j :: j in s'.jobs ==> s'.jobs[j] == s.stored[j])
      && (forall k :: k in s'.abandoned <==>
            k in s.abandoned || exists t :: t in s.tasks && s.tasks[t].phase.Emitting? && s.tasks[t].key == k)
  {
  }

  // ---------------------------------------------------------------- an acknowledged announcement

  /** The job has this status wherever it is kept, and can be loaded. */
  ghost predicate HasStatus(s: State, jobId: string, status: string) {
    && jobId in s.ids && Loadable(s, jobId)
    && (jobId in s.jobs ==> s.jobs[jobId] == status)
    && (jobId in s.stored ==> s.stored[jobId] == status)
  }

  /** No step writes to a job that has a status, but the pipeline's on that job. */
  lemma StatusStays(s: State, jobId: string, status: string, step: Step)
    requires Inv(s) && Enabled(s, step) && HasStatus(s, jobId, status)
    requires !(step.Pipeline? && step.jobId == jobId)
    ensures HasStatus(Next(s, step), jobId, status)
  {
    match step
    case Emitted(t, ok, queueFull) =>
      assert TaskKnows(s, t);
      assert s.tasks[t].phase.jobId != jobId;
      hide Inv;
    case Enter(t, candidate, now) =>
      EnterHistory(s, t, candidate, now);
      EntryIds(s, t, candidate, now);
      hide Inv, EnterLocked;
    case Restart =>
      assert IdsKnown(s);
      hide LocksHeld, Injective, CreatedMapped, TasksKnow, Accounted;
    case _ => hide Inv;
  }

  lemma EntryIds(s: State, t: nat, candidate: string, now: int)
    requires t in s.tasks
    ensures EnterLocked(s, t, candidate, now).ids == s.ids + {candidate}
  {
  }

  /** A submission that has ended keeps its answer, as long as the process runs. */
  lemma AnswerStays(s: State, t: nat, step: Step)
    requires Enabled(s, step) && t in s.tasks && s.tasks[t].phase.Done? && !step.Restart?
    ensures t in Next(s, step).tasks && Next(s, step).tasks[t] == s.tasks[t]
  {
    hide EnterLocked, AfterEmit;
    match step
    case Enter(u, candidate, now) => EnterTask(s, u, candidate, now);
    case Emitted(u, ok, queueFull) => EmitTask(s, u, ok, queueFull);
    case _ =>
  }

  lemma {:induction false} OutcomeStays(s: State, t: nat, jobId: string, status: string, steps: seq<Step>)
    requires Inv(s) && Runs(s, steps) && HasStatus(s, jobId, status)
    requires t in s.tasks && s.tasks[t].phase.Done?
    requires forall k :: 0 <= k < |steps| ==> !(steps[k].Pipeline? && steps[k].jobId == jobId)
    ensures HasStatus(After(s, steps), jobId, status)
    ensures (forall k :: 0 <= k < |steps| ==> !steps[k].Restart?) ==>
      t in After(s, steps).tasks && After(s, steps).tasks[t] == s.tasks[t]
    decreases |steps|
  {
    hide Inv, Enabled, Next, HasStatus;
    if |steps| > 0 {
      var next := Next(s, steps[0]);
      StatusStays(s, jobId, status, steps[0]);
      StepKeeps(s, steps[0]);
      assert forall k :: 0 <= k < |steps[1..]| ==> steps[1..][k] == steps[k + 1];
      if steps[0].Restart? {
        StatusOnly(next, jobId, status, steps[1..]);
      } else {
        AnswerStays(s, t, steps[0]);
        OutcomeStays(next, t, jobId, status, steps[1..]);
      }
    }
  }

  lemma {:induction false} StatusOnly(s: State, jobId: string, status: string, steps: seq<Step>)
    requires Inv(s) && Runs(s, steps) && HasStatus(s, jobId, status)
    requires forall k :: 0 <= k < |steps| ==> !(steps[k].Pipeline? && steps[k].jobId == jobId)
    ensures HasStatus(After(s, steps), jobId, status)
    decreases |steps|
  {
    hide Inv, Enabled, Next, HasStatus;
    if |steps| > 0 {
      StatusStays(s, jobId, status, steps[0]);
      StepKeeps(s, steps[0]);
      assert forall k :: 0 <= k < |steps[1..]| ==> steps[1..][k] == steps[k + 1];
      StatusOnly(Next(s, steps[0]), jobId, status, steps[1..]);
    }
  }

  /** Over all runs: once the announcement is acknowledged, the submission answers with its own job,
      stored as submitted, or, when the pipeline queue is full, reports that and has stored it as
      failed; whatever other submissions and restarts do then, the job keeps that status until the
      pipeline itself changes it, and the answer stands while the process runs. */
  lemma AcknowledgedOutcome(s: State, t: nat, queueFull: bool, steps: seq<Step>)
    requires Inv(s) && Enabled(s, Emitted(t, true, queueFull))
    requires Runs(Next(s, Emitted(t, true, queueFull)), steps)
    requires forall k :: 0 <= k < |steps| ==> !(steps[k].Pipeline? && steps[k].jobId == s.tasks[t].phase.jobId)
    ensures var j, key, end := s.tasks[t].phase.jobId, s.tasks[t].key, After(Next(s, Emitted(t, true, queueFull)), steps);
      && HasStatus(end, j, if queueFull then "failed" else "submitted")
      && (s.persistent ==> end.persistent)
      && (key, j) in end.created && key in end.sources && end.sources[key] == s.sources[key]
      && ((forall k :: 0 <= k < |steps| ==> !steps[k].Restart?) ==>
            t in end.tasks && end.tasks[t].phase == Done(if queueFull then QueueFull(j) else Returned(j)))
  {
    var j, key, next := s.tasks[t].phase.jobId, s.tasks[t].key, Next(s, Emitted(t, true, queueFull));
    var status := if queueFull then "failed" else "submitted";
    StepKeeps(s, Emitted(t, true, queueFull));
    EmittedMeaning(s, t, queueFull);
    hide Inv, Enabled, Next, HasStatus;
    OutcomeStays(next, t, j, status, steps);
    MappingStays(next, key, j, steps);
  }

  lemma EmittedMeaning(s: State, t: nat, queueFull: bool)
    requires Inv(s) && Enabled(s, Emitted(t, true, queueFull))
    ensures var s', j, key := Next(s, Emitted(t, true, queueFull)), s.tasks[t].phase.jobId, s.tasks[t].key;
      && HasStatus(s', j, if queueFull then "failed" else "submitted")
      && s'.persistent == s.persistent && s'.created == s.created + {(key, j)} && s'.sources == s.sources
      && key in s.sources && key !in s'.locks
      && t in s'.tasks && s'.tasks[t].phase == Done(if queueFull then QueueFull(j) else Returned(j))
  {
    assert TaskKnows(s, t);
    hide LocksHeld, Injective, CreatedMapped, TasksKnow, Accounted;
  }

  /** A created job stays the one its key maps to, reservation and all. */
  lemma {:induction false} MappingStays(s: State, key: string, jobId: string, steps: seq<Step>)
    requires Inv(s) && Runs(s, steps) && (key, jobId) in s.created && key in s.sources
    ensures var end := After(s, steps);
      (key, jobId) in end.created && key in end.sources && end.sources[key] == s.sources[key] && end.persistent == s.persistent
    decreases |steps|
  {
    hide Inv, Enabled, Next;
    if |steps| > 0 {
      StepKeeps(s, steps[0]);
      HistoryGrows(s, steps[0]);
      RecordStays(s, key, jobId, steps[0]);
      MappingStays(Next(s, steps[0]), key, jobId, steps[1..]);
    }
  }

  lemma RecordStays(s: State, key: string, jobId: string, step: Step)
    requires Inv(s) && Enabled(s, step) && (key, jobId) in s.created && key in s.sources
    ensures key in Next(s, step).sources && Next(s, step).sources[key] == s.sources[key]
    ensures Next(s, step).persistent == s.persistent
  {
    match step
    case Emitted(t, ok, queueFull) => EmitKeepsRecord(s, t, ok, queueFull, key, jobId);
    case Enter(t, candidate, now) =>
      EntryMeaning(s, t, candidate, now);
      hide Inv, EnterLocked;
    case _ => hide Inv, EnterLocked, AfterEmit;
  }

  lemma EmitKeepsRecord(s: State, t: nat, ok: bool, queueFull: bool, key: string, jobId: string)
    requires Inv(s) && Enabled(s, Emitted(t, ok, queueFull)) && (key, jobId) in s.created && key in s.sources
    ensures var s' := AfterEmit(s, t, ok, queueFull);
      key in s'.sources && s'.sources[key] == s.sources[key] && s'.persistent == s.persistent
  {
    assert TaskKnows(s, t) && InFlight(s, s.tasks[t].key);
    assert s.tasks[t].key != key;
    hide Inv, InFlight, Loadable, Persist;
  }

  // ---------------------------------------------------------------- waiting in vain

  /** How many steps of the run are this submission's own. */
  function OwnSteps(steps: seq<Step>, t: nat): nat
    decreases |steps|
  {
    if |steps| == 0 then 0 else (if Of(steps[0], t) then 1 else 0) + OwnSteps(steps[1..], t)
  }

  /** Where a submission stands that has polled `n` times. */
  function AfterPolls(jobId: string, n: nat): Phase {
    if n < 5 then Polling(jobId, 5 - n) else if n == 5 then Diverging(jobId) else Done(PendingError(jobId))
  }

  lemma PollStep(s: State, t: nat, jobId: string, n: nat, step: Step)
    requires Inv(s) && Enabled(s, step) && t in s.tasks && s.tasks[t].phase == AfterPolls(jobId, n) && n <= 6
    requires !step.Restart? && !(step.Cancel? && step.t == t)
    ensures t in Next(s, step).tasks
    ensures Next(s, step).tasks[t].phase == AfterPolls(jobId, n + if Of(step, t) then 1 else 0)
    ensures Of(step, t) ==> n < 6
  {
    if Of(step, t) {
      if step.Poll? {
        AbandonedNeverLoads(s, t);
      }
      hide Inv, Loadable, EnterLocked, AfterEmit;
    } else {
      RefusedOtherStep(s, t, step);
      TasksRemain(s, t, step);
      hide Inv, Enabled, Next;
    }
  }

  lemma TasksRemain(s: State, t: nat, step: Step)
    requires Enabled(s, step) && t in s.tasks && !step.Restart?
    ensures t in Next(s, step).tasks
  {
    hide EnterLocked, AfterEmit;
    match step
    case Enter(u, candidate, now) => EnterTask(s, u, candidate, now);
    case Emitted(u, ok, queueFull) => EmitTask(s, u, ok, queueFull);
    case _ =>
  }

  /** Over all runs: a replay that finds its key reserved for a job that cannot be loaded looks again
      exactly five times, reports the divergence, and then fails as pending with that job, unless it is
      cut off or the process restarts. */
  lemma {:induction false} PendingAfterFivePolls(s: State, t: nat, jobId: string, n: nat, steps: seq<Step>)
    requires Inv(s) && Runs(s, steps) && t in s.tasks && s.tasks[t].phase == AfterPolls(jobId, n) && n <= 6
    requires forall k :: 0 <= k < |steps| ==> !steps[k].Restart? && !(steps[k].Cancel? && steps[k].t == t)
    ensures n + OwnSteps(steps, t) <= 6
    ensures t in After(s, steps).tasks && After(s, steps).tasks[t].phase == AfterPolls(jobId, n + OwnSteps(steps, t))
    decreases |steps|
  {
    hide Inv, Enabled, Next, Of, AfterPolls;
    if |steps| > 0 {
      StepKeeps(s, steps[0]);
      PollStep(s, t, jobId, n, steps[0]);
      assert forall k :: 0 <= k < |steps[1..]| ==> steps[1..][k] == steps[k + 1];
      PendingAfterFivePolls(Next(s, steps[0]), t, jobId, n + if Of(steps[0], t) then 1 else 0, steps[1..]);
    }
  }
}
