/** What reviews and overrides make of a job and answer, read off the call alone
    (orchestrator/job_manager.py, `override_job`, `review_job`). */
module JobOutcomes {
  import opened Bytes
  import opened JobReview

  // ---------------------------------------------------------------- the events of a review

  /** No job but `i` differs. */
  ghost predicate OnlyJob(s: State, s': State, i: nat) {
    && |s'.jobs| >= |s.jobs|
    && forall k :: 0 <= k < |s.jobs| && k != i ==> s'.jobs[k] == s.jobs[k]
  }

  /** What a review call answers at once, or how it goes on: a known key answers as before, to the same
      payload only; then the job must exist, be an untouched proposal with this very result, and the
      text must fit the decision. A decision is recorded before its first event, a deferral is not, and
      declining closes the job at once. */
  lemma ReviewBegins(s: State, t: nat, key: string, payload: Payload, newResult: string)
    requires Enabled(s, CallReview(t, key, payload, newResult))
    ensures var s' := Next(s, CallReview(t, key, payload, newResult));
      var i := payload.job;
      && t in s'.calls && s'.calls == s.calls[t := Call(i, s'.calls[t].phase)] && s'.outcomes == s.outcomes
      && |s'.jobs| == |s.jobs| && OnlyJob(s, s', i)
      && if key in s.outcomes then
           s'.calls[t].phase == Done(Code(if s.outcomes[key].0 == payload then s.outcomes[key].1 else 409)) && s'.jobs == s.jobs
         else if i >= |s.jobs| || !s.jobs[i].present then
           s'.calls[t].phase == Done(Code(404)) && s'.jobs == s.jobs
         else if !(s.jobs[i].status == ProposalReady && s.jobs[i].overrideType == None && s.jobs[i].result == payload.result) then
           s'.calls[t].phase == Done(Code(409)) && s'.jobs == s.jobs
         else if (payload.decision == Edit && (payload.text == None || payload.text == Some("")))
              || (payload.decision != Edit && payload.text != None) then
           s'.calls[t].phase == Done(Code(422)) && s'.jobs == s.jobs
         else
           && s'.calls[t].phase == Reviewing(key, payload, newResult)
           && (payload.decision == Defer ==> s'.jobs == s.jobs)
           && (payload.decision != Defer ==>
                 && s'.jobs[i].review == Some(payload.decision) && s'.jobs[i].decisions == s.jobs[i].decisions + 1
                 && s'.jobs[i].status == (if payload.decision == DeclineToAct then ClosedNoAction else ProposalReady)
                 && s'.jobs[i].result == s.jobs[i].result && s'.jobs[i].overrideType == None)
  {
  }

  /** A decision other than a deferral has a second event, and its first one changes no job. */
  lemma FirstEvent(s: State, t: nat, knownTarget: bool)
    requires Enabled(s, Acknowledged(t, knownTarget))
    requires s.calls[t].phase.Reviewing? && s.calls[t].phase.payload.decision != Defer
    ensures var s', p := Next(s, Acknowledged(t, knownTarget)), s.calls[t].phase;
      s' == s.(calls := s.calls[t := Call(s.calls[t].job, Closing(p.key, p.payload, p.newResult))])
  {
  }

  /** The event that ends a review: the job is delivered exactly by an approval or an edit, failed
      exactly by a rejection, and keeps its status otherwise; its result is the edited one exactly
      after an edit; a deferral changes no job. The answer is stored under the key. */
  lemma ClosingEvent(s: State, t: nat, knownTarget: bool)
    requires Enabled(s, Acknowledged(t, knownTarget)) && Answers(s.calls[t].phase)
    ensures var s', i, p := Next(s, Acknowledged(t, knownTarget)), s.calls[t].job, s.calls[t].phase;
      var before, after, decision := s.jobs[i], s'.jobs[i], p.payload.decision;
      && |s'.jobs| == |s.jobs| && OnlyJob(s, s', i)
      && after.status == (match decision
                          case Approve => Delivered
                          case Edit => Delivered
                          case Reject => FailedJob
                          case Defer => before.status
                          case DeclineToAct => before.status)
      && after.result == (if decision == Edit then p.newResult else before.result)
      && (decision == Defer || decision == DeclineToAct ==> s'.jobs == s.jobs)
      && after.review == before.review && after.overrideType == before.overrideType && after.present == before.present
      && s'.outcomes == s.outcomes[p.key := (p.payload, 200)]
      && s'.calls == s.calls[t := Call(i, Done(Code(200)))]
  {
  }

  // ---------------------------------------------------------------- the status of a decided job

  /** A job decided once, and touched by calls only, has the status that its decision calls for. */
  predicate StatusFits(job: Job) {
    job.decisions == 1 && !job.touched ==>
      match job.review
      case Some(Approve) => job.status == if job.closed then Delivered else ProposalReady
      case Some(Edit) => job.status == if job.closed then Delivered else ProposalReady
      case Some(Reject) => job.status == if job.closed then FailedJob else ProposalReady
      case Some(DeclineToAct) => job.status == ClosedNoAction
      case _ => false
  }

  /** A call that is about to close a job decided once is the one that decided it. */
  ghost predicate CallFits(s: State, t: nat)
    requires t in s.calls
  {
    var i, phase := s.calls[t].job, s.calls[t].phase;
    (phase.Reviewing? || phase.Closing?) && phase.payload.decision != Defer && i < |s.jobs|
    && s.jobs[i].decisions == 1 && !s.jobs[i].touched ==>
      s.jobs[i].review == Some(phase.payload.decision)
  }

  ghost predicate Fits(s: State) {
    && (forall i :: 0 <= i < |s.jobs| ==> StatusFits(s.jobs[i]))
    && (forall t :: t in s.calls ==> CallFits(s, t))
  }

  lemma ReviewBeginFits(s: State, t: nat, key: string, payload: Payload, newResult: string)
    requires Inv(s) && Fits(s) && t !in s.calls
    ensures Fits(BeginReview(s, t, key, payload, newResult))
  {
    var s', i := BeginReview(s, t, key, payload, newResult), payload.job;
    ReviewBegins(s, t, key, payload, newResult);
    if i < |s.jobs| {
      assert JobInv(s.jobs[i]) && StatusFits(s.jobs[i]);
    }
    hide Inv, JobInv;
    forall k | 0 <= k < |s'.jobs| ensures StatusFits(s'.jobs[k]) {
      assert StatusFits(s.jobs[k]);
    }
    forall u | u in s'.calls ensures CallFits(s', u) {
      if u != t {
        assert CallFits(s, u);
      }
    }
  }

  lemma ReviewContinueFits(s: State, t: nat, i: nat, phase: Phase)
    requires Inv(s) && Fits(s) && t in s.calls && s.calls[t] == Call(i, phase) && i < |s.jobs|
    requires phase.Reviewing? || phase.Closing?
    ensures Fits(ContinueReview(s, t, i, phase))
  {
    var s' := ContinueReview(s, t, i, phase);
    assert CallFits(s, t) && StatusFits(s.jobs[i]) && CallInv(s, t) && JobInv(s.jobs[i]);
    hide Inv, LinkInv, AnswerInv;
    forall k | 0 <= k < |s'.jobs| ensures StatusFits(s'.jobs[k]) {
      assert StatusFits(s.jobs[k]);
    }
    forall u | u in s'.calls ensures CallFits(s', u) {
      if u != t {
        assert CallFits(s, u);
      }
    }
  }

  /** A step that leaves decided jobs alone, apart from touching them. */
  lemma OtherwiseFits(s: State, s': State)
    requires Fits(s) && |s.jobs| <= |s'.jobs|
    requires forall k :: |s.jobs| <= k < |s'.jobs| ==> s'.jobs[k].decisions == 0
    requires forall k :: 0 <= k < |s.jobs| ==>
      || s'.jobs[k].decisions == 0
      || s'.jobs[k].touched
      || s'.jobs[k].(present := s.jobs[k].present) == s.jobs[k]
    requires forall u :: u in s'.calls && (s'.calls[u].phase.Reviewing? || s'.calls[u].phase.Closing?) ==>
      u in s.calls && s.calls[u] == s'.calls[u]
    ensures Fits(s')
  {
    forall k | 0 <= k < |s'.jobs| ensures StatusFits(s'.jobs[k]) {
      if k < |s.jobs| {
        assert StatusFits(s.jobs[k]);
      }
    }
    forall u | u in s'.calls ensures CallFits(s', u) {
      if u in s.calls {
        assert CallFits(s, u);
      }
    }
  }

  lemma OverrideContinueFits(s: State, t: nat, i: nat, phase: Phase, knownTarget: bool)
    requires Inv(s) && Fits(s) && t in s.calls && s.calls[t] == Call(i, phase) && i < |s.jobs|
    requires !phase.Done? && !phase.Reviewing? && !phase.Closing?
    ensures Fits(ContinueOverride(s, t, i, phase, knownTarget))
  {
    assert CallInv(s, t) && JobInv(s.jobs[i]);
    assert s.jobs[i].decisions == 0;
    hide Inv, Fits, CallInv, JobInv, ContinueOverride;
    OverrideLeavesAlone(s, t, i, phase, knownTarget);
    OtherwiseFits(s, ContinueOverride(s, t, i, phase, knownTarget));
  }

  /** What a suspended override leaves alone when it continues: other jobs, other calls, reviews. */
  ghost predicate LeavesAlone(s: State, s': State, t: nat, i: nat)
    requires i < |s.jobs|
  {
    && |s.jobs| <= |s'.jobs| && s'.jobs[i].decisions == s.jobs[i].decisions
    && (forall k :: |s.jobs| <= k < |s'.jobs| ==> s'.jobs[k].decisions == 0)
    && (forall k :: 0 <= k < |s.jobs| && k != i ==> s'.jobs[k] == s.jobs[k])
    && t in s'.calls && s'.calls == s.calls[t := s'.calls[t]]
    && !s'.calls[t].phase.Reviewing? && !s'.calls[t].phase.Closing?
  }

  lemma SpawnLeavesAlone(s: State, t: nat, i: nat, kind: OverrideKind, pre: bool, knownTarget: bool, job: Job)
    requires i < |s.jobs| && job.decisions == s.jobs[i].decisions
    ensures LeavesAlone(s, Spawn(SetJob(s, i, job), t, i, kind, pre, knownTarget), t, i)
  {
  }

  lemma SetLeavesAlone(s: State, t: nat, i: nat, job: Job, phase: Phase)
    requires i < |s.jobs| && job.decisions == s.jobs[i].decisions && !phase.Reviewing? && !phase.Closing?
    ensures LeavesAlone(s, SetPhase(SetJob(s, i, job), t, i, phase), t, i)
    ensures LeavesAlone(s, SetPhase(s, t, i, phase), t, i)
  {
  }

  lemma OverridingLeavesAlone(s: State, t: nat, i: nat, kind: OverrideKind, pre: bool, delivered: bool, knownTarget: bool)
    requires i < |s.jobs|
    ensures LeavesAlone(s, ContinueOverride(s, t, i, Overriding(kind, pre, delivered), knownTarget), t, i)
  {
    var counted := s.jobs[i].(overridesEmitted := s.jobs[i].overridesEmitted + 1);
    hide LeavesAlone, Spawn, SetJob, SetPhase;
    if kind == Modify {
      SetLeavesAlone(s, t, i, counted, Modifying(delivered));
    } else if kind == Escalate || (kind == Redirect && !pre) {
      SpawnLeavesAlone(s, t, i, kind, false, knownTarget, counted);
    } else {
      SetLeavesAlone(s, t, i, counted, if pre then Failing(kind) else Revoking(kind));
    }
  }

  lemma OverrideLeavesAlone(s: State, t: nat, i: nat, phase: Phase, knownTarget: bool)
    requires i < |s.jobs|
    requires !phase.Done? && !phase.Reviewing? && !phase.Closing?
    ensures LeavesAlone(s, ContinueOverride(s, t, i, phase, knownTarget), t, i)
  {
    var job := s.jobs[i];
    hide LeavesAlone, Spawn, SetJob, SetPhase;
    match phase
    case Overriding(kind, pre, delivered) => OverridingLeavesAlone(s, t, i, kind, pre, delivered, knownTarget);
    case Failing(kind) =>
      SpawnLeavesAlone(s, t, i, kind, true, knownTarget, job.(status := FailedJob));
      SetLeavesAlone(s, t, i, job.(status := FailedJob), Done(OverrideDone));
    case Classifying(kind, pre, _) => SetLeavesAlone(s, t, i, job, if pre then Done(OverrideDone) else Revoking(kind));
    case Revoking(_) => SetLeavesAlone(s, t, i, job.(status := Revoked), Done(OverrideDone));
    case Modifying(delivered) =>
      SetLeavesAlone(s, t, i, job, if delivered then Done(OverrideDone) else ModifyDelivering);
    case ModifyDelivering => SetLeavesAlone(s, t, i, job.(status := Delivered), Done(OverrideDone));
  }

  lemma OverrideBeginFits(s: State, t: nat, i: nat, kind: OverrideKind, hasText: bool)
    requires Inv(s) && Fits(s) && t !in s.calls
    ensures Fits(BeginOverride(s, t, i, kind, hasText))
  {
    var s' := BeginOverride(s, t, i, kind, hasText);
    if i < |s.jobs| {
      assert JobInv(s.jobs[i]);
      ReservationFits(s.jobs[i], t, kind, hasText);
    }
    hide Inv, Fits, JobInv, Reserved;
    OtherwiseFits(s, s');
  }

  /** A decided job is not reserved. */
  lemma ReservationFits(job: Job, t: nat, kind: OverrideKind, hasText: bool)
    requires JobInv(job)
    ensures var r := Reserved(job, t, kind, hasText);
      (r.0.decisions == 0 || r.0 == job) && !r.1.Reviewing? && !r.1.Closing?
  {
  }

  lemma StepFits(s: State, step: Step)
    requires Inv(s) && Fits(s) && Enabled(s, step)
    ensures Fits(Next(s, step))
  {
    hide Inv, Fits, BeginOverride, BeginReview, ContinueOverride, ContinueReview;
    match step
    case CallOverride(t, i, kind, hasText) => OverrideBeginFits(s, t, i, kind, hasText);
    case CallReview(t, key, payload, newResult) => ReviewBeginFits(s, t, key, payload, newResult);
    case Acknowledged(t, knownTarget) =>
      var call := s.calls[t];
      if call.phase.Reviewing? || call.phase.Closing? {
        ReviewContinueFits(s, t, call.job, call.phase);
      } else {
        OverrideContinueFits(s, t, call.job, call.phase, knownTarget);
      }
    case _ => OtherwiseFits(s, Next(s, step));
  }

  lemma {:induction false} RunFits(s: State, steps: seq<Step>)
    requires Inv(s) && Fits(s) && Runs(s, steps)
    ensures Fits(After(s, steps))
    decreases |steps|
  {
    hide Inv, Fits, Enabled, Next;
    if |steps| > 0 {
      StepFits(s, steps[0]);
      StepKeeps(s, steps[0]);
      RunFits(Next(s, steps[0]), steps[1..]);
    }
  }

  /** Over all runs: a job decided once, and since then touched by nothing but calls, is delivered after
      the closing event of an approval or an edit, failed after that of a rejection, a ready
      proposal until then, and closed without action from a decline_to_act on. */
  lemma DecisionsTakeEffect(steps: seq<Step>, i: nat)
    requires Runs(EMPTY, steps) && i < |After(EMPTY, steps).jobs|
    ensures var job := After(EMPTY, steps).jobs[i];
      job.decisions == 1 && !job.touched ==>
        && (job.status == Delivered <==> job.closed && (job.review == Some(Approve) || job.review == Some(Edit)))
        && (job.status == FailedJob <==> job.closed && job.review == Some(Reject))
        && (job.status == ClosedNoAction <==> job.review == Some(DeclineToAct))
        && (job.status == ProposalReady <==> !job.closed)
  {
    RunFits(EMPTY, steps);
    RunKeeps(EMPTY, steps);
    var job := After(EMPTY, steps).jobs[i];
    assert StatusFits(job) && JobInv(job);
  }

  // ---------------------------------------------------------------- the events of an override

  /** What an override makes of a job it finds: where the call then stands, and the job. */
  ghost predicate Guarded(job: Job, t: nat, kind: OverrideKind, hasText: bool, after: Job, phase: Phase) {
    var started := job.status == ResponseReceived || job.status == Delivered;
    && after.status == job.status && after.review == job.review && after.result == job.result
    && if job.status == FailedJob || job.status == Revoked then phase == Done(AlreadyTerminal) && after == job
       else if job.review != None && job.review != Some(Defer) then phase == Done(AlreadyReviewed) && after == job
       else if job.overrideType != None then phase == Done(AlreadyOverridden) && after == job
       else if kind == UnknownKind || (kind == Modify && !(hasText && started)) then
         phase == Done(OverrideError)
         && after == job.(overrideType := if job.status == ProposalReady then Some(kind) else None)
       else
         && after == job.(overrideType := Some(kind), owner := Some(t))
         && phase == Overriding(kind,
              job.status in {Submitted, Classified, Dispatched, ResponseReceived}, job.status == Delivered)
  }

  lemma ReservationGuarded(job: Job, t: nat, kind: OverrideKind, hasText: bool)
    ensures var r := Reserved(job, t, kind, hasText); Guarded(job, t, kind, hasText, r.0, r.1)
  {
  }

  /** What an override call answers at once, or how it goes on, from the job as it finds it; no other
      job and no call changes. */
  lemma OverrideBegins(s: State, t: nat, i: nat, kind: OverrideKind, hasText: bool)
    requires Enabled(s, CallOverride(t, i, kind, hasText))
    ensures var s' := Next(s, CallOverride(t, i, kind, hasText));
      && t in s'.calls && s'.calls == s.calls[t := Call(i, s'.calls[t].phase)] && s'.outcomes == s.outcomes
      && |s'.jobs| == |s.jobs| && OnlyJob(s, s', i)
      && (if i >= |s.jobs| || !s.jobs[i].present then s'.calls[t].phase == Done(NotFound) && s'.jobs == s.jobs
          else Guarded(s.jobs[i], t, kind, hasText, s'.jobs[i], s'.calls[t].phase))
  {
    if i < |s.jobs| {
      ReservationGuarded(s.jobs[i], t, kind, hasText);
    }
    hide Reserved, Guarded;
  }

  /** The status that a completed override has given its job. */
  function Outcome(kind: OverrideKind, pre: bool): Status {
    match kind
    case Modify => Delivered
    case Escalate => Revoked
    case _ => if pre then FailedJob else Revoked
  }

  /** The event that gives the job this status is still to come. */
  predicate Ahead(kind: OverrideKind, pre: bool, phase: Phase) {
    match phase
    case Overriding(k, p, delivered) => k == kind && p == pre && kind != UnknownKind && !(kind == Modify && delivered)
    case Failing(k) => k == kind && pre && (kind == Cancel || kind == Redirect)
    case Classifying(k, p, _) => k == kind && !p && (kind == Escalate || (kind == Redirect && !pre))
    case Revoking(k) => k == kind && (kind == Escalate || ((kind == Cancel || kind == Redirect) && !pre))
    case Modifying(delivered) => kind == Modify && !delivered
    case ModifyDelivering => kind == Modify
    case _ => false
  }

  /** The call's event gives the job the status, or that is still to come, or the target was unknown. */
  ghost predicate Advances(s: State, s': State, t: nat, i: nat, kind: OverrideKind, pre: bool)
    requires i < |s.jobs|
  {
    && t in s'.calls && s'.calls[t].job == i && i < |s'.jobs|
    && (s'.jobs[i].status == Outcome(kind, pre)
        || (s'.jobs[i].status == s.jobs[i].status
            && (Ahead(kind, pre, s'.calls[t].phase) || s'.calls[t].phase == Done(RaisedError))))
  }

  lemma OverrideEvent(s: State, t: nat, kind: OverrideKind, pre: bool, knownTarget: bool)
    requires Enabled(s, Acknowledged(t, knownTarget)) && Ahead(kind, pre, s.calls[t].phase)
    ensures Advances(s, Next(s, Acknowledged(t, knownTarget)), t, s.calls[t].job, kind, pre)
  {
    var i, phase := s.calls[t].job, s.calls[t].phase;
    if phase.Overriding? {
      OverridingEvent(s, t, i, kind, pre, phase.delivered, knownTarget);
    } else if phase.Failing? {
      FailingEvent(s, t, i, kind, knownTarget);
    } else {
      RevokingOrDelivering(s, t, i, kind, pre, phase, knownTarget);
    }
    hide ContinueOverride, Ahead, Advances;
  }

  lemma OverridingEvent(s: State, t: nat, i: nat, kind: OverrideKind, pre: bool, delivered: bool, knownTarget: bool)
    requires i < |s.jobs| && Ahead(kind, pre, Overriding(kind, pre, delivered))
    ensures Advances(s, ContinueOverride(s, t, i, Overriding(kind, pre, delivered), knownTarget), t, i, kind, pre)
  {
    var counted := s.jobs[i].(overridesEmitted := s.jobs[i].overridesEmitted + 1);
    SpawnsOrRaises(s, t, i, kind, false, knownTarget, counted);
    hide Spawn;
  }

  lemma FailingEvent(s: State, t: nat, i: nat, kind: OverrideKind, knownTarget: bool)
    requires i < |s.jobs| && Ahead(kind, true, Failing(kind))
    ensures Advances(s, ContinueOverride(s, t, i, Failing(kind), knownTarget), t, i, kind, true)
  {
    SpawnsOrRaises(s, t, i, kind, true, knownTarget, s.jobs[i].(status := FailedJob));
    hide Spawn;
  }

  lemma RevokingOrDelivering(s: State, t: nat, i: nat, kind: OverrideKind, pre: bool, phase: Phase, knownTarget: bool)
    requires i < |s.jobs| && Ahead(kind, pre, phase) && !phase.Overriding? && !phase.Failing?
    ensures Advances(s, ContinueOverride(s, t, i, phase, knownTarget), t, i, kind, pre)
  {
  }

  lemma SpawnsOrRaises(s: State, t: nat, i: nat, kind: OverrideKind, pre: bool, knownTarget: bool, job: Job)
    requires i < |s.jobs|
    ensures var s' := Spawn(SetJob(s, i, job), t, i, kind, pre, knownTarget);
      && t in s'.calls && s'.calls[t].job == i && i < |s'.jobs| && s'.jobs[i].status == job.status
      && (s'.calls[t].phase == Done(RaisedError) || s'.calls[t].phase == Classifying(kind, pre, |s.jobs|))
  {
  }

  /** A successor is created exactly when the target is known and either an escalation or a redirect
      after delivery was announced, or a redirected job has just failed; it is a classified job whose
      parent is this one. */
  lemma SuccessorEvent(s: State, t: nat, knownTarget: bool)
    requires Enabled(s, Acknowledged(t, knownTarget))
    ensures var s', i, phase := Next(s, Acknowledged(t, knownTarget)), s.calls[t].job, s.calls[t].phase;
      var spawns := knownTarget
        && ((phase.Overriding? && (phase.kind == Escalate || (phase.kind == Redirect && !phase.pre)))
            || (phase.Failing? && phase.kind == Redirect));
      && |s'.jobs| == |s.jobs| + (if spawns then 1 else 0)
      && s'.jobs[i].child == (if spawns then Some(|s.jobs|) else s.jobs[i].child)
      && (spawns ==>
            && s'.jobs[|s.jobs|].status == Classified && s'.jobs[|s.jobs|].parent == Some(i) && s'.jobs[|s.jobs|].present
            && s'.jobs[|s.jobs|].overrideType == None && s'.jobs[|s.jobs|].review == None
            && t in s'.calls && s'.calls[t] == Call(i, Classifying(phase.kind, phase.Failing?, |s.jobs|)))
  {
    var i, phase := s.calls[t].job, s.calls[t].phase;
    var job := s.jobs[i];
    if phase.Overriding? || phase.Failing? {
      var marked := if phase.Failing? then job.(status := FailedJob) else job.(overridesEmitted := job.overridesEmitted + 1);
      SpawnAdds(s, t, i, phase.kind, phase.Failing?, knownTarget, marked);
    }
    hide Spawn;
  }

  lemma SpawnAdds(s: State, t: nat, i: nat, kind: OverrideKind, pre: bool, knownTarget: bool, job: Job)
    requires i < |s.jobs|
    ensures var s' := Spawn(SetJob(s, i, job), t, i, kind, pre, knownTarget);
      && |s'.jobs| == |s.jobs| + (if knownTarget then 1 else 0)
      && s'.jobs[i].child == (if knownTarget then Some(|s.jobs|) else job.child)
      && (knownTarget ==>
            && s'.jobs[|s.jobs|] == Fresh(Classified, "", Some(i))
            && s'.calls == s.calls[t := Call(i, Classifying(kind, pre, |s.jobs|))])
  {
  }

  /** Neither this call's emits fail nor is it cut off. */
  predicate Undisturbed(step: Step, t: nat) {
    !step.Restart? && !(step.EmitFailed? && step.t == t) && !(step.CutCall? && step.t == t)
  }

  lemma OthersKeepCall(s: State, step: Step, t: nat)
    requires Enabled(s, step) && t in s.calls && Undisturbed(step, t) && !(step.Acknowledged? && step.t == t)
    ensures t in Next(s, step).calls && Next(s, step).calls[t] == s.calls[t]
  {
    hide BeginOverride, BeginReview, ContinueReview, ContinueOverride;
    match step
    case CallOverride(u, i, kind, hasText) => OverrideBegins(s, u, i, kind, hasText);
    case CallReview(u, key, payload, newResult) => ReviewBegins(s, u, key, payload, newResult);
    case Acknowledged(u, knownTarget) =>
      var call := s.calls[u];
      if call.phase.Reviewing? || call.phase.Closing? {
        ReviewCallOnly(s, u, call.job, call.phase);
      } else {
        OverrideAnswersNothing(s, u, call.job, call.phase, knownTarget);
      }
    case _ =>
  }

  lemma ReviewCallOnly(s: State, t: nat, i: nat, phase: Phase)
    requires i < |s.jobs| && (phase.Reviewing? || phase.Closing?)
    ensures var s' := ContinueReview(s, t, i, phase);
      t in s'.calls && s'.calls == s.calls[t := s'.calls[t]]
  {
  }

  /** Over all runs, whatever other calls and the pipeline do in between: an override that answers that
      it is done has, at one of its own events, failed the job (a cancel or redirect before delivery),
      revoked it (after delivery, and every escalation), or delivered it (a modify). */
  lemma {:induction false} OverrideTakesEffect(s: State, t: nat, kind: OverrideKind, pre: bool, steps: seq<Step>) returns (m: nat)
    requires t in s.calls && Ahead(kind, pre, s.calls[t].phase)
    requires Runs(s, steps) && forall k :: 0 <= k < |steps| ==> Undisturbed(steps[k], t)
    requires t in After(s, steps).calls && After(s, steps).calls[t].phase == Done(OverrideDone)
    ensures m < |steps| && steps[m].Acknowledged? && steps[m].t == t && Runs(s, steps[..m + 1])
    ensures var after := After(s, steps[..m + 1]);
      s.calls[t].job < |after.jobs| && after.jobs[s.calls[t].job].status == Outcome(kind, pre)
    decreases |steps|
  {
    hide Enabled, Next;
    if |steps| > 0 {
      var next := Next(s, steps[0]);
      assert forall k :: 0 <= k < |steps[1..]| ==> steps[1..][k] == steps[k + 1];
      if steps[0].Acknowledged? && steps[0].t == t {
        OverrideEvent(s, t, kind, pre, steps[0].knownTarget);
        if next.jobs[s.calls[t].job].status == Outcome(kind, pre) {
          m := 0;
          assert steps[..1] == [steps[0]];
          OneStep(s, steps[0]);
          return;
        }
        if next.calls[t].phase == Done(RaisedError) {
          StaysDone(next, t, steps[1..]);
        }
      } else {
        OthersKeepCall(s, steps[0], t);
      }
      m := OverrideTakesEffect(next, t, kind, pre, steps[1..]);
      m := m + 1;
      assert steps[..m + 1][1..] == steps[1..][..m];
    }
  }

  lemma OneStep(s: State, step: Step)
    requires Enabled(s, step)
    ensures Runs(s, [step]) && After(s, [step]) == Next(s, step)
  {
    assert [step][1..] == [];
  }

  lemma {:induction false} StaysDone(s: State, t: nat, steps: seq<Step>)
    requires t in s.calls && s.calls[t].phase.Done? && Runs(s, steps)
    requires forall k :: 0 <= k < |steps| ==> Undisturbed(steps[k], t)
    ensures t in After(s, steps).calls && After(s, steps).calls[t] == s.calls[t]
    decreases |steps|
  {
    if |steps| > 0 {
      assert !(steps[0].Acknowledged? && steps[0].t == t);
      hide Enabled, Next;
      OthersKeepCall(s, steps[0], t);
      assert forall k :: 0 <= k < |steps[1..]| ==> steps[1..][k] == steps[k + 1];
      StaysDone(Next(s, steps[0]), t, steps[1..]);
    }
  }
}
