/** Override and review calls on jobs, as a state machine whose steps are the stretches of code
    between two awaits (orchestrator/job_manager.py, `override_job`, `review_job`, the
    `_review_*` branches and `_spawn_successor`). */
module JobReview {
  import opened Bytes

  datatype Status =
    | Submitted | Classified | Dispatched | ResponseReceived
    | Delivered | FailedJob | Revoked | ProposalReady | ClosedNoAction

  datatype OverrideKind = Cancel | Redirect | Modify | Escalate | UnknownKind

  datatype Decision = Approve | Edit | Reject | Defer | DeclineToAct

  predicate Terminal(d: Option<Decision>) {
    d.Some? && d.value != Defer
  }

  predicate PreDelivery(status: Status) {
    status.Submitted? || status.Classified? || status.Dispatched? || status.ResponseReceived?
  }

  /** A job, numbered by its position in creation order.  `present` says whether it is in the
      in-memory cache.  The last six fields record history: the call that went on to emit an
      override, how many overrides were acknowledged, the successor, how many terminal review
      decisions were taken, whether one of them is closed (a decline_to_act at once, any other with
      its second event), and whether the pipeline or a restart has touched the job since the first
      decision. */
  datatype Job = Job(
    present: bool,
    status: Status,
    overrideType: Option<OverrideKind>,
    review: Option<Decision>,
    result: string,
    parent: Option<nat>,
    owner: Option<nat>,
    overridesEmitted: nat,
    child: Option<nat>,
    decisions: nat,
    closed: bool,
    touched: bool)

  /** The identity under which a review decision is replayed. */
  datatype Payload = Payload(job: nat, decision: Decision, result: string, text: Option<string>)

  datatype Reply =
    | NotFound | AlreadyTerminal | AlreadyReviewed | AlreadyOverridden | OverrideError
    | OverrideDone | Code(code: int) | RaisedError | CutOff

  /** What a call is waiting for. */
  datatype Phase =
    | Overriding(kind: OverrideKind, pre: bool, delivered: bool)   // human.override
    | Failing(kind: OverrideKind)                                  // job.failed
    | Classifying(kind: OverrideKind, pre: bool, child: nat)       // job.classified of the successor
    | Revoking(kind: OverrideKind)                                 // job.revoked
    | Modifying(delivered: bool)                                   // human.reviewed of a modify
    | ModifyDelivering                                             // job.delivered of a modify
    | Reviewing(key: string, payload: Payload, newResult: string)  // human.reviewed
    | Closing(key: string, payload: Payload, newResult: string)    // the decision's second event
    | Done(reply: Reply)

  datatype Call = Call(job: nat, phase: Phase)

  datatype State = State(jobs: seq<Job>, calls: map<nat, Call>, outcomes: map<string, (Payload, int)>)

  datatype Step =
    | NewJob(added: Job)
    | Pipeline(job: nat, status: Status, result: string)
    | CallOverride(t: nat, job: nat, kind: OverrideKind, hasText: bool)
    | CallReview(t: nat, key: string, payload: Payload, newResult: string)
    | Acknowledged(t: nat, knownTarget: bool)
    | EmitFailed(t: nat)
    | CutCall(t: nat)
    | Restart(kept: set<nat>, statuses: seq<Status>, outcomesKept: bool)

  function Fresh(status: Status, result: string, parent: Option<nat>): Job {
    Job(true, status, None, None, result, parent, None, 0, None, 0, false, false)
  }

  function SetJob(s: State, i: nat, job: Job): State
    requires i < |s.jobs|
  {
    s.(jobs := s.jobs[i := job])
  }

  function SetPhase(s: State, t: nat, job: nat, phase: Phase): State {
    s.(calls := s.calls[t := Call(job, phase)])
  }

  predicate Enabled(s: State, step: Step) {
    match step
    case NewJob(added) => added == Fresh(added.status, added.result, None)
    case Pipeline(i, status, _) => i < |s.jobs| && s.jobs[i].present
    case CallOverride(t, _, _, _) => t !in s.calls
    case CallReview(t, _, _, _) => t !in s.calls
    case Acknowledged(t, _) => t in s.calls && !s.calls[t].phase.Done? && s.calls[t].job < |s.jobs|
    case EmitFailed(t) => t in s.calls && !s.calls[t].phase.Done?
    case CutCall(t) => t in s.calls && !s.calls[t].phase.Done?
    case Restart(_, statuses, _) => |statuses| == |s.jobs|
  }

  // ---------------------------------------------------------------- override_job

  /** The guards of `override_job` and its reservation: the job and where the call then stands. */
  function Reserved(job: Job, t: nat, kind: OverrideKind, hasText: bool): (Job, Phase) {
    if job.status == FailedJob || job.status == Revoked then (job, Done(AlreadyTerminal))
    else if Terminal(job.review) then (job, Done(AlreadyReviewed))
    else if job.overrideType.Some? then (job, Done(AlreadyOverridden))
    else
      var reserves := kind.Cancel? || kind.Redirect? || kind.Escalate? || job.status == ProposalReady;
      var job1 := if reserves then job.(overrideType := Some(kind)) else job;
      match kind
      case UnknownKind => (job1, Done(OverrideError))
      case Modify =>
        if !hasText || !(job.status == ResponseReceived || job.status == Delivered) then (job1, Done(OverrideError))
        else
          (job1.(overrideType := Some(Modify), owner := Some(t)),
           Overriding(Modify, PreDelivery(job.status), job.status == Delivered))
      case _ =>
        (job1.(owner := Some(t)), Overriding(kind, PreDelivery(job.status), job.status == Delivered))
  }

  /** The code of `override_job` up to its first await. */
  function BeginOverride(s: State, t: nat, i: nat, kind: OverrideKind, hasText: bool): State {
    if i >= |s.jobs| || !s.jobs[i].present then SetPhase(s, t, i, Done(NotFound))
    else
      var r := Reserved(s.jobs[i], t, kind, hasText);
      SetPhase(SetJob(s, i, r.0), t, i, r.1)
  }

  /** `_spawn_successor` up to its await; an unknown target raises. */
  function Spawn(s: State, t: nat, i: nat, kind: OverrideKind, pre: bool, knownTarget: bool): State
    requires i < |s.jobs|
  {
    if !knownTarget then SetPhase(s, t, i, Done(RaisedError))
    else
      var n := |s.jobs|;
      var s1 := SetJob(s, i, s.jobs[i].(child := Some(n)));
      SetPhase(s1.(jobs := s1.jobs + [Fresh(Classified, "", Some(i))]), t, i, Classifying(kind, pre, n))
  }

  /** An override call continues after the event it waited for was acknowledged. */
  function ContinueOverride(s: State, t: nat, i: nat, phase: Phase, knownTarget: bool): State
    requires i < |s.jobs| && !phase.Done? && !phase.Reviewing? && !phase.Closing?
  {
    var job := s.jobs[i];
    match phase
    case Overriding(kind, pre, delivered) =>
      var s1 := SetJob(s, i, job.(overridesEmitted := job.overridesEmitted + 1));
      (match kind
       case Modify => SetPhase(s1, t, i, Modifying(delivered))
       case Escalate => Spawn(s1, t, i, kind, false, knownTarget)
       case Redirect => if pre then SetPhase(s1, t, i, Failing(kind)) else Spawn(s1, t, i, kind, false, knownTarget)
       case _ => SetPhase(s1, t, i, if pre then Failing(kind) else Revoking(kind)))
    case Failing(kind) =>
      var s1 := SetJob(s, i, job.(status := FailedJob));
      if kind.Redirect? then Spawn(s1, t, i, kind, true, knownTarget) else SetPhase(s1, t, i, Done(OverrideDone))
    case Classifying(kind, pre, _) => SetPhase(s, t, i, if pre then Done(OverrideDone) else Revoking(kind))
    case Revoking(kind) => SetPhase(SetJob(s, i, job.(status := Revoked)), t, i, Done(OverrideDone))
    case Modifying(delivered) =>
      if delivered then SetPhase(s, t, i, Done(OverrideDone)) else SetPhase(s, t, i, ModifyDelivering)
    case ModifyDelivering => SetPhase(SetJob(s, i, job.(status := Delivered)), t, i, Done(OverrideDone))
  }

  // ---------------------------------------------------------------- review_job

  /** An edit brings a text, and nothing else does. */
  predicate TextFits(payload: Payload) {
    if payload.decision == Edit then payload.text.Some? && payload.text.value != "" else payload.text.None?
  }

  /** The code of `review_job` up to its first await. */
  function BeginReview(s: State, t: nat, key: string, payload: Payload, newResult: string): State {
    var i := payload.job;
    if key in s.outcomes then
      SetPhase(s, t, i, Done(Code(if s.outcomes[key].0 == payload then s.outcomes[key].1 else 409)))
    else if i >= |s.jobs| || !s.jobs[i].present then SetPhase(s, t, i, Done(Code(404)))
    else
      var job := s.jobs[i];
      if job.status != ProposalReady || job.overrideType.Some? || job.result != payload.result then
        SetPhase(s, t, i, Done(Code(409)))
      else if !TextFits(payload) then
        SetPhase(s, t, i, Done(Code(422)))
      else
        var job1 :=
          if payload.decision == Defer then job
          else job.(review := Some(payload.decision), decisions := job.decisions + 1,
                    status := if payload.decision == DeclineToAct then ClosedNoAction else job.status,
                    closed := job.closed || payload.decision == DeclineToAct);
        SetPhase(SetJob(s, i, job1), t, i, Reviewing(key, payload, newResult))
  }

  /** What the last event of a decision makes of its job. */
  function Decided(job: Job, decision: Decision, newResult: string): Job {
    match decision
    case Approve => job.(status := Delivered, closed := true)
    case Edit => job.(status := Delivered, result := newResult, closed := true)
    case Reject => job.(status := FailedJob, closed := true)
    case _ => job
  }

  /** A review call continues after the event it waited for was acknowledged. */
  function ContinueReview(s: State, t: nat, i: nat, phase: Phase): State
    requires i < |s.jobs| && (phase.Reviewing? || phase.Closing?)
  {
    var outcomes := s.outcomes[phase.key := (phase.payload, 200)];
    if phase.Reviewing? && phase.payload.decision != Defer then
      SetPhase(s, t, i, Closing(phase.key, phase.payload, phase.newResult))
    else
      var job := Decided(s.jobs[i], phase.payload.decision, phase.newResult);
      SetPhase(SetJob(s, i, job).(outcomes := outcomes), t, i, Done(Code(200)))
  }

  // ---------------------------------------------------------------- all steps

  function Restarted(s: State, kept: set<nat>, statuses: seq<Status>, outcomesKept: bool): State
    requires |statuses| == |s.jobs|
  {
    State(seq(|s.jobs|, i requires 0 <= i < |s.jobs| =>
            s.jobs[i].(present := s.jobs[i].present && i in kept, status := statuses[i],
                       touched := s.jobs[i].touched || s.jobs[i].decisions > 0)),
          map[], if outcomesKept then s.outcomes else map[])
  }

  function Next(s: State, step: Step): State
    requires Enabled(s, step)
  {
    match step
    case NewJob(added) => s.(jobs := s.jobs + [added])
    case Pipeline(i, status, result) =>
      SetJob(s, i, s.jobs[i].(status := status, result := result,
                              touched := s.jobs[i].touched || s.jobs[i].decisions > 0))
    case CallOverride(t, i, kind, hasText) => BeginOverride(s, t, i, kind, hasText)
    case CallReview(t, key, payload, newResult) => BeginReview(s, t, key, payload, newResult)
    case Acknowledged(t, knownTarget) =>
      var call := s.calls[t];
      if call.phase.Reviewing? || call.phase.Closing? then ContinueReview(s, t, call.job, call.phase)
      else ContinueOverride(s, t, call.job, call.phase, knownTarget)
    case EmitFailed(t) => SetPhase(s, t, s.calls[t].job, Done(RaisedError))
    case CutCall(t) => SetPhase(s, t, s.calls[t].job, Done(CutOff))
    case Restart(kept, statuses, outcomesKept) => Restarted(s, kept, statuses, outcomesKept)
  }

  // ---------------------------------------------------------------- the invariant

  /** What holds of one job's own fields. */
  ghost predicate JobInv(job: Job) {
    && job.overridesEmitted <= 1
    && (job.overridesEmitted > 0 || job.child.Some? ==> job.owner.Some?)
    && (job.owner.Some? ==> job.overrideType.Some? && !Terminal(job.review))
    && (job.decisions > 0 <==> Terminal(job.review))
    && (job.decisions > 0 ==> job.overrideType.None?)
    && (job.closed || job.touched ==> job.decisions > 0)
    && (job.decisions > 0 && !job.touched ==> job.present && (job.status == ProposalReady <==> !job.closed))
  }

  /** Parent and child links point at each other, from older to newer jobs. */
  ghost predicate LinkInv(jobs: seq<Job>, i: nat)
    requires i < |jobs|
  {
    && (jobs[i].child.Some? ==>
          i < jobs[i].child.value < |jobs| && jobs[jobs[i].child.value].parent == Some(i))
    && (jobs[i].parent.Some? ==> jobs[i].parent.value < i && jobs[jobs[i].parent.value].child == Some(i))
  }

  /** What a suspended call knows about its job: an override past its guard owns the job and comes
      to each of its events once; a terminal review has left its decision. */
  ghost predicate CallInv(s: State, t: nat)
    requires t in s.calls
  {
    var i, phase := s.calls[t].job, s.calls[t].phase;
    !phase.Done? ==>
      && i < |s.jobs|
      && (var job := s.jobs[i];
          match phase
          case Overriding(_, _, _) => job.owner == Some(t) && job.overridesEmitted == 0 && job.child == None
          case Failing(_) => job.owner == Some(t) && job.child == None
          case Classifying(_, _, child) => job.owner == Some(t) && job.child == Some(child)
          case Reviewing(_, payload, _) =>
            && i == payload.job && (payload.decision != Defer ==> Terminal(job.review) && job.owner == None)
            && (payload.decision == DeclineToAct ==> job.closed)
          case Closing(_, payload, _) =>
            && i == payload.job && payload.decision != Defer && Terminal(job.review) && job.owner == None
            && (payload.decision == DeclineToAct ==> job.closed)
          case _ => job.owner == Some(t))
  }

  /** A stored answer to a terminal review belongs to a closed job. */
  ghost predicate AnswerInv(s: State, key: string)
    requires key in s.outcomes
  {
    var payload := s.outcomes[key].0;
    payload.job < |s.jobs| && (payload.decision != Defer ==> s.jobs[payload.job].closed)
  }

  ghost predicate Inv(s: State) {
    && (forall i :: 0 <= i < |s.jobs| ==> JobInv(s.jobs[i]) && LinkInv(s.jobs, i))
    && (forall t :: t in s.calls ==> CallInv(s, t))
    && (forall key :: key in s.outcomes ==> AnswerInv(s, key))
  }

  /** One job changes in fields that its links and the calls of others do not depend on. */
  ghost predicate Compatible(a: Job, b: Job, t: nat) {
    && b.child == a.child && b.parent == a.parent && JobInv(b)
    && (b.owner == a.owner || (a.owner == None && a.review == b.review && b.owner == Some(t) && !Terminal(a.review)))
    && (Terminal(a.review) ==> Terminal(b.review))
    && (b.overridesEmitted == a.overridesEmitted || b.owner == Some(t))
    && (Terminal(b.review) ==> b.owner == None)
    && (a.closed ==> b.closed)
  }

  lemma OneJobChanges(s: State, i: nat, job: Job, t: nat, phase: Phase)
    requires Inv(s) && i < |s.jobs| && Compatible(s.jobs[i], job, t)
    requires var s' := SetPhase(SetJob(s, i, job), t, i, phase); CallInv(s', t)
    ensures Inv(SetPhase(SetJob(s, i, job), t, i, phase))
  {
    var s' := SetPhase(SetJob(s, i, job), t, i, phase);
    forall k | 0 <= k < |s'.jobs| ensures JobInv(s'.jobs[k]) && LinkInv(s'.jobs, k) {
      assert JobInv(s.jobs[k]) && LinkInv(s.jobs, k);
    }
    forall u | u in s'.calls ensures CallInv(s', u) {
      if u != t {
        assert CallInv(s, u);
      }
    }
    forall key | key in s'.outcomes ensures AnswerInv(s', key) {
      assert AnswerInv(s, key);
    }
  }

  lemma PhaseOnly(s: State, t: nat, i: nat, phase: Phase)
    requires Inv(s) && CallInv(SetPhase(s, t, i, phase), t)
    ensures Inv(SetPhase(s, t, i, phase))
  {
    var s' := SetPhase(s, t, i, phase);
    forall u | u in s'.calls ensures CallInv(s', u) {
      if u != t {
        assert CallInv(s, u);
      }
    }
    forall key | key in s'.outcomes ensures AnswerInv(s', key) {
      assert AnswerInv(s, key);
    }
  }

  lemma ReservedIsCompatible(job: Job, t: nat, kind: OverrideKind, hasText: bool)
    requires JobInv(job)
    ensures var r := Reserved(job, t, kind, hasText);
      && Compatible(job, r.0, t) && (r.1.Done? || r.1.Overriding?)
      && (r.1.Overriding? ==> r.0.owner == Some(t) && r.0.overridesEmitted == 0 && r.0.child == None)
  {
  }

  lemma BeginOverrideKeeps(s: State, t: nat, i: nat, kind: OverrideKind, hasText: bool)
    requires Inv(s) && t !in s.calls
    ensures Inv(BeginOverride(s, t, i, kind, hasText))
  {
    hide Reserved;
    if i >= |s.jobs| || !s.jobs[i].present {
      PhaseOnly(s, t, i, Done(NotFound));
    } else {
      var r := Reserved(s.jobs[i], t, kind, hasText);
      assert JobInv(s.jobs[i]);
      ReservedIsCompatible(s.jobs[i], t, kind, hasText);
      hide Inv, Compatible;
      OneJobChanges(s, i, r.0, t, r.1);
    }
  }

  lemma BeginReviewKeeps(s: State, t: nat, key: string, payload: Payload, newResult: string)
    requires Inv(s) && t !in s.calls
    ensures Inv(BeginReview(s, t, key, payload, newResult))
  {
    var s' := BeginReview(s, t, key, payload, newResult);
    var i := payload.job;
    if s'.calls[t].phase.Done? {
      PhaseOnly(s, t, i, s'.calls[t].phase);
    } else {
      assert JobInv(s.jobs[i]) && LinkInv(s.jobs, i);
      hide Inv, LinkInv, AnswerInv;
      OneJobChanges(s, i, s'.jobs[i], t, s'.calls[t].phase);
    }
  }

  lemma ContinueReviewKeeps(s: State, t: nat, i: nat, phase: Phase)
    requires Inv(s) && t in s.calls && s.calls[t] == Call(i, phase) && i < |s.jobs|
    requires phase.Reviewing? || phase.Closing?
    ensures Inv(ContinueReview(s, t, i, phase))
  {
    assert CallInv(s, t) && JobInv(s.jobs[i]);
    hide Inv, LinkInv, AnswerInv;
    if phase.Reviewing? && phase.payload.decision != Defer {
      PhaseOnly(s, t, i, Closing(phase.key, phase.payload, phase.newResult));
    } else {
      var job := Decided(s.jobs[i], phase.payload.decision, phase.newResult);
      DecidedIsCompatible(s.jobs[i], t, phase.payload.decision, phase.newResult);
      hide Decided, JobInv;
      OneJobChanges(s, i, job, t, Done(Code(200)));
      AnswerStored(SetPhase(SetJob(s, i, job), t, i, Done(Code(200))), phase.key, phase.payload);
    }
  }

  /** The closing event changes nothing that links or other calls depend on. */
  lemma DecidedIsCompatible(job: Job, t: nat, decision: Decision, newResult: string)
    requires JobInv(job) && (decision != Defer ==> Terminal(job.review) && job.owner == None)
    requires decision == DeclineToAct ==> job.closed
    ensures Compatible(job, Decided(job, decision, newResult), t)
    ensures decision != Defer ==> Decided(job, decision, newResult).closed
  {
  }

  lemma AnswerStored(s: State, key: string, payload: Payload)
    requires Inv(s) && payload.job < |s.jobs| && (payload.decision != Defer ==> s.jobs[payload.job].closed)
    ensures Inv(s.(outcomes := s.outcomes[key := (payload, 200)]))
  {
    var s' := s.(outcomes := s.outcomes[key := (payload, 200)]);
    forall u | u in s'.calls ensures CallInv(s', u) {
      assert CallInv(s, u);
    }
    forall k | k in s'.outcomes ensures AnswerInv(s', k) {
      if k != key {
        assert AnswerInv(s, k);
      }
    }
  }

  lemma SpawnKeeps(s: State, t: nat, i: nat, kind: OverrideKind, pre: bool, knownTarget: bool)
    requires Inv(s) && i < |s.jobs| && s.jobs[i].owner == Some(t) && s.jobs[i].child == None
    requires t in s.calls && s.calls[t].job == i
    requires forall u :: u in s.calls && u != t && !s.calls[u].phase.Done? && s.calls[u].job == i ==>
      s.calls[u].phase.Reviewing? && s.calls[u].phase.payload.decision == Defer
    ensures Inv(Spawn(s, t, i, kind, pre, knownTarget))
  {
    var s' := Spawn(s, t, i, kind, pre, knownTarget);
    if !knownTarget {
      PhaseOnly(s, t, i, Done(RaisedError));
    } else {
      var n := |s.jobs|;
      assert s'.jobs == s.jobs[i := s.jobs[i].(child := Some(n))] + [Fresh(Classified, "", Some(i))];
      forall k | 0 <= k < |s'.jobs| ensures JobInv(s'.jobs[k]) && LinkInv(s'.jobs, k) {
        if k < n {
          assert JobInv(s.jobs[k]) && LinkInv(s.jobs, k);
        }
      }
      forall u | u in s'.calls ensures CallInv(s', u) {
        if u != t {
          assert CallInv(s, u);
        }
      }
      forall key | key in s'.outcomes ensures AnswerInv(s', key) {
        assert AnswerInv(s, key);
      }
    }
  }

  /** No other override is under way on an owned job. */
  lemma OwnerAlone(s: State, t: nat, i: nat)
    requires Inv(s) && i < |s.jobs| && s.jobs[i].owner == Some(t)
    ensures forall u :: u in s.calls && u != t && !s.calls[u].phase.Done? && s.calls[u].job == i ==>
      s.calls[u].phase.Reviewing? && s.calls[u].phase.payload.decision == Defer
  {
    forall u | u in s.calls && u != t && !s.calls[u].phase.Done? && s.calls[u].job == i
      ensures s.calls[u].phase.Reviewing? && s.calls[u].phase.payload.decision == Defer
    {
      assert CallInv(s, u) && JobInv(s.jobs[i]);
    }
  }

  lemma ContinueOverrideKeeps(s: State, t: nat, i: nat, phase: Phase, knownTarget: bool)
    requires Inv(s) && t in s.calls && s.calls[t] == Call(i, phase) && i < |s.jobs|
    requires !phase.Done? && !phase.Reviewing? && !phase.Closing?
    ensures Inv(ContinueOverride(s, t, i, phase, knownTarget))
  {
    hide Inv, Spawn;
    var job := s.jobs[i];
    var s' := ContinueOverride(s, t, i, phase, knownTarget);
    assert CallInv(s, t) && JobInv(job) && LinkInv(s.jobs, i) by { FromInv(s, t, i); }
    match phase
    case Overriding(kind, pre, delivered) =>
      var job1 := job.(overridesEmitted := job.overridesEmitted + 1);
      OneJobChanges(s, i, job1, t, Failing(kind));
      var s1 := SetPhase(SetJob(s, i, job1), t, i, Failing(kind));
      if kind.Escalate? || (kind.Redirect? && !pre) {
        OwnerAlone(s1, t, i);
        SpawnKeeps(s1, t, i, kind, false, knownTarget);
        SpawnFrom(s1, SetJob(s, i, job1), t, i, kind, false, knownTarget);
      } else {
        OneJobChanges(s, i, job1, t, s'.calls[t].phase);
      }
    case Failing(kind) =>
      var job1 := job.(status := FailedJob);
      OneJobChanges(s, i, job1, t, phase);
      var s1 := SetPhase(SetJob(s, i, job1), t, i, phase);
      if kind.Redirect? {
        OwnerAlone(s1, t, i);
        SpawnKeeps(s1, t, i, kind, true, knownTarget);
        SpawnFrom(s1, SetJob(s, i, job1), t, i, kind, true, knownTarget);
      } else {
        OneJobChanges(s, i, job1, t, Done(OverrideDone));
      }
    case Classifying(kind, pre, _) => PhaseOnly(s, t, i, s'.calls[t].phase);
    case Revoking(kind) => OneJobChanges(s, i, job.(status := Revoked), t, Done(OverrideDone));
    case Modifying(delivered) => PhaseOnly(s, t, i, s'.calls[t].phase);
    case ModifyDelivering => OneJobChanges(s, i, job.(status := Delivered), t, Done(OverrideDone));
  }

  lemma FromInv(s: State, t: nat, i: nat)
    requires Inv(s) && t in s.calls && i < |s.jobs|
    ensures CallInv(s, t) && JobInv(s.jobs[i]) && LinkInv(s.jobs, i)
  {
  }

  /** Spawning overwrites the call's phase, whatever it was. */
  lemma SpawnFrom(a: State, b: State, t: nat, i: nat, kind: OverrideKind, pre: bool, knownTarget: bool)
    requires i < |a.jobs| && a.jobs == b.jobs && a.outcomes == b.outcomes
    requires forall phase :: a.calls[t := Call(i, phase)] == b.calls[t := Call(i, phase)]
    ensures Spawn(a, t, i, kind, pre, knownTarget) == Spawn(b, t, i, kind, pre, knownTarget)
  {
  }

  lemma OtherStepsKeep(s: State, step: Step)
    requires Inv(s) && Enabled(s, step)
    requires step.NewJob? || step.Pipeline? || step.Restart?
    ensures Inv(Next(s, step))
  {
    var s' := Next(s, step);
    forall k | 0 <= k < |s'.jobs| ensures JobInv(s'.jobs[k]) && LinkInv(s'.jobs, k) {
      if k < |s.jobs| {
        assert JobInv(s.jobs[k]) && LinkInv(s.jobs, k);
      }
    }
    forall u | u in s'.calls ensures CallInv(s', u) {
      assert CallInv(s, u);
    }
    forall key | key in s'.outcomes ensures AnswerInv(s', key) {
      assert AnswerInv(s, key);
    }
  }

  lemma StepKeeps(s: State, step: Step)
    requires Inv(s) && Enabled(s, step)
    ensures Inv(Next(s, step))
  {
    hide Inv, BeginOverride, BeginReview, ContinueOverride, ContinueReview, Restarted;
    match step
    case CallOverride(t, i, kind, hasText) => BeginOverrideKeeps(s, t, i, kind, hasText);
    case CallReview(t, key, payload, newResult) => BeginReviewKeeps(s, t, key, payload, newResult);
    case Acknowledged(t, knownTarget) =>
      var call := s.calls[t];
      if call.phase.Reviewing? || call.phase.Closing? {
        ContinueReviewKeeps(s, t, call.job, call.phase);
      } else {
        ContinueOverrideKeeps(s, t, call.job, call.phase, knownTarget);
      }
    case EmitFailed(t) => PhaseOnly(s, t, s.calls[t].job, Done(RaisedError));
    case CutCall(t) => PhaseOnly(s, t, s.calls[t].job, Done(CutOff));
    case _ => OtherStepsKeep(s, step);
  }

  // ---------------------------------------------------------------- runs

  ghost predicate Runs(s: State, steps: seq<Step>)
    decreases |steps|
  {
    |steps| == 0 || (Enabled(s, steps[0]) && Runs(Next(s, steps[0]), steps[1..]))
  }

  ghost function After(s: State, steps: seq<Step>): State
    requires Runs(s, steps)
    decreases |steps|
  {
    if |steps| == 0 then s else After(Next(s, steps[0]), steps[1..])
  }

  const EMPTY := State([], map[], map[])

  lemma {:induction false} RunKeeps(s: State, steps: seq<Step>)
    requires Inv(s) && Runs(s, steps)
    ensures Inv(After(s, steps))
    decreases |steps|
  {
    hide Inv, Enabled, Next;
    if |steps| > 0 {
      StepKeeps(s, steps[0]);
      RunKeeps(Next(s, steps[0]), steps[1..]);
    }
  }

  /** In every interleaving of override calls, review calls, pipeline progress, failed emits, cut
      calls and restarts: at most one human.override is acknowledged per job; none is even sent, with
      its reply lost or not, once a terminal review decision was taken, nor is such a decision taken
      once one was sent; every successor has one parent, no parent has two successors, and
      successors are newer. */
  lemma OverrideReviewExclusion(steps: seq<Step>)
    requires Runs(EMPTY, steps)
    ensures var jobs := After(EMPTY, steps).jobs;
      && (forall i :: 0 <= i < |jobs| ==>
            && jobs[i].overridesEmitted <= 1
            && !(jobs[i].owner.Some? && jobs[i].decisions > 0)
            && (jobs[i].overridesEmitted > 0 || jobs[i].child.Some? ==> jobs[i].owner.Some?))
      && (forall i :: 0 <= i < |jobs| && jobs[i].parent.Some? ==>
            jobs[i].parent.value < i && jobs[jobs[i].parent.value].child == Some(i))
      && (forall i, j :: 0 <= i < |jobs| && 0 <= j < |jobs| && jobs[i].parent.Some? && jobs[i].parent == jobs[j].parent
            ==> i == j)
  {
    RunKeeps(EMPTY, steps);
    var jobs := After(EMPTY, steps).jobs;
    forall i | 0 <= i < |jobs| ensures JobInv(jobs[i]) && LinkInv(jobs, i) {
    }
  }

  /** The first override wins: once set, the override type of a job never changes. */
  lemma FirstOverrideWins(s: State, step: Step, i: nat)
    requires Enabled(s, step) && i < |s.jobs| && s.jobs[i].overrideType.Some?
    ensures i < |Next(s, step).jobs| && Next(s, step).jobs[i].overrideType == s.jobs[i].overrideType
  {
    match step
    case Acknowledged(t, knownTarget) =>
      var call := s.calls[t];
      if call.phase.Reviewing? || call.phase.Closing? {
        assert ContinueReview(s, t, call.job, call.phase).jobs[i].overrideType == s.jobs[i].overrideType;
      } else {
        ContinueKeepsType(s, t, call.job, call.phase, knownTarget, i);
      }
    case CallOverride(t, j, kind, hasText) =>
      assert BeginOverride(s, t, j, kind, hasText).jobs[i].overrideType == s.jobs[i].overrideType;
    case CallReview(t, key, payload, newResult) =>
      assert BeginReview(s, t, key, payload, newResult).jobs[i].overrideType == s.jobs[i].overrideType;
    case _ =>
  }

  lemma ContinueKeepsType(s: State, t: nat, i: nat, phase: Phase, knownTarget: bool, k: nat)
    requires i < |s.jobs| && k < |s.jobs| && !phase.Done? && !phase.Reviewing? && !phase.Closing?
    ensures var s' := ContinueOverride(s, t, i, phase, knownTarget);
      k < |s'.jobs| && s'.jobs[k].overrideType == s.jobs[k].overrideType
  {
  }

  /** A terminal decision stays terminal. */
  lemma DecisionStays(s: State, step: Step, i: nat)
    requires Enabled(s, step) && i < |s.jobs| && Terminal(s.jobs[i].review)
    ensures i < |Next(s, step).jobs| && Terminal(Next(s, step).jobs[i].review)
  {
    match step
    case Acknowledged(t, knownTarget) =>
      var call := s.calls[t];
      if call.phase.Reviewing? || call.phase.Closing? {
        assert ContinueReview(s, t, call.job, call.phase).jobs[i].review == s.jobs[i].review;
      } else {
        ContinueKeepsReview(s, t, call.job, call.phase, knownTarget, i);
      }
    case CallOverride(t, j, kind, hasText) =>
      assert BeginOverride(s, t, j, kind, hasText).jobs[i].review == s.jobs[i].review;
    case _ =>
  }

  lemma ContinueKeepsReview(s: State, t: nat, i: nat, phase: Phase, knownTarget: bool, k: nat)
    requires i < |s.jobs| && k < |s.jobs| && !phase.Done? && !phase.Reviewing? && !phase.Closing?
    ensures var s' := ContinueOverride(s, t, i, phase, knownTarget);
      k < |s'.jobs| && s'.jobs[k].review == s.jobs[k].review
  {
  }

  lemma {:induction false} SettledRun(s: State, steps: seq<Step>, i: nat)
    requires Runs(s, steps) && i < |s.jobs|
    ensures var s' := After(s, steps);
      && i < |s'.jobs|
      && (Terminal(s.jobs[i].review) ==> Terminal(s'.jobs[i].review))
      && (s.jobs[i].overrideType.Some? ==> s'.jobs[i].overrideType == s.jobs[i].overrideType)
    decreases |steps|
  {
    hide Next, Enabled, Terminal;
    if |steps| > 0 {
      JobsStay(s, steps[0]);
      if Terminal(s.jobs[i].review) { DecisionStays(s, steps[0], i); }
      if s.jobs[i].overrideType.Some? { FirstOverrideWins(s, steps[0], i); }
      SettledRun(Next(s, steps[0]), steps[1..], i);
    }
  }

  lemma JobsStay(s: State, step: Step)
    requires Enabled(s, step)
    ensures |s.jobs| <= |Next(s, step).jobs|
  {
    if step.Acknowledged? && |s.jobs| > 0 && !s.calls[step.t].phase.Reviewing? && !s.calls[step.t].phase.Closing? {
      ContinueKeepsType(s, step.t, s.calls[step.t].job, s.calls[step.t].phase, step.knownTarget, |s.jobs| - 1);
    }
  }

  /** Once a job is decided or overridden, then after any further steps an override changes nothing
      and emits nothing; once it is overridden, neither does a review. */
  lemma LaterCallsAreNoOps(s: State, steps: seq<Step>, t: nat, i: nat, kind: OverrideKind, hasText: bool,
                           key: string, payload: Payload, newResult: string)
    requires Runs(s, steps) && i < |s.jobs| && payload.job == i
    ensures Terminal(s.jobs[i].review) || s.jobs[i].overrideType.Some? ==>
      var after := After(s, steps);
      var s' := BeginOverride(after, t, i, kind, hasText);
      s'.jobs == after.jobs && s'.outcomes == after.outcomes && s'.calls[t].phase.Done?
    ensures s.jobs[i].overrideType.Some? ==>
      var after := After(s, steps);
      var s' := BeginReview(after, t, key, payload, newResult);
      s'.jobs == after.jobs && s'.outcomes == after.outcomes && s'.calls[t].phase.Done?
  {
    SettledRun(s, steps, i);
  }

  // ---------------------------------------------------------------- replays

  /** A review call under this key is waiting for one of its events. */
  predicate Pending(s: State, t: nat, key: string) {
    t in s.calls && (s.calls[t].phase.Reviewing? || s.calls[t].phase.Closing?) && s.calls[t].phase.key == key
  }

  /** Its next event is its last. */
  predicate Answers(phase: Phase) {
    phase.Closing? || (phase.Reviewing? && phase.payload.decision == Defer)
  }

  /** The key has its answer, and no other call is about to give it one. */
  ghost predicate Answered(s: State, key: string) {
    key in s.outcomes && forall t :: t in s.calls ==> !Pending(s, t, key)
  }

  predicate KeepsAnswers(step: Step) {
    step.Restart? ==> step.outcomesKept
  }

  /** A stored answer changes exactly when a restart loses it, or another call under the same key,
      with another payload, comes to its end. */
  lemma AnswerChangesIff(s: State, step: Step, key: string)
    requires Enabled(s, step) && key in s.outcomes && s.outcomes[key].1 == 200
    ensures var s' := Next(s, step);
      !(key in s'.outcomes && s'.outcomes[key] == s.outcomes[key]) <==>
      || !KeepsAnswers(step)
      || (step.Acknowledged? && Pending(s, step.t, key) && Answers(s.calls[step.t].phase)
          && s.calls[step.t].phase.payload != s.outcomes[key].0)
  {
    if step.Acknowledged? && !s.calls[step.t].phase.Reviewing? && !s.calls[step.t].phase.Closing? {
      var call := s.calls[step.t];
      assert ContinueOverride(s, step.t, call.job, call.phase, step.knownTarget).outcomes == s.outcomes;
    }
  }

  lemma AnsweredStays(s: State, step: Step, key: string)
    requires Enabled(s, step) && Answered(s, key) && KeepsAnswers(step)
    ensures Answered(Next(s, step), key) && Next(s, step).outcomes[key] == s.outcomes[key]
  {
    match step
    case Acknowledged(t, knownTarget) =>
      assert !Pending(s, t, key);
      var call := s.calls[t];
      if call.phase.Reviewing? || call.phase.Closing? {
        OwnCallOnly(s, ContinueReview(s, t, call.job, call.phase), t, key);
      } else {
        OverrideAnswersNothing(s, t, call.job, call.phase, knownTarget);
        OwnCallOnly(s, ContinueOverride(s, t, call.job, call.phase, knownTarget), t, key);
      }
    case CallOverride(t, i, kind, hasText) => OwnCallOnly(s, BeginOverride(s, t, i, kind, hasText), t, key);
    case CallReview(t, other, payload, newResult) => OwnCallOnly(s, BeginReview(s, t, other, payload, newResult), t, key);
    case EmitFailed(t) => OwnCallOnly(s, Next(s, step), t, key);
    case CutCall(t) => OwnCallOnly(s, Next(s, step), t, key);
    case _ =>
  }

  lemma OverrideAnswersNothing(s: State, t: nat, i: nat, phase: Phase, knownTarget: bool)
    requires i < |s.jobs| && !phase.Done? && !phase.Reviewing? && !phase.Closing?
    ensures var s' := ContinueOverride(s, t, i, phase, knownTarget);
      && s'.outcomes == s.outcomes && t in s'.calls && s'.calls == s.calls[t := s'.calls[t]]
      && !s'.calls[t].phase.Reviewing? && !s'.calls[t].phase.Closing?
  {
  }

  lemma OwnCallOnly(s: State, s': State, t: nat, key: string)
    requires Answered(s, key) && t in s'.calls && s'.calls == s.calls[t := s'.calls[t]]
    requires !Pending(s', t, key) && key in s'.outcomes
    ensures Answered(s', key)
  {
    forall u | u in s'.calls ensures !Pending(s', u, key) {
      if u != t {
        assert !Pending(s, u, key);
      }
    }
  }

  lemma {:induction false} AnsweredRun(s: State, steps: seq<Step>, key: string)
    requires Runs(s, steps) && Answered(s, key) && forall i :: 0 <= i < |steps| ==> KeepsAnswers(steps[i])
    ensures Answered(After(s, steps), key) && After(s, steps).outcomes[key] == s.outcomes[key]
    decreases |steps|
  {
    hide Next, Enabled, KeepsAnswers;
    if |steps| > 0 {
      AnsweredStays(s, steps[0], key);
      assert forall i :: 0 <= i < |steps[1..]| ==> steps[1..][i] == steps[i + 1];
      AnsweredRun(Next(s, steps[0]), steps[1..], key);
    }
  }

  /** Once a review is answered, and no other call is under way with its key, then after any further
      steps that lose no stored answer the same review gets the same answer and another payload
      under the key is refused; either way nothing changes. */
  lemma ReviewReplays(s: State, t: nat, knownTarget: bool, steps: seq<Step>, u: nat, other: Payload, newResult: string)
    requires t in s.calls && Answers(s.calls[t].phase) && forall v :: v in s.calls && v != t ==> !Pending(s, v, s.calls[t].phase.key)
    requires Runs(s, [Acknowledged(t, knownTarget)] + steps) && forall i :: 0 <= i < |steps| ==> KeepsAnswers(steps[i])
    ensures var phase := s.calls[t].phase;
      var s1 := After(s, [Acknowledged(t, knownTarget)] + steps);
      var s2 := BeginReview(s1, u, phase.key, other, newResult);
      && s2.jobs == s1.jobs && s2.outcomes == s1.outcomes
      && s2.calls[u].phase == Done(Code(if other == phase.payload then 200 else 409))
  {
    var all := [Acknowledged(t, knownTarget)] + steps;
    assert all[0] == Acknowledged(t, knownTarget) && all[1..] == steps;
    var key := s.calls[t].phase.key;
    AnswerGiven(s, t, knownTarget);
    AnsweredRun(Next(s, all[0]), steps, key);
  }

  lemma AnswerGiven(s: State, t: nat, knownTarget: bool)
    requires Enabled(s, Acknowledged(t, knownTarget)) && Answers(s.calls[t].phase)
    requires forall v :: v in s.calls && v != t ==> !Pending(s, v, s.calls[t].phase.key)
    ensures var s' := Next(s, Acknowledged(t, knownTarget));
      Answered(s', s.calls[t].phase.key) && s'.outcomes[s.calls[t].phase.key] == (s.calls[t].phase.payload, 200)
  {
    var s' := Next(s, Acknowledged(t, knownTarget));
    forall v | v in s'.calls ensures !Pending(s', v, s.calls[t].phase.key) {
      if v != t {
        assert !Pending(s, v, s.calls[t].phase.key);
      }
    }
  }

  /** A terminal review call goes past the guards, counted as a decision. */
  ghost predicate Applies(s: State, t: nat, key: string, payload: Payload, newResult: string)
    requires payload.job < |s.jobs|
  {
    var s' := BeginReview(s, t, key, payload, newResult);
    payload.job < |s'.jobs| && s'.jobs[payload.job].decisions > s.jobs[payload.job].decisions
  }

  /** When exactly a decided job is decided again, over all runs: under a new key, when the job is
      present and still proposal_ready, with a matching result and a fitting text; an override never
      stands in the way.  If nothing but calls has touched the job since its first decision, that
      means exactly that no decision is closed yet: none was a decline_to_act, and no second event
      has been acknowledged.  A call that is not applied changes nothing. */
  lemma SecondReviewIff(steps: seq<Step>, t: nat, key: string, payload: Payload, newResult: string)
    requires Runs(EMPTY, steps) && payload.decision != Defer
    requires var s := After(EMPTY, steps);
      t !in s.calls && key !in s.outcomes && payload.job < |s.jobs| && s.jobs[payload.job].decisions > 0
    ensures var s := After(EMPTY, steps);
      var job := s.jobs[payload.job];
      && (Applies(s, t, key, payload, newResult) <==>
            job.present && job.status == ProposalReady && job.result == payload.result && TextFits(payload))
      && (!job.touched ==>
            (Applies(s, t, key, payload, newResult) <==>
               !job.closed && job.result == payload.result && TextFits(payload)))
      && (!Applies(s, t, key, payload, newResult) ==>
            var s' := BeginReview(s, t, key, payload, newResult);
            s'.jobs == s.jobs && s'.outcomes == s.outcomes && s'.calls[t].phase.Done?)
  {
    RunKeeps(EMPTY, steps);
    var s := After(EMPTY, steps);
    assert JobInv(s.jobs[payload.job]);
  }

  /** Once the answer to a terminal review is stored, or a decline_to_act is under way, every review of
      the job under a new key is refused and changes nothing, however many steps lie in between,
      unless the pipeline or a restart has touched the job. */
  lemma SequentialReviewsExclude(steps: seq<Step>, first: string, d: nat, t: nat, key: string, payload: Payload, newResult: string)
    requires Runs(EMPTY, steps)
    requires var s := After(EMPTY, steps);
      && t !in s.calls && key !in s.outcomes && payload.job < |s.jobs| && !s.jobs[payload.job].touched
      && ((first in s.outcomes && s.outcomes[first].0.job == payload.job && s.outcomes[first].0.decision != Defer)
          || (d in s.calls && s.calls[d].job == payload.job && Declining(s.calls[d].phase)))
    ensures var s := After(EMPTY, steps);
      var s' := BeginReview(s, t, key, payload, newResult);
      s'.jobs == s.jobs && s'.outcomes == s.outcomes && s'.calls[t].phase == Done(Code(409))
  {
    RunKeeps(EMPTY, steps);
    var s := After(EMPTY, steps);
    assert JobInv(s.jobs[payload.job]);
    if first in s.outcomes && s.outcomes[first].0.job == payload.job && s.outcomes[first].0.decision != Defer {
      assert AnswerInv(s, first);
    } else {
      assert CallInv(s, d);
    }
  }

  predicate Declining(phase: Phase) {
    (phase.Reviewing? || phase.Closing?) && phase.payload.decision == DeclineToAct
  }

  const APPROVAL := Payload(0, Approve, "r", None)
  const REJECTION := Payload(0, Reject, "r", None)

  /** Both reviews past their guards. */
  function BothReviewing(): State {
    State([Fresh(ProposalReady, "r", None).(review := Some(Reject), decisions := 2)],
          map[0 := Call(0, Reviewing("a", APPROVAL, "")), 1 := Call(0, Reviewing("b", REJECTION, ""))], map[])
  }

  function BothDone(): State {
    State([Fresh(FailedJob, "r", None).(review := Some(Reject), decisions := 2, closed := true)],
          map[0 := Call(0, Done(Code(200))), 1 := Call(0, Done(Code(200)))],
          map["a" := (APPROVAL, 200), "b" := (REJECTION, 200)])
  }

  lemma BothEnter(s0: State)
    requires s0 == State([Fresh(ProposalReady, "r", None)], map[], map[])
    ensures var s1 := BeginReview(s0, 0, "a", APPROVAL, "");
      1 !in s1.calls && BeginReview(s1, 1, "b", REJECTION, "") == BothReviewing()
  {
    var s1 := BeginReview(s0, 0, "a", APPROVAL, "");
    assert s1.jobs[0] == Fresh(ProposalReady, "r", None).(review := Some(Approve), decisions := 1);
    var s2 := BeginReview(s1, 1, "b", REJECTION, "");
    assert s2.jobs[0] == BothReviewing().jobs[0];
  }

  lemma BothFinish()
    ensures var s3 := ContinueReview(BothReviewing(), 0, 0, Reviewing("a", APPROVAL, ""));
      && s3 == SetPhase(BothReviewing(), 0, 0, Closing("a", APPROVAL, ""))
      && (var s4 := ContinueReview(s3, 0, 0, Closing("a", APPROVAL, ""));
          && |s4.jobs| == 1 && 1 in s4.calls && s4.calls[1] == BothReviewing().calls[1]
          && (var s5 := ContinueReview(s4, 1, 0, Reviewing("b", REJECTION, ""));
              && s5 == SetPhase(s4, 1, 0, Closing("b", REJECTION, ""))
              && ContinueReview(s5, 1, 0, Closing("b", REJECTION, "")) == BothDone()))
  {
    var s3 := ContinueReview(BothReviewing(), 0, 0, Reviewing("a", APPROVAL, ""));
    var s4 := ContinueReview(s3, 0, 0, Closing("a", APPROVAL, ""));
    assert s4.jobs == [Fresh(Delivered, "r", None).(review := Some(Reject), decisions := 2, closed := true)];
    var s5 := ContinueReview(s4, 1, 0, Reviewing("b", REJECTION, ""));
    var s6 := ContinueReview(s5, 1, 0, Closing("b", REJECTION, ""));
    assert s6.jobs == BothDone().jobs;
    assert s6.outcomes == BothDone().outcomes;
  }

  /** Two overlapping reviews under different keys do not exclude each other: both are applied and
      both answer 200. */
  lemma OverlappingReviewsBothApply() returns (steps: seq<Step>)
    ensures Runs(EMPTY, steps)
    ensures var s := After(EMPTY, steps);
      && s.calls == map[0 := Call(0, Done(Code(200))), 1 := Call(0, Done(Code(200)))]
      && |s.jobs| == 1 && s.jobs[0].decisions == 2 && s.jobs[0].status == FailedJob
  {
    hide BeginReview, ContinueReview, BeginOverride, ContinueOverride, Restarted;
    var added := Fresh(ProposalReady, "r", None);
    var enter := NewJob(added);
    var first, second := CallReview(0, "a", APPROVAL, ""), CallReview(1, "b", REJECTION, "");
    var ack0, ack1 := Acknowledged(0, true), Acknowledged(1, true);
    var s0 := Next(EMPTY, enter);
    assert s0 == State([added], map[], map[]);
    BothEnter(s0);
    BothFinish();
    var s1 := Next(s0, first);
    var s2 := Next(s1, second);
    var s3 := Next(s2, ack0);
    var s4 := Next(s3, ack0);
    var s5 := Next(s4, ack1);
    var s6 := Next(s5, ack1);
    assert s6 == BothDone();
    OneMore(s5, ack1, []);
    OneMore(s4, ack1, [ack1] + []);
    OneMore(s3, ack0, [ack1] + ([ack1] + []));
    OneMore(s2, ack0, [ack0] + ([ack1] + ([ack1] + [])));
    OneMore(s1, second, [ack0] + ([ack0] + ([ack1] + ([ack1] + []))));
    OneMore(s0, first, [second] + ([ack0] + ([ack0] + ([ack1] + ([ack1] + [])))));
    steps := [enter] + ([first] + ([second] + ([ack0] + ([ack0] + ([ack1] + ([ack1] + []))))));
    OneMore(EMPTY, enter, [first] + ([second] + ([ack0] + ([ack0] + ([ack1] + ([ack1] + []))))));
  }

  lemma OneMore(s: State, step: Step, rest: seq<Step>)
    requires Enabled(s, step) && Runs(Next(s, step), rest)
    ensures Runs(s, [step] + rest) && After(s, [step] + rest) == After(Next(s, step), rest)
  {
    hide Enabled, Next;
    assert ([step] + rest)[1..] == rest;
  }
}
