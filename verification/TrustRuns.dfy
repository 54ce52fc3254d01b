/** Levels over whole runs of startups, handlers and decay passes that wait for their emits: bounded
    by the configuration, raised only by it, and replayable from the audit events. */
module TrustRuns {
  import opened Bytes
  import opened CapabilityState
  import opened TemporalDecay
  import opened TrustLevels

  // ---------------------------------------------------------------- replay

  type Levels = map<string, int>

  function LevelsOf(entries: Entries): Levels {
    map id | id in entries :: entries[id].level
  }

  function Apply(levels: Levels, e: WalEvent): Levels {
    levels[e.cap := e.to]
  }

  function Replay(levels: Levels, events: seq<WalEvent>): Levels
    decreases |events|
  {
    if |events| == 0 then levels
    else Apply(Replay(levels, events[..|events| - 1]), events[|events| - 1])
  }

  lemma ReplayOne(levels: Levels, events: seq<WalEvent>, e: WalEvent)
    ensures Replay(levels, events + [e]) == Apply(Replay(levels, events), e)
  {
    assert (events + [e])[..|events|] == events;
  }

  // ---------------------------------------------------------------- the invariant

  /** Suspended means level -1, and nothing lies below. */
  predicate Sound(e: Entry) {
    e.level >= -1 && (e.suspended <==> e.level == -1)
  }

  ghost predicate AllSound(entries: Entries) {
    forall id :: id in entries ==> Sound(entries[id])
  }

  /** A validated configuration. */
  ghost predicate ValidCaps(registry: seq<Cap>) {
    && (forall i :: 0 <= i < |registry| ==> 0 <= registry[i].desired <= registry[i].maxWal <= 3)
    && (forall i, j :: 0 <= i < j < |registry| ==> registry[i].id != registry[j].id)
  }

  ghost predicate Bounded(entries: Entries, registry: seq<Cap>) {
    forall i :: 0 <= i < |registry| && registry[i].id in entries ==> entries[registry[i].id].level <= registry[i].desired
  }

  /** A decay pass waiting for its emit: the capability and the level read before. */
  datatype Pending = Pending(cap: string, from: int)

  type Passes = map<nat, Pending>

  /** A pass has announced a decay of the capability from this level and not yet carried it out. */
  predicate Awaited(passes: Passes, id: string, level: int) {
    exists p :: p in passes && passes[p] == Pending(id, level)
  }

  /** The level table with the announced decays carried out. */
  function Announced(passes: Passes, entries: Entries): Levels {
    map id | id in entries :: if Awaited(passes, id, entries[id].level) then entries[id].level - 1 else entries[id].level
  }

  /** No capability has risen above a level that a pass has read. */
  ghost predicate Above(passes: Passes, entries: Entries) {
    forall p :: p in passes ==>
      passes[p].from >= 1 && passes[p].cap in entries && entries[passes[p].cap].level <= passes[p].from
  }

  /** The events so far lead from `start` to the level table, announced decays included. */
  ghost predicate Good(start: Levels, passes: Passes, t: Trust) {
    AllSound(t.entries) && Above(passes, t.entries) && Replay(start, t.events) == Announced(passes, t.entries)
  }

  lemma NothingAnnounced(entries: Entries)
    ensures Announced(map[], entries) == LevelsOf(entries)
  {
  }

  /** No level went up, except that a suspended capability may be at 0. */
  ghost predicate NoneRaised(before: Entries, after: Entries) {
    && after.Keys == before.Keys
    && forall id :: id in before ==>
      after[id].level <= before[id].level || (before[id].level == -1 && after[id].level == 0)
  }

  ghost predicate NeverRaised(before: Entries, after: Entries) {
    after.Keys == before.Keys && forall id :: id in before ==> after[id].level <= before[id].level
  }

  lemma NoneRaisedBounded(before: Entries, after: Entries, registry: seq<Cap>)
    requires ValidCaps(registry) && Bounded(before, registry) && NoneRaised(before, after)
    ensures Bounded(after, registry)
  {
  }

  // ---------------------------------------------------------------- single changes

  /** One capability gets a new sound entry, announced by an event, at a level that no pass is about
      to leave. */
  lemma ChangeReplays(start: Levels, passes: Passes, t: Trust, id: string, e: Entry, event: WalEvent)
    requires Good(start, passes, t) && id in t.entries && Sound(e)
    requires event.cap == id && event.to == e.level
    requires forall p :: p in passes && passes[p].cap == id ==> e.level < passes[p].from
    ensures Good(start, passes, Trust(t.entries[id := e], t.events + [event]))
  {
    ReplayOne(start, t.events, event);
    assert Announced(passes, t.entries[id := e]) == Announced(passes, t.entries)[id := e.level];
  }

  /** A demotion, or the suspension lifted by a model change. */
  lemma ExecuteGood(start: Levels, passes: Passes, t: Trust, id: string, to: int, trigger: string, source: Option<string>, now: int)
    requires Good(start, passes, t) && id in t.entries && to >= -1 && (to < t.entries[id].level || to == 0)
    ensures Good(start, passes, Execute(t, id, to, trigger, source, now))
    ensures Execute(t, id, to, trigger, source, now).entries.Keys == t.entries.Keys
    ensures to <= t.entries[id].level ==> NeverRaised(t.entries, Execute(t, id, to, trigger, source, now).entries)
  {
    var e := WithIncident(Reset(Demote(t.entries[id], to), now), source);
    ChangeReplays(start, passes, t, id, e, Demoted(id, EffectiveWal(t.entries[id]), to, trigger));
  }

  /** A change that leaves the levels alone. */
  lemma SameLevelsGood(start: Levels, passes: Passes, t: Trust, id: string, e: Entry)
    requires Good(start, passes, t) && id in t.entries
    requires e.level == t.entries[id].level && e.suspended == t.entries[id].suspended
    ensures Good(start, passes, t.(entries := t.entries[id := e]))
  {
    assert Announced(passes, t.entries[id := e]) == Announced(passes, t.entries);
  }

  /** Strip failures, job failures, overrides and approval decay only ever lower levels. */
  lemma HandlersLower(start: Levels, passes: Passes, t: Trust, registry: seq<Cap>, id: string, failure: Failure,
                      cancelOrRedirect: bool, prior: Option<string>, source: string, now: int)
    requires Good(start, passes, t)
    ensures var s := StripFailure(t, registry, source, now).0; Good(start, passes, s) && NeverRaised(t.entries, s.entries)
    ensures var s := JobFailure(t, registry, id, failure, now).0; Good(start, passes, s) && NeverRaised(t.entries, s.entries)
    ensures var s := OverrideDemotion(t, cancelOrRedirect, id, prior, source, now).0;
      Good(start, passes, s) && NeverRaised(t.entries, s.entries)
    ensures var s := ApprovalDecay(t, id, now).0; Good(start, passes, s) && NeverRaised(t.entries, s.entries)
  {
    hide Execute, Recent, DoubleTotal, Announced, Above;
    StripLowers(start, passes, t, registry, source, now);
    FailureLowers(start, passes, t, registry, id, failure, now);
    if id in t.entries {
      assert Sound(t.entries[id]);
      var from := EffectiveWal(t.entries[id]);
      if from >= 1 {
        ExecuteGood(start, passes, t, id, from - 1, "override", Some(source), now);
      }
      if from == 3 {
        ExecuteGood(start, passes, t, id, 2, "anomaly", None, now);
      }
    }
  }

  lemma StripLowers(start: Levels, passes: Passes, t: Trust, registry: seq<Cap>, source: string, now: int)
    requires Good(start, passes, t)
    ensures var s := StripFailure(t, registry, source, now).0; Good(start, passes, s) && NeverRaised(t.entries, s.entries)
  {
    hide Execute, Announced, Above;
    if CONTEXT_PACKAGE in t.entries {
      assert Sound(t.entries[CONTEXT_PACKAGE]);
      if EffectiveWal(t.entries[CONTEXT_PACKAGE]) != -1 {
        ExecuteGood(start, passes, t, CONTEXT_PACKAGE, -1, "strip_failure", Some(source), now);
      }
    }
  }

  lemma FailureLowers(start: Levels, passes: Passes, t: Trust, registry: seq<Cap>, id: string, failure: Failure, now: int)
    requires Good(start, passes, t)
    ensures var s := JobFailure(t, registry, id, failure, now).0; Good(start, passes, s) && NeverRaised(t.entries, s.entries)
  {
    hide Execute, Recent, Announced, Above;
    if id in t.entries {
      var e := WithFailure(t.entries[id], failure, now);
      var t1 := t.(entries := t.entries[id := e]);
      SameLevelsGood(start, passes, t, id, e);
      assert Sound(t1.entries[id]);
      var from := EffectiveWal(e);
      if from >= 1 {
        ExecuteGood(start, passes, t1, id, from - 1, "error", Some(failure.source), now);
      }
    }
  }

  lemma {:induction false} ModelChangeGood(start: Levels, passes: Passes, t: Trust, ids: seq<string>, source: Option<string>, now: int)
    requires Good(start, passes, t)
    ensures var (s, ok) := ModelChange(t, ids, source, now);
      && Good(start, passes, s) && NoneRaised(t.entries, s.entries)
      && ((forall i :: 0 <= i < |ids| ==> ids[i] in t.entries) ==> ok)
    decreases |ids|
  {
    hide Execute, Good;
    if |ids| > 0 && ids[0] in t.entries {
      SoundAt(start, passes, t, ids[0]);
      var t1 := if EffectiveWal(t.entries[ids[0]]) == 0 then t else Execute(t, ids[0], 0, "model_change", source, now);
      ExecuteGood(start, passes, t, ids[0], 0, "model_change", source, now);
      ExecuteLevels(t, ids[0], 0, "model_change", source, now);
      ModelChangeGood(start, passes, t1, ids[1..], source, now);
    }
  }

  lemma SoundAt(start: Levels, passes: Passes, t: Trust, id: string)
    requires Good(start, passes, t) && id in t.entries
    ensures Sound(t.entries[id])
  {
  }

  lemma ExecuteLevels(t: Trust, id: string, to: int, trigger: string, source: Option<string>, now: int)
    requires id in t.entries
    ensures var s := Execute(t, id, to, trigger, source, now);
      && s.entries.Keys == t.entries.Keys && s.entries[id].level == to
      && forall other :: other in t.entries && other != id ==> s.entries[other] == t.entries[other]
  {
  }

  // ---------------------------------------------------------------- reconciliation

  lemma ReconcileOneGood(start: Levels, t: Trust, cap: Cap, now: int)
    requires Good(start, map[], t) && cap.id in t.entries && cap.desired >= 0
    ensures var s := ReconcileOne(t, cap, now);
      && Good(start, map[], s) && s.entries.Keys == t.entries.Keys && s.entries[cap.id].level == cap.desired
      && forall other :: other in t.entries && other != cap.id ==> s.entries[other] == t.entries[other]
  {
    hide Good, Sound;
    SoundAt(start, map[], t, cap.id);
    var s := ReconcileOne(t, cap, now);
    if cap.desired != EffectiveWal(t.entries[cap.id]) {
      ReconciledEntrySound(t, cap, now);
      var event := s.events[|s.events| - 1];
      ChangeReplays(start, map[], t, cap.id, s.entries[cap.id], event);
      hide ReconcileOne;
      assert s == Trust(t.entries[cap.id := s.entries[cap.id]], t.events + [event]);
    }
  }

  /** The new entry, and the event that tells of it. */
  lemma ReconciledEntrySound(t: Trust, cap: Cap, now: int)
    requires cap.id in t.entries && Sound(t.entries[cap.id]) && cap.desired >= 0
    requires cap.desired != EffectiveWal(t.entries[cap.id])
    ensures var s := ReconcileOne(t, cap, now);
      && cap.id in s.entries && Sound(s.entries[cap.id]) && s.entries[cap.id].level == cap.desired
      && |s.events| > 0
      && var event := s.events[|s.events| - 1];
        && event.cap == cap.id && event.to == cap.desired
        && s == Trust(t.entries[cap.id := s.entries[cap.id]], t.events + [event])
  {
  }

  lemma RegisteredRest(registry: seq<Cap>, id: string)
    requires |registry| > 0
    ensures Registered(registry, id) <==> registry[0].id == id || Registered(registry[1..], id)
  {
    assert forall i :: 0 < i < |registry| ==> registry[i] == registry[1..][i - 1];
    assert forall i :: 0 <= i < |registry| - 1 ==> registry[1..][i] == registry[i + 1];
  }

  /** Position of the first configured capability without an entry. */
  function FirstUnknown(registry: seq<Cap>, entries: Entries): (k: nat)
    ensures k <= |registry|
    ensures forall i :: 0 <= i < k ==> registry[i].id in entries
    ensures k < |registry| ==> registry[k].id !in entries
  {
    if |registry| == 0 || registry[0].id !in entries then 0 else FirstUnknown(registry[1..], entries) + 1
  }

  /** The capabilities before `k` are at their desired level and the others untouched. */
  ghost predicate ReconciledUpTo(before: Entries, after: Entries, registry: seq<Cap>, k: nat)
    requires k <= |registry|
  {
    && after.Keys == before.Keys
    && (forall i :: 0 <= i < k ==> registry[i].id in after && after[registry[i].id].level == registry[i].desired)
    && (forall id :: id in before && !Registered(registry[..k], id) ==> after[id] == before[id])
  }

  /** Reconciliation stops at the first configured capability without entry, and completes exactly
      when there is none. */
  lemma {:induction false} ReconcileGood(start: Levels, t: Trust, registry: seq<Cap>, now: int)
    requires Good(start, map[], t) && ValidCaps(registry)
    ensures var (s, ok) := Reconcile(t, registry, now);
      && Good(start, map[], s) && s.entries.Keys == t.entries.Keys
      && (ok <==> FirstUnknown(registry, t.entries) == |registry|)
      && ReconciledUpTo(t.entries, s.entries, registry, FirstUnknown(registry, t.entries))
    decreases |registry|
  {
    hide ReconcileOne, Good;
    if |registry| > 0 && registry[0].id in t.entries {
      var rest := registry[1..];
      assert forall i :: 0 <= i < |rest| ==> rest[i] == registry[i + 1];
      ReconcileOneGood(start, t, registry[0], now);
      var t1 := ReconcileOne(t, registry[0], now);
      ReconcileGood(start, t1, rest, now);
      SameUnknown(rest, t.entries, t1.entries);
      var k := FirstUnknown(rest, t.entries);
      ReconciledOneMore(t.entries, t1.entries, Reconcile(t1, rest, now).0.entries, registry, k);
    }
  }

  lemma SameUnknown(registry: seq<Cap>, a: Entries, b: Entries)
    requires a.Keys == b.Keys
    ensures FirstUnknown(registry, a) == FirstUnknown(registry, b)
  {
    if |registry| > 0 {
      SameUnknown(registry[1..], a, b);
    }
  }

  lemma ReconciledOneMore(before: Entries, middle: Entries, after: Entries, registry: seq<Cap>, k: nat)
    requires ValidCaps(registry) && k < |registry| && registry[0].id in before && middle.Keys == before.Keys
    requires middle[registry[0].id].level == registry[0].desired
    requires forall other :: other in before && other != registry[0].id ==> middle[other] == before[other]
    requires ReconciledUpTo(middle, after, registry[1..], k)
    ensures ReconciledUpTo(before, after, registry, k + 1)
  {
    var rest, head := registry[1..], registry[..k + 1];
    assert head[1..] == rest[..k] && head[0] == registry[0];
    assert forall i :: 0 < i <= k ==> registry[i] == rest[i - 1];
    assert forall i :: 0 <= i < k ==> rest[..k][i] == registry[i + 1];
    assert !Registered(rest[..k], registry[0].id);
    forall id | id in before && !Registered(head, id) ensures after[id] == before[id] {
      RegisteredRest(head, id);
    }
    assert after[registry[0].id] == middle[registry[0].id];
  }

  // ---------------------------------------------------------------- decay passes

  function DecayEvents(actions: seq<Action>): seq<WalEvent>
    decreases |actions|
  {
    if |actions| == 0 then []
    else
      var a := actions[|actions| - 1];
      DecayEvents(actions[..|actions| - 1]) + [Demoted(a.cap, a.from, a.to, "temporal_decay")]
  }

  function DecayPass(cfg: Config, t: Trust, order: seq<string>, now: int): Trust
    requires forall i :: 0 <= i < |order| ==> order[i] in t.entries
  {
    Trust(DecayAll(cfg, now, t.entries), t.events + DecayEvents(Actions(cfg, now, t.entries, order)))
  }

  lemma {:induction false} DecayUpToGood(start: Levels, cfg: Config, t: Trust, order: seq<string>, now: int, i: nat)
    requires Good(start, map[], t) && Lists(order, t.entries) && i <= |order|
    ensures Good(start, map[], Trust(DecayedUpTo(cfg, now, t.entries, order, i),
                              t.events + DecayEvents(Actions(cfg, now, t.entries, order[..i]))))
    decreases i
  {
    hide Decays, DecayedUpTo, Good, Lists, Decay, DecayAction, DecayEvents, Actions;
    ListsMembers(order, t.entries);
    if i == 0 {
      DecayedEnds(cfg, now, t.entries, order);
      assert order[..0] == [];
      NoActionsYet(cfg, now, t.entries);
      assert t.events + DecayEvents([]) == t.events by {
        NoDecayEvents();
      }
      assert t == Trust(t.entries, t.events);
    } else {
      var k := i - 1;
      var id := order[k];
      var before := Trust(DecayedUpTo(cfg, now, t.entries, order, k),
                          t.events + DecayEvents(Actions(cfg, now, t.entries, order[..k])));
      DecayUpToGood(start, cfg, t, order, now, k);
      DecayedStep(cfg, now, t.entries, order, k);
      ActionsStep(cfg, now, t.entries, order, k);
      DecayStepGood(start, cfg, before, id, t.entries[id], now);
      DecayActionMembers(cfg, now, id, t.entries[id]);
      var done := Actions(cfg, now, t.entries, order[..k]);
      if Decays(cfg, now, id, t.entries[id]) {
        DecayEventsOne(t.events, done, DecayAction(cfg, now, id, t.entries[id]));
      } else {
        assert done + [] == done;
      }
    }
  }

  lemma NoDecayEvents()
    ensures DecayEvents([]) == []
  {
  }

  lemma DecayEventsOne(events: seq<WalEvent>, actions: seq<Action>, a: Action)
    ensures events + DecayEvents(actions + [a])
      == (events + DecayEvents(actions)) + [Demoted(a.cap, a.from, a.to, "temporal_decay")]
  {
    assert (actions + [a])[..|actions|] == actions;
  }

  lemma DecayActionMembers(cfg: Config, now: int, id: string, e: Entry)
    ensures Decays(cfg, now, id, e) ==>
      var a := DecayAction(cfg, now, id, e); a.cap == id && a.from == e.level && a.to == e.level - 1
  {
  }

  lemma DecayStepGood(start: Levels, cfg: Config, t: Trust, id: string, e: Entry, now: int)
    requires Good(start, map[], t) && id in t.entries && t.entries[id] == e
    ensures var entries := t.entries[id := Decay(cfg, now, id, e)];
      if Decays(cfg, now, id, e) then
        var a := DecayAction(cfg, now, id, e);
        Good(start, map[], Trust(entries, t.events + [Demoted(a.cap, a.from, a.to, "temporal_decay")]))
      else Good(start, map[], Trust(entries, t.events))
  {
    if Decays(cfg, now, id, e) {
      var a := DecayAction(cfg, now, id, e);
      ChangeReplays(start, map[], t, id, Decay(cfg, now, id, e), Demoted(a.cap, a.from, a.to, "temporal_decay"));
    } else {
      assert t.entries[id := Decay(cfg, now, id, e)] == t.entries;
    }
  }

  lemma DecayPassGood(start: Levels, cfg: Config, t: Trust, order: seq<string>, now: int)
    requires Good(start, map[], t) && Lists(order, t.entries)
    ensures Good(start, map[], DecayPass(cfg, t, order, now))
    ensures NeverRaised(t.entries, DecayPass(cfg, t, order, now).entries)
    ensures Lists(order, DecayPass(cfg, t, order, now).entries)
  {
    hide Good;
    DecayUpToGood(start, cfg, t, order, now, |order|);
    DecayedEnds(cfg, now, t.entries, order);
    assert order[..|order|] == order;
  }

  // ---------------------------------------------------------------- the running hub

  type Model = (string, Option<string>)

  /** State file, stored meta entry and running process with its waiting decay passes. */
  datatype Hub = Hub(
    trust: Trust,
    present: bool,           // the state file exists
    hash: Option<string>,    // last_config_hash
    model: Option<Model>,    // last_ollama_model and digest
    registry: seq<Cap>,
    up: bool,
    passes: Passes)

  const NEW_HUB := Hub(Trust(map[], []), false, None, None, [], false, map[])

  /** The configurations behind their hashes: equal hashes mean equal files. */
  type Configs = string -> seq<Cap>

  datatype Op =
    | Startup(hash: string, accepted: bool, model: Option<Model>, source: string, now: int)
    | Stop
    | RecordOutcome(id: string, outcome: Outcome)
    | FailStrip(source: string, now: int)
    | FailJob(id: string, failure: Failure, now: int)
    | Overridden(cancelOrRedirect: bool, id: string, prior: Option<string>, source: string, now: int)
    | ChangeModel(ids: seq<string>, cause: Option<string>, now: int)
    | CheckApproval(id: string, now: int)
    | EvaluateDecay(cfg: Config, order: seq<string>, now: int)
    | AnnounceDecay(pass: nat, cfg: Config, id: string, now: int)
    | ResumeDecay(pass: nat, now: int)
    | CutDecay(pass: nat)

  function FreshEntries(registry: seq<Cap>, now: int): Entries {
    map c | c in registry :: c.id := Initial(now)
  }

  function Affected(registry: seq<Cap>): seq<string> {
    if |registry| == 0 then []
    else (if "_" <= registry[0].id then [] else [registry[0].id]) + Affected(registry[1..])
  }

  /** The state file, made from the registry when there is none. */
  function Loaded(hub: Hub, registry: seq<Cap>, now: int): Trust {
    if hub.present then hub.trust else Trust(FreshEntries(registry, now), hub.trust.events)
  }

  /** Reconciliation only under a changed configuration. */
  function Reconciled(hub: Hub, registry: seq<Cap>, hash: string, now: int): (Trust, bool) {
    var t := Loaded(hub, registry, now);
    if hub.hash == Some(hash) then (t, true) else Reconcile(t, registry, now)
  }

  function ModelChecked(hub: Hub, t: Trust, registry: seq<Cap>, model: Option<Model>, source: string, now: int): (Trust, bool) {
    if hub.model.Some? && model.Some? && hub.model != model then ModelChange(t, Affected(registry), Some(source), now)
    else (t, true)
  }

  /** `run`: on an exception the meta entry is not written, but level changes are. */
  ghost function StartHub(hub: Hub, registry: seq<Cap>, hash: string, accepted: bool, model: Option<Model>, source: string, now: int): Hub {
    if !accepted || !ValidCaps(registry) then hub.(up := false)
    else
      var (t1, ok1) := Reconciled(hub, registry, hash, now);
      if !ok1 then hub.(trust := t1, present := true, up := false)
      else
        var (t2, ok2) := ModelChecked(hub, t1, registry, model, source, now);
        if !ok2 then hub.(trust := t2, present := true, up := false)
        else Hub(t2, true, Some(hash), model, registry, true, hub.passes)
  }

  /** What a running hub does to the level table. */
  ghost function Work(t: Trust, registry: seq<Cap>, op: Op): Trust {
    match op
    case Startup(_, _, _, _, _) => t
    case Stop => t
    case RecordOutcome(id, outcome) =>
      if id !in t.entries then t
      else t.(entries := t.entries[id := t.entries[id].(outcomes := LastN(t.entries[id].outcomes + [outcome], OUTCOMES_MAX))])
    case FailStrip(source, now) => StripFailure(t, registry, source, now).0
    case FailJob(id, failure, now) => JobFailure(t, registry, id, failure, now).0
    case Overridden(cancelOrRedirect, id, prior, source, now) => OverrideDemotion(t, cancelOrRedirect, id, prior, source, now).0
    case ChangeModel(ids, source, now) => ModelChange(t, ids, source, now).0
    case CheckApproval(id, now) => ApprovalDecay(t, id, now).0
    case _ => t
  }

  /** The loop body of a decay pass up to its await, and after it. */
  function Announce(hub: Hub, pass: nat, cfg: Config, id: string, now: int): Hub {
    if pass in hub.passes || id !in hub.trust.entries || !Decays(cfg, now, id, hub.trust.entries[id]) then hub
    else
      var level := hub.trust.entries[id].level;
      hub.(trust := hub.trust.(events := hub.trust.events + [Demoted(id, level, level - 1, "temporal_decay")]),
           passes := hub.passes[pass := Pending(id, level)])
  }

  function Resume(hub: Hub, pass: nat, now: int): Hub {
    if pass !in hub.passes || hub.passes[pass].cap !in hub.trust.entries then hub
    else
      var (id, from) := (hub.passes[pass].cap, hub.passes[pass].from);
      hub.(trust := hub.trust.(entries := hub.trust.entries[id := FinishDecay(hub.trust.entries[id], from, now)]),
           passes := hub.passes - {pass})
  }

  /** The end of the process; what its passes have announced and not carried out stays undone. */
  function Ended(hub: Hub): Hub {
    hub.(up := false, passes := map[])
  }

  /** One step of a running hub. `EvaluateDecay` is a pass of `evaluate_startup`, beside which nothing
      runs. */
  ghost function Running(hub: Hub, op: Op): Hub {
    match op
    case AnnounceDecay(pass, cfg, id, now) => Announce(hub, pass, cfg, id, now)
    case ResumeDecay(pass, now) => Resume(hub, pass, now)
    case CutDecay(pass) => hub.(passes := hub.passes - {pass})
    case EvaluateDecay(cfg, order, now) =>
      if hub.passes == map[] && Lists(order, hub.trust.entries) then hub.(trust := DecayPass(cfg, hub.trust, order, now))
      else hub
    case _ => hub.(trust := Work(hub.trust, hub.registry, op))
  }

  ghost function Step(configs: Configs, hub: Hub, op: Op): Hub {
    match op
    case Startup(hash, accepted, model, source, now) => StartHub(Ended(hub), configs(hash), hash, accepted, model, source, now)
    case Stop => Ended(hub)
    case _ => if hub.up then Running(hub, op) else hub
  }

  ghost function Run(configs: Configs, ops: seq<Op>): Hub
    decreases |ops|
  {
    if |ops| == 0 then NEW_HUB else Step(configs, Run(configs, ops[..|ops| - 1]), ops[|ops| - 1])
  }

  // ---------------------------------------------------------------- what every run keeps

  /** Every capability of the first configuration starts at level 0. */
  function Zeros(entries: Entries): Levels {
    map id | id in entries :: 0
  }

  ghost predicate Covers(entries: Entries, registry: seq<Cap>) {
    forall i :: 0 <= i < |registry| ==> registry[i].id in entries
  }

  ghost predicate Accurate(hub: Hub) {
    && Good(Zeros(hub.trust.entries), hub.passes, hub.trust)
    && (!hub.present ==> hub.trust == Trust(map[], []) && hub.hash.None?)
  }

  /** The stored configuration hash vouches for the levels. */
  ghost predicate Vouched(configs: Configs, hub: Hub) {
    hub.hash.Some? ==>
      var registry := configs(hub.hash.value);
      ValidCaps(registry) && Covers(hub.trust.entries, registry) && Bounded(hub.trust.entries, registry)
  }

  ghost predicate Inv(configs: Configs, hub: Hub) {
    && Accurate(hub) && Vouched(configs, hub)
    && (hub.up ==> hub.hash.Some? && hub.registry == configs(hub.hash.value))
  }

  /** `next` asks for nothing above `previous` in the capabilities before position `k`. */
  ghost predicate NoHigher(next: seq<Cap>, k: nat, previous: seq<Cap>)
    requires k <= |next|
  {
    forall i, j :: 0 <= i < k && 0 <= j < |previous| && next[i].id == previous[j].id ==> next[i].desired <= previous[j].desired
  }

  /** A changed configuration that names a capability without entry raises nothing before it. */
  ghost predicate SafeConfig(configs: Configs, hub: Hub, hash: string) {
    hub.hash.Some? && hub.hash.value != hash ==>
      var k := FirstUnknown(configs(hash), hub.trust.entries);
      k < |configs(hash)| ==> NoHigher(configs(hash), k, configs(hub.hash.value))
  }

  /** No decay that has been announced is still to be carried out. */
  ghost predicate NoneAwaited(passes: Passes, entries: Entries) {
    forall id :: id in entries ==> !Awaited(passes, id, entries[id].level)
  }

  /** When a waiting pass resumes, the level it finds is at most one below the level it read: nobody
      else has demoted further in between. */
  ghost predicate SafeResume(hub: Hub, pass: nat) {
    pass in hub.passes && hub.passes[pass].cap in hub.trust.entries ==>
      hub.trust.entries[hub.passes[pass].cap].level >= hub.passes[pass].from - 1
  }

  /** What a run has to keep to: safe configurations, safe resumptions, and no pass cut off between
      its announcement and its demotion. */
  ghost predicate SafeStep(configs: Configs, hub: Hub, op: Op) {
    match op
    case Startup(hash, _, _, _, _) => NoneAwaited(hub.passes, hub.trust.entries) && SafeConfig(configs, hub, hash)
    case Stop => NoneAwaited(hub.passes, hub.trust.entries)
    case CutDecay(pass) => hub.up && pass in hub.passes ==> CutSafe(hub, pass)
    case ResumeDecay(pass, _) => hub.up ==> SafeResume(hub, pass)
    case _ => true
  }

  /** The pass has nothing to carry out, or another one will. */
  ghost predicate CutSafe(hub: Hub, pass: nat)
    requires pass in hub.passes
  {
    var p := hub.passes[pass];
    p.cap in hub.trust.entries && hub.trust.entries[p.cap].level == p.from ==> Awaited(hub.passes - {pass}, p.cap, p.from)
  }

  ghost predicate SafeRun(configs: Configs, ops: seq<Op>)
    decreases |ops|
  {
    |ops| > 0 ==>
      SafeRun(configs, ops[..|ops| - 1]) && SafeStep(configs, Run(configs, ops[..|ops| - 1]), ops[|ops| - 1])
  }

  lemma LoadedGood(configs: Configs, hub: Hub, registry: seq<Cap>, now: int)
    requires Accurate(hub) && hub.passes == map[]
    ensures var t := Loaded(hub, registry, now);
      Good(Zeros(t.entries), map[], t) && (!hub.present ==> Covers(t.entries, registry) && t.events == [])
  {
    if !hub.present {
      var t := Loaded(hub, registry, now);
      assert forall i :: 0 <= i < |registry| ==> registry[i] in registry;
      assert Announced(map[], t.entries) == Zeros(t.entries);
    }
  }

  lemma CoversAll(registry: seq<Cap>, entries: Entries)
    ensures Covers(entries, registry) <==> FirstUnknown(registry, entries) == |registry|
  {
  }

  lemma FullReconcileBounded(before: Entries, after: Entries, registry: seq<Cap>)
    requires ReconciledUpTo(before, after, registry, |registry|)
    ensures Covers(after, registry) && Bounded(after, registry)
  {
  }

  /** A reconciliation that stops at an unknown capability keeps the bound of the previous
      configuration exactly when it raised nothing above it. */
  lemma PartialReconcile(before: Entries, after: Entries, next: seq<Cap>, k: nat, previous: seq<Cap>)
    requires k <= |next| && ReconciledUpTo(before, after, next, k)
    requires Covers(before, previous) && Bounded(before, previous)
    ensures Bounded(after, previous) <==> NoHigher(next, k, previous)
  {
    if NoHigher(next, k, previous) {
      forall j | 0 <= j < |previous| ensures after[previous[j].id].level <= previous[j].desired {
        var id := previous[j].id;
        if Registered(next[..k], id) {
          var i :| 0 <= i < k && next[..k][i].id == id;
          assert next[i].id == id;
        }
      }
    } else {
      var i, j :| 0 <= i < k && 0 <= j < |previous| && next[i].id == previous[j].id && next[i].desired > previous[j].desired;
      assert after[previous[j].id].level > previous[j].desired;
    }
  }

  lemma {:induction false} AffectedRegistered(registry: seq<Cap>, entries: Entries)
    requires Covers(entries, registry)
    ensures forall i :: 0 <= i < |Affected(registry)| ==> Affected(registry)[i] in entries
    decreases |registry|
  {
    if |registry| > 0 {
      var rest := registry[1..];
      assert forall i :: 0 <= i < |rest| ==> rest[i] == registry[i + 1];
      AffectedRegistered(rest, entries);
    }
  }

  lemma ModelCheckedGood(start: Levels, hub: Hub, t: Trust, registry: seq<Cap>, model: Option<Model>, source: string, now: int)
    requires Good(start, map[], t) && Covers(t.entries, registry)
    ensures var (s, ok) := ModelChecked(hub, t, registry, model, source, now);
      ok && Good(start, map[], s) && NoneRaised(t.entries, s.entries)
  {
    hide Good, Covers;
    AffectedRegistered(registry, t.entries);
    ModelChangeGood(start, map[], t, Affected(registry), Some(source), now);
  }

  /** A startup succeeds exactly when the configuration is accepted and known throughout; it then
      bounds every level by the configuration. A failed one leaves the stored hash vouching for
      the levels exactly when the configuration was safe. */
  lemma StartHubKeeps(configs: Configs, hub: Hub, hash: string, accepted: bool, model: Option<Model>, source: string, now: int)
    requires Inv(configs, hub) && hub.passes == map[]
    ensures var after := StartHub(hub, configs(hash), hash, accepted, model, source, now);
      && Accurate(after)
      && (after.up <==> accepted && ValidCaps(configs(hash)) && (hub.present ==> Covers(hub.trust.entries, configs(hash))))
      && (after.up ==> Inv(configs, after))
      && (accepted && ValidCaps(configs(hash)) ==> (Inv(configs, after) <==> SafeConfig(configs, hub, hash)))
      && (!(accepted && ValidCaps(configs(hash))) ==> Inv(configs, after))
  {
    hide Good, Loaded, ModelChecked, Reconcile, FirstUnknown, NoHigher, Bounded, Covers, ReconciledUpTo;
    var registry := configs(hash);
    if accepted && ValidCaps(registry) {
      LoadedGood(configs, hub, registry, now);
      var t := Loaded(hub, registry, now);
      assert hub.present ==> t == hub.trust by { LoadedPresent(hub, registry, now); }
      var start := Zeros(t.entries);
      CoversAll(registry, t.entries);
      ReconcileGood(start, t, registry, now);
      var (t1, ok1) := Reconciled(hub, registry, hash, now);
      assert ok1 <==> Covers(t.entries, registry);
      SameZeros(t.entries, t1.entries, registry);
      if ok1 {
        if hub.hash != Some(hash) {
          FullReconcileBounded(t.entries, t1.entries, registry);
        }
        ModelCheckedGood(start, hub, t1, registry, model, source, now);
        var t2 := ModelChecked(hub, t1, registry, model, source, now).0;
        NoneRaisedBounded(t1.entries, t2.entries, registry);
        SameZeros(t1.entries, t2.entries, registry);
      } else if hub.hash.Some? {
        var k := FirstUnknown(registry, t.entries);
        PartialReconcile(t.entries, t1.entries, registry, k, configs(hub.hash.value));
        SameZeros(t.entries, t1.entries, configs(hub.hash.value));
      }
    }
  }

  lemma LoadedPresent(hub: Hub, registry: seq<Cap>, now: int)
    ensures hub.present ==> Loaded(hub, registry, now) == hub.trust
  {
  }

  lemma SameZeros(a: Entries, b: Entries, registry: seq<Cap>)
    ensures a.Keys == b.Keys ==> Zeros(a) == Zeros(b) && (Covers(a, registry) <==> Covers(b, registry))
  {
    if a.Keys == b.Keys {
      assert Zeros(a) == Zeros(b);
    }
  }

  /** Nothing a handler does raises a level; a model change alone may take one from -1 to 0. */
  lemma WorkLowers(start: Levels, passes: Passes, t: Trust, registry: seq<Cap>, op: Op)
    requires Good(start, passes, t)
    ensures Good(start, passes, Work(t, registry, op))
    ensures NoneRaised(t.entries, Work(t, registry, op).entries)
    ensures !op.ChangeModel? ==> NeverRaised(t.entries, Work(t, registry, op).entries)
  {
    hide StripFailure, JobFailure, OverrideDemotion, ModelChange, ApprovalDecay, Good;
    match op
    case RecordOutcome(id, outcome) =>
      if id in t.entries {
        SameLevelsGood(start, passes, t, id, Work(t, registry, op).entries[id]);
      }
    case FailStrip(source, now) => StripLowers(start, passes, t, registry, source, now);
    case FailJob(id, failure, now) => FailureLowers(start, passes, t, registry, id, failure, now);
    case Overridden(c, id, prior, source, now) => HandlersLower(start, passes, t, registry, id, Failure(now, source), c, prior, source, now);
    case ChangeModel(ids, source, now) => ModelChangeGood(start, passes, t, ids, source, now);
    case CheckApproval(id, now) => HandlersLower(start, passes, t, registry, id, Failure(now, ""), false, None, "", now);
    case _ =>
  }

  // ---------------------------------------------------------------- waiting decay passes

  /** Announcing a decay changes no level, and the table with the announced decays carried out
      follows. */
  lemma AnnounceKeeps(start: Levels, hub: Hub, pass: nat, cfg: Config, id: string, now: int)
    requires Good(start, hub.passes, hub.trust)
    ensures var after := Announce(hub, pass, cfg, id, now);
      Good(start, after.passes, after.trust) && after.trust.entries == hub.trust.entries
  {
    var after := Announce(hub, pass, cfg, id, now);
    if after != hub {
      var level := hub.trust.entries[id].level;
      DecayLevel(cfg, now, id, hub.trust.entries[id]);
      ReplayOne(start, hub.trust.events, Demoted(id, level, level - 1, "temporal_decay"));
      AwaitedMore(hub.passes, pass, Pending(id, level));
      assert Announced(after.passes, hub.trust.entries) == Announced(hub.passes, hub.trust.entries)[id := level - 1];
    }
  }

  lemma AwaitedMore(passes: Passes, pass: nat, p: Pending)
    requires pass !in passes
    ensures forall id, level :: Awaited(passes[pass := p], id, level) <==> Awaited(passes, id, level) || Pending(id, level) == p
  {
    var more := passes[pass := p];
    forall id, level ensures Awaited(more, id, level) <==> Awaited(passes, id, level) || Pending(id, level) == p {
      if q :| q in passes && passes[q] == Pending(id, level) {
        assert more[q] == Pending(id, level);
      }
      assert more[pass] == p;
    }
  }

  lemma AwaitedLess(passes: Passes, pass: nat)
    requires pass in passes
    ensures forall id, level :: Awaited(passes, id, level) <==>
      Awaited(passes - {pass}, id, level) || Pending(id, level) == passes[pass]
  {
    assert passes == (passes - {pass})[pass := passes[pass]];
    AwaitedMore(passes - {pass}, pass, passes[pass]);
  }

  /** A resumption that finds the level at most one below the one read: the replay agrees. */
  lemma ResumeKeeps(start: Levels, hub: Hub, pass: nat, now: int)
    requires Good(start, hub.passes, hub.trust) && SafeResume(hub, pass)
    ensures var after := Resume(hub, pass, now);
      Good(start, after.passes, after.trust) && NeverRaised(hub.trust.entries, after.trust.entries)
  {
    var after := Resume(hub, pass, now);
    if pass in hub.passes {
      AwaitedLess(hub.passes, pass);
      assert Announced(after.passes, after.trust.entries) == Announced(hub.passes, hub.trust.entries);
    }
  }

  /** Resuming never raises a level exactly when it finds the level at most one below the one that it
      read; when no other pass waits for the capability, the replay agrees in exactly that case
      too. */
  lemma ResumeExactly(start: Levels, hub: Hub, pass: nat, now: int)
    requires Good(start, hub.passes, hub.trust) && pass in hub.passes
    ensures var after := Resume(hub, pass, now);
      && (NeverRaised(hub.trust.entries, after.trust.entries) <==> SafeResume(hub, pass))
      && (SafeResume(hub, pass) ==> Good(start, after.passes, after.trust))
      && ((forall q :: q in hub.passes && q != pass ==> hub.passes[q].cap != hub.passes[pass].cap) ==>
            (Good(start, after.passes, after.trust) <==> SafeResume(hub, pass)))
  {
    var after := Resume(hub, pass, now);
    var (id, from) := (hub.passes[pass].cap, hub.passes[pass].from);
    if SafeResume(hub, pass) {
      ResumeKeeps(start, hub, pass, now);
    } else {
      assert after.trust.entries[id].level == from - 1 > hub.trust.entries[id].level;
      if forall q :: q in hub.passes && q != pass ==> hub.passes[q].cap != id {
        assert !Awaited(hub.passes, id, hub.trust.entries[id].level);
        assert !Awaited(after.passes, id, from - 1);
        assert Announced(hub.passes, hub.trust.entries)[id] == hub.trust.entries[id].level;
        assert id in Announced(after.passes, after.trust.entries);
        assert Announced(after.passes, after.trust.entries)[id] == from - 1;
      }
    }
  }

  /** Cutting off a waiting pass keeps the replay exact unless its decay is lost. */
  lemma CutExactly(start: Levels, hub: Hub, pass: nat)
    requires Good(start, hub.passes, hub.trust) && pass in hub.passes
    ensures Good(start, hub.passes - {pass}, hub.trust) <==> CutSafe(hub, pass)
  {
    var fewer, entries := hub.passes - {pass}, hub.trust.entries;
    var p := hub.passes[pass];
    AwaitedLess(hub.passes, pass);
    if CutSafe(hub, pass) {
      assert Announced(fewer, entries) == Announced(hub.passes, entries);
    } else {
      assert Announced(fewer, entries)[p.cap] == p.from && Announced(hub.passes, entries)[p.cap] == p.from - 1;
    }
  }

  /** The end of the process keeps the invariant exactly when no announced decay is lost. */
  lemma EndExactly(configs: Configs, hub: Hub)
    requires Inv(configs, hub)
    ensures Inv(configs, Ended(hub)) <==> NoneAwaited(hub.passes, hub.trust.entries)
  {
    hide Bounded, Covers, ValidCaps;
    var entries := hub.trust.entries;
    if NoneAwaited(hub.passes, entries) {
      assert Announced(map[], entries) == Announced(hub.passes, entries);
    } else {
      var id :| id in entries && Awaited(hub.passes, id, entries[id].level);
      assert Announced(map[], entries)[id] == entries[id].level;
      assert Announced(hub.passes, entries)[id] == entries[id].level - 1;
    }
  }

  // ---------------------------------------------------------------- all steps

  /** What a running hub does in one step that is safe. */
  lemma RunningKeeps(configs: Configs, hub: Hub, op: Op)
    requires Inv(configs, hub) && hub.up && SafeStep(configs, hub, op) && !op.Startup? && !op.Stop?
    ensures var after := Step(configs, hub, op);
      && Good(Zeros(hub.trust.entries), after.passes, after.trust) && NoneRaised(hub.trust.entries, after.trust.entries)
      && (!op.ChangeModel? ==> NeverRaised(hub.trust.entries, after.trust.entries))
      && after == hub.(trust := after.trust, passes := after.passes)
  {
    hide Good, Work, Announce, Resume, DecayPass, Lists, SafeResume, CutSafe, Vouched;
    var start := Zeros(hub.trust.entries);
    match op
    case AnnounceDecay(pass, cfg, id, now) =>
      AnnounceKeeps(start, hub, pass, cfg, id, now);
      OnlyPasses(hub, pass, cfg, id, now);
    case ResumeDecay(pass, now) =>
      ResumeKeeps(start, hub, pass, now);
      OnlyPasses(hub, pass, Config(map[], map[], false), "", now);
    case CutDecay(pass) =>
      if pass in hub.passes {
        CutExactly(start, hub, pass);
      } else {
        assert hub.passes - {pass} == hub.passes;
      }
    case EvaluateDecay(cfg, order, now) =>
      if hub.passes == map[] && Lists(order, hub.trust.entries) {
        DecayPassGood(start, cfg, hub.trust, order, now);
      }
    case _ => WorkLowers(start, hub.passes, hub.trust, hub.registry, op);
  }

  lemma OnlyPasses(hub: Hub, pass: nat, cfg: Config, id: string, now: int)
    ensures var after := Announce(hub, pass, cfg, id, now); after == hub.(trust := after.trust, passes := after.passes)
    ensures var after := Resume(hub, pass, now); after == hub.(trust := after.trust, passes := after.passes)
  {
    hide Decays;
  }

  lemma StepKeeps(configs: Configs, hub: Hub, op: Op)
    requires Inv(configs, hub) && SafeStep(configs, hub, op)
    ensures Inv(configs, Step(configs, hub, op))
  {
    hide Good, StartHub, Bounded, Covers, SafeConfig, ValidCaps, NoneAwaited, SafeResume, CutSafe;
    match op
    case Startup(hash, accepted, model, source, now) =>
      EndExactly(configs, hub);
      StartHubKeeps(configs, Ended(hub), hash, accepted, model, source, now);
      SafeEnded(configs, hub, hash);
    case Stop => EndExactly(configs, hub);
    case _ =>
      if hub.up {
        RunningKeeps(configs, hub, op);
        var after := Step(configs, hub, op).trust;
        NoneRaisedBounded(hub.trust.entries, after.entries, hub.registry);
        SameZeros(hub.trust.entries, after.entries, hub.registry);
        hide Step;
      }
  }

  lemma SafeEnded(configs: Configs, hub: Hub, hash: string)
    ensures SafeConfig(configs, Ended(hub), hash) <==> SafeConfig(configs, hub, hash)
  {
    hide NoHigher;
  }

  lemma {:induction false} RunKeeps(configs: Configs, ops: seq<Op>)
    requires SafeRun(configs, ops)
    ensures Inv(configs, Run(configs, ops))
    decreases |ops|
  {
    if |ops| > 0 {
      RunKeeps(configs, ops[..|ops| - 1]);
      StepKeeps(configs, Run(configs, ops[..|ops| - 1]), ops[|ops| - 1]);
    } else {
      assert Announced(map[], map[]) == Zeros(map[]) == map[];
    }
  }

  /** No self-promotion. In every safe run, while the hub is up, every configured capability has a
      level between -1 and its desired level and is suspended exactly at -1, and the emitted events
      replayed from level 0 give the level table with the announced decays carried out: the table
      itself when no decay pass is waiting. */
  lemma NoSelfPromotion(configs: Configs, ops: seq<Op>)
    requires SafeRun(configs, ops) && Run(configs, ops).up
    ensures var hub := Run(configs, ops);
      && (forall i :: 0 <= i < |hub.registry| ==>
        var c := hub.registry[i];
        && c.id in hub.trust.entries
        && var e := hub.trust.entries[c.id];
          -1 <= e.level <= c.desired <= c.maxWal && (e.suspended <==> e.level == -1))
      && Replay(Zeros(hub.trust.entries), hub.trust.events) == Announced(hub.passes, hub.trust.entries)
      && (hub.passes == map[] ==> Replay(Zeros(hub.trust.entries), hub.trust.events) == LevelsOf(hub.trust.entries))
  {
    hide SafeRun, Run;
    RunKeeps(configs, ops);
    var hub := Run(configs, ops);
    NothingAnnounced(hub.trust.entries);
    forall i | 0 <= i < |hub.registry|
      ensures var c := hub.registry[i];
        && c.id in hub.trust.entries
        && Sound(hub.trust.entries[c.id]) && hub.trust.entries[c.id].level <= c.desired <= c.maxWal
    {
      assert hub.registry[i].id in hub.trust.entries;
    }
  }

  lemma StartupRaises(configs: Configs, hub: Hub, op: Op, id: string)
    requires Inv(configs, hub) && hub.passes == map[] && op.Startup? && id in hub.trust.entries
    ensures var after := StartHub(hub, configs(op.hash), op.hash, op.accepted, op.model, op.source, op.now).trust.entries;
      && id in after
      && (after[id].level > hub.trust.entries[id].level && (hub.trust.entries[id].level >= 0 || after[id].level > 0) ==>
        op.accepted && hub.hash != Some(op.hash) && Desires(configs(op.hash), id, after[id].level))
  {
    hide Good, ModelChecked, Reconcile, FirstUnknown, Covers, Bounded;
    var registry := configs(op.hash);
    if op.accepted && ValidCaps(registry) && hub.present {
      var t := hub.trust;
      ReconcileGood(Zeros(t.entries), t, registry, op.now);
      var (t1, ok1) := Reconciled(hub, registry, op.hash, op.now);
      CoversAll(registry, t.entries);
      SameZeros(t.entries, t1.entries, registry);
      if hub.hash != Some(op.hash) {
        ReconciledLevels(t.entries, t1.entries, registry, FirstUnknown(registry, t.entries), id);
      }
      if ok1 {
        ModelCheckedGood(Zeros(t.entries), hub, t1, registry, op.model, op.source, op.now);
      }
    }
  }

  /** Some configuration entry of `id` asks for at least `level`. */
  ghost predicate Desires(registry: seq<Cap>, id: string, level: int) {
    exists i :: 0 <= i < |registry| && registry[i].id == id && level <= registry[i].desired
  }

  lemma ReconciledLevels(before: Entries, after: Entries, registry: seq<Cap>, k: nat, id: string)
    requires k <= |registry| && ReconciledUpTo(before, after, registry, k) && id in before
    ensures after[id] == before[id] || Desires(registry, id, after[id].level)
  {
    if Registered(registry[..k], id) {
      var i :| 0 <= i < k && registry[..k][i].id == id;
      assert registry[i].id == id;
    }
  }

  /** A level goes up only at a startup, under a configuration other than the stored one and only as
      far as that configuration asks; from -1 to 0 also by a model change; and when a decay pass
      resumes to find its capability demoted further than it would itself. */
  lemma OnlyConfigurationRaises(configs: Configs, hub: Hub, op: Op, id: string)
    requires Inv(configs, hub) && id in hub.trust.entries
    requires op.Startup? ==> NoneAwaited(hub.passes, hub.trust.entries)
    ensures var before, after := hub.trust.entries, Step(configs, hub, op).trust.entries;
      && id in after
      && (after[id].level > before[id].level && (before[id].level >= 0 || after[id].level > 0) ==>
            || (op.Startup? && op.accepted && hub.hash != Some(op.hash) && Desires(configs(op.hash), id, after[id].level))
            || (op.ResumeDecay? && op.pass in hub.passes && hub.passes[op.pass].cap == id && !SafeResume(hub, op.pass)))
  {
    hide Good, StartHub, Desires, SafeConfig, ValidCaps;
    if op.Startup? {
      EndExactly(configs, hub);
      StartupRaises(configs, Ended(hub), op, id);
    } else if hub.up && op.ResumeDecay? {
      ResumedLevels(hub, op.pass, op.now, id);
    } else if hub.up && op.CutDecay? {
    } else if hub.up && !op.Stop? {
      RunningKeeps(configs, hub, op);
    }
  }

  lemma ResumedLevels(hub: Hub, pass: nat, now: int, id: string)
    requires id in hub.trust.entries
    ensures var before, after := hub.trust.entries, Resume(hub, pass, now).trust.entries;
      && id in after
      && (after[id].level > before[id].level ==> pass in hub.passes && hub.passes[pass].cap == id && !SafeResume(hub, pass))
  {
  }

  // ---------------------------------------------------------------- why configurations must be safe

  function Rollout(hash: string): seq<Cap> {
    if hash == "new" then [Cap("triage", 3, 3), Cap("draft", 1, 1)] else [Cap("triage", 1, 3)]
  }

  /** Hub after the first startup, and after the failed one: only the level differs. */
  function RolloutHub(level: int, events: seq<WalEvent>, up: bool): Hub {
    Hub(Trust(map["triage" := Initial(0).(level := level)], events), true, Some("stored"), None, [Cap("triage", 1, 3)], up, map[])
  }

  lemma FirstStartup()
    ensures StartHub(NEW_HUB, Rollout("stored"), "stored", true, None, "s", 0)
      == RolloutHub(1, [Promoted("triage", 0, 1)], true)
  {
    var stored := [Cap("triage", 1, 3)];
    assert stored[0] in stored && stored[1..] == [];
    var t := Loaded(NEW_HUB, stored, 0);
    assert t == Trust(map["triage" := Initial(0)], []);
    assert Reconcile(t, stored, 0) == (ReconcileOne(t, stored[0], 0), true);
  }

  lemma FailedStartup()
    ensures var events := [Promoted("triage", 0, 1)];
      StartHub(RolloutHub(1, events, false), Rollout("new"), "new", true, None, "s", 1)
      == RolloutHub(3, events + [Promoted("triage", 1, 3)], false)
  {
    var next := [Cap("triage", 3, 3), Cap("draft", 1, 1)];
    assert next[1..] == [next[1]];
    var t := RolloutHub(1, [Promoted("triage", 0, 1)], true).trust;
    assert Reconcile(t, next, 1) == (ReconcileOne(t, next[0], 1), false);
  }

  /** A configuration that raises one capability and adds another fails after the raise; going back
      to the stored configuration then starts the hub with a level above the desired one. */
  lemma RolledBackConfigurationKeepsLevel()
    ensures var ops := [Startup("stored", true, None, "s", 0), Startup("new", true, None, "s", 1), Startup("stored", true, None, "s", 2)];
      var hub := Run(Rollout, ops);
      && hub.up && hub.registry == [Cap("triage", 1, 3)]
      && "triage" in hub.trust.entries && hub.trust.entries["triage"].level == 3
  {
    hide Reconcile, Loaded;
    var a, b, c := Startup("stored", true, None, "s", 0), Startup("new", true, None, "s", 1), Startup("stored", true, None, "s", 2);
    assert [a, b, c][..2] == [a, b] && [a, b][..1] == [a] && [a][..0] == [];
    FirstStartup();
    FailedStartup();
    assert Run(Rollout, []) == NEW_HUB;
    assert Run(Rollout, [a]) == RolloutHub(1, [Promoted("triage", 0, 1)], true);
    assert Run(Rollout, [a, b]) == RolloutHub(3, [Promoted("triage", 0, 1), Promoted("triage", 1, 3)], false);
    assert Run(Rollout, [a, b, c]) == Step(Rollout, Run(Rollout, [a, b]), c);
    LoadedPresent(Run(Rollout, [a, b]), Rollout("stored"), 2);
  }

  // ---------------------------------------------------------------- why resumptions must be safe

  function OnePackage(hash: string): seq<Cap> {
    [Cap(CONTEXT_PACKAGE, 3, 3)]
  }

  function PackageHub(e: Entry, events: seq<WalEvent>, passes: Passes): Hub {
    Hub(Trust(map[CONTEXT_PACKAGE := e], events), true, Some("stored"), None, [Cap(CONTEXT_PACKAGE, 3, 3)], true, passes)
  }

  lemma PackageStartup()
    ensures StartHub(NEW_HUB, OnePackage("stored"), "stored", true, None, "s", 0)
      == PackageHub(Initial(0).(level := 3), [Promoted(CONTEXT_PACKAGE, 0, 3)], map[])
  {
    var stored := OnePackage("stored");
    assert stored[0] in stored && stored[1..] == [];
    var t := Loaded(NEW_HUB, stored, 0);
    assert t == Trust(map[CONTEXT_PACKAGE := Initial(0)], []);
    assert Reconcile(t, stored, 0) == (ReconcileOne(t, stored[0], 0), true);
  }

  lemma RunOne(configs: Configs, ops: seq<Op>, op: Op)
    ensures Run(configs, ops + [op]) == Step(configs, Run(configs, ops), op)
  {
    hide Step;
    assert (ops + [op])[..|ops|] == ops;
  }

  const PASSING_3 := Config(map[3 := Policy(1, 1)], map[], true)

  /** The run up to the suspension. */
  function Interrupted(): seq<Op> {
    [Startup("stored", true, None, "s", 0), AnnounceDecay(0, PASSING_3, CONTEXT_PACKAGE, 1), FailStrip("strip", 2)]
  }

  lemma InterruptedHub()
    ensures var p := CONTEXT_PACKAGE;
      Run(OnePackage, Interrupted()) == PackageHub(
        Initial(0).(level := -1, suspended := true, lastReset := 2, incident := Some("strip")),
        [Promoted(p, 0, 3), Demoted(p, 3, 2, "temporal_decay")] + [Demoted(p, 3, -1, "strip_failure")],
        map[0 := Pending(p, 3)])
  {
    hide StartHub, Announce, Work, Run;
    var p, ops := CONTEXT_PACKAGE, Interrupted();
    var e0, v0 := Initial(0).(level := 3), Promoted(p, 0, 3);
    assert ops == (([] + [ops[0]]) + [ops[1]]) + [ops[2]];
    RunOne(OnePackage, [], ops[0]);
    RunOne(OnePackage, [] + [ops[0]], ops[1]);
    RunOne(OnePackage, ([] + [ops[0]]) + [ops[1]], ops[2]);
    NoRun();
    PackageStartup();
    PackageAnnounce(PASSING_3, e0, v0);
    PackageStrip(e0, Initial(0).(level := -1, suspended := true, lastReset := 2, incident := Some("strip")),
                 [v0, Demoted(p, 3, 2, "temporal_decay")], map[0 := Pending(p, 3)], Demoted(p, 3, -1, "strip_failure"));
  }

  lemma NoRun()
    ensures Run(OnePackage, []) == NEW_HUB
  {
  }

  /** A decay of `context.package` from level 3 waits for its emit while a failed strip suspends the
      capability; resuming, it puts the capability back to level 2 and active, without any
      configuration, while the replay still says -1. */
  lemma InterruptedDecayRaises()
    ensures var suspended, hub := Run(OnePackage, Interrupted()), Run(OnePackage, Interrupted() + [ResumeDecay(0, 3)]);
      && CONTEXT_PACKAGE in suspended.trust.entries && suspended.trust.entries[CONTEXT_PACKAGE].suspended
      && CONTEXT_PACKAGE in hub.trust.entries
      && hub.trust.entries[CONTEXT_PACKAGE].level == 2 && !hub.trust.entries[CONTEXT_PACKAGE].suspended
      && hub.passes == map[]
      && Replay(Zeros(hub.trust.entries), hub.trust.events) == map[CONTEXT_PACKAGE := -1]
  {
    hide Run, Resume, Replay;
    var p := CONTEXT_PACKAGE;
    InterruptedHub();
    RunOne(OnePackage, Interrupted(), ResumeDecay(0, 3));
    var v0, v1, v2 := Promoted(p, 0, 3), Demoted(p, 3, 2, "temporal_decay"), Demoted(p, 3, -1, "strip_failure");
    var e2 := Initial(0).(level := -1, suspended := true, lastReset := 2, incident := Some("strip"));
    PackageResume(e2, [v0, v1] + [v2]);
    ReplayPackage(v0, v1, v2, Run(OnePackage, Interrupted() + [ResumeDecay(0, 3)]).trust.entries);
  }

  lemma PackageAnnounce(cfg: Config, e0: Entry, v0: WalEvent)
    requires cfg == Config(map[3 := Policy(1, 1)], map[], true) && e0 == Initial(0).(level := 3)
    ensures var p := CONTEXT_PACKAGE;
      Announce(PackageHub(e0, [v0], map[]), 0, cfg, p, 1)
      == PackageHub(e0, [v0, Demoted(p, 3, 2, "temporal_decay")], map[0 := Pending(p, 3)])
  {
    assert CountInWindow([], 1 - DAY) == 0;
    assert Decays(cfg, 1, CONTEXT_PACKAGE, e0);
  }

  lemma PackageStrip(e0: Entry, e2: Entry, events: seq<WalEvent>, passes: Passes, v2: WalEvent)
    requires e0 == Initial(0).(level := 3) && v2 == Demoted(CONTEXT_PACKAGE, 3, -1, "strip_failure")
    requires e2 == e0.(level := -1, suspended := true, lastReset := 2, incident := Some("strip"))
    ensures var hub := PackageHub(e0, events, passes);
      hub.(trust := Work(hub.trust, hub.registry, FailStrip("strip", 2))) == PackageHub(e2, events + [v2], passes)
  {
    var hub := PackageHub(e0, events, passes);
    assert hub.registry[0].id == CONTEXT_PACKAGE;
    assert Registered(hub.registry, CONTEXT_PACKAGE);
    assert hub.trust.entries[CONTEXT_PACKAGE := e2] == map[CONTEXT_PACKAGE := e2];
  }

  lemma PackageResume(e2: Entry, events: seq<WalEvent>)
    requires e2.outcomes == [] && e2.failures == [] && e2.firstJob == None
    ensures Resume(PackageHub(e2, events, map[0 := Pending(CONTEXT_PACKAGE, 3)]), 0, 3)
      == PackageHub(e2.(level := 2, suspended := false, lastReset := 3), events, map[])
  {
    var m: Passes := map[0 := Pending(CONTEXT_PACKAGE, 3)];
    assert m - {0} == map[];
    var entries := map[CONTEXT_PACKAGE := e2];
    var e3 := e2.(level := 2, suspended := false, lastReset := 3);
    assert entries[CONTEXT_PACKAGE := e3] == map[CONTEXT_PACKAGE := e3];
  }

  lemma ReplayPackage(v0: WalEvent, v1: WalEvent, v2: WalEvent, entries: Entries)
    requires v0.cap == v1.cap == v2.cap == CONTEXT_PACKAGE && v2.to == -1 && entries.Keys == {CONTEXT_PACKAGE}
    ensures Replay(Zeros(entries), [v0, v1] + [v2]) == map[CONTEXT_PACKAGE := -1]
  {
    var z := Zeros(entries);
    ReplayOne(z, [v0, v1], v2);
    assert [v0, v1] == [v0] + [v1] && [v0] == [] + [v0];
    ReplayOne(z, [v0], v1);
    ReplayOne(z, [], v0);
  }
}
