/** What a startup leaves behind, and what each step of a running hub does to a capability
    (orchestrator/startup.py, orchestrator/demotion_engine.py, orchestrator/decay_evaluator.py). */
module HubMeaning {
  import opened Bytes
  import opened CapabilityState
  import opened DecayPolicy
  import opened TemporalDecay
  import opened TrustLevels
  import opened TrustMeaning
  import opened TrustRuns

  /** The configured capabilities a model change affects are those whose id has no leading underscore. */
  lemma {:induction false} AffectedMeaning(registry: seq<Cap>, id: string)
    ensures id in Affected(registry) <==> Configured(registry, id) && !(|id| > 0 && id[0] == '_')
    decreases |registry|
  {
    if |registry| > 0 {
      AffectedMeaning(registry[1..], id);
      ConfiguredRest(registry, id);
      assert "_" <= registry[0].id <==> |registry[0].id| > 0 && registry[0].id[0] == '_';
    }
  }

  ghost predicate Configured(registry: seq<Cap>, id: string) {
    exists i :: 0 <= i < |registry| && registry[i].id == id
  }

  lemma ConfiguredRest(registry: seq<Cap>, id: string)
    requires |registry| > 0
    ensures Configured(registry, id) <==> registry[0].id == id || Configured(registry[1..], id)
  {
    assert forall i :: 0 < i < |registry| ==> registry[i] == registry[1..][i - 1];
    assert forall i :: 0 <= i < |registry| - 1 ==> registry[1..][i] == registry[i + 1];
  }

  ghost predicate Distinct(registry: seq<Cap>) {
    forall i, j :: 0 <= i < j < |registry| ==> registry[i].id != registry[j].id
  }

  /** A reconciliation that completes leaves every configured capability standing at its desired level,
      and no other changed. */
  ghost predicate Reached(before: Entries, after: Entries, registry: seq<Cap>) {
    && after.Keys == before.Keys
    && (forall i :: 0 <= i < |registry| ==> registry[i].id in after && Standing(after[registry[i].id]) == registry[i].desired)
    && (forall id :: id in before && !Configured(registry, id) ==> after[id] == before[id])
  }

  lemma {:induction false} ReconcileReaches(t: Trust, registry: seq<Cap>, now: int)
    requires Distinct(registry) && Reconcile(t, registry, now).1
    ensures Reached(t.entries, Reconcile(t, registry, now).0.entries, registry)
    decreases |registry|
  {
    if |registry| > 0 {
      var rest := registry[1..];
      var t1 := ReconcileOne(t, registry[0], now);
      assert forall i :: 0 <= i < |rest| ==> rest[i] == registry[i + 1];
      ReconcileReaches(t1, rest, now);
      ReconcileMeaning(t, registry[0], now);
      assert t1.entries == t.entries[registry[0].id := t1.entries[registry[0].id]];
      assert Standing(t1.entries[registry[0].id]) == registry[0].desired;
      hide ReconcileOne, Reconcile, Standing;
      ReachedOneMore(t.entries, t1.entries, Reconcile(t1, rest, now).0.entries, registry);
    }
  }

  lemma ReachedOneMore(before: Entries, middle: Entries, after: Entries, registry: seq<Cap>)
    requires |registry| > 0 && Distinct(registry) && registry[0].id in before && registry[0].id in middle
    requires middle == before[registry[0].id := middle[registry[0].id]]
    requires Standing(middle[registry[0].id]) == registry[0].desired
    requires Reached(middle, after, registry[1..])
    ensures Reached(before, after, registry)
  {
    hide Standing;
    var rest := registry[1..];
    assert forall i :: 0 < i < |registry| ==> registry[i] == rest[i - 1];
    assert !Configured(rest, registry[0].id) by {
      assert forall i :: 0 <= i < |rest| ==> rest[i] == registry[i + 1];
    }
    forall id | id in before && !Configured(registry, id) ensures after[id] == before[id] {
      ConfiguredRest(registry, id);
    }
    assert after[registry[0].id] == middle[registry[0].id];
  }

  /** Everything a model change affects stands at 0, and the rest is as before. */
  ghost predicate Zero(before: Entries, after: Entries, registry: seq<Cap>) {
    && after.Keys == before.Keys
    && forall id :: id in before ==>
         if Configured(registry, id) && !(|id| > 0 && id[0] == '_') then Standing(after[id]) == 0 else after[id] == before[id]
  }

  lemma ModelChangeZeroes(t: Trust, registry: seq<Cap>, source: string, now: int)
    requires ModelChange(t, Affected(registry), Some(source), now).1
    ensures Zero(t.entries, ModelChange(t, Affected(registry), Some(source), now).0.entries, registry)
  {
    var ids := Affected(registry);
    ModelChangeMeaning(t, ids, Some(source), now);
    assert ids[..|ids|] == ids;
    hide ModelChange, Affected, Configured;
    var after := ModelChange(t, ids, Some(source), now).0.entries;
    forall id | id in t.entries
      ensures if Configured(registry, id) && !(|id| > 0 && id[0] == '_') then Standing(after[id]) == 0 else after[id] == t.entries[id]
    {
      AffectedMeaning(registry, id);
      assert Zeroed(t.entries[id], after[id], id in ids, Some(source), now);
    }
  }

  /** What a startup that comes up leaves: the configuration's hash, its capabilities and the model
      are stored; under another hash every configured capability stands at its desired level, under
      the same hash all levels are as before; and when the model is known to have changed, every
      configured capability without a leading underscore stands at 0 instead. One that does not come
      up leaves hash, model and capabilities as they were. */
  lemma StartupLeaves(hub: Hub, registry: seq<Cap>, hash: string, accepted: bool, model: Option<Model>, source: string, now: int)
    returns (levels: Entries)
    requires ValidCaps(registry)
    ensures var after := StartHub(hub, registry, hash, accepted, model, source, now);
      && (!after.up ==> after.hash == hub.hash && after.model == hub.model && after.registry == hub.registry)
      && (!accepted ==> !after.up && after.trust == hub.trust)
      && (after.up ==>
            && after.present && after.hash == Some(hash) && after.model == model && after.registry == registry
            && (if hub.hash == Some(hash) then levels == Before(hub, registry, now)
                else Reached(Before(hub, registry, now), levels, registry))
            && (if hub.model != None && model != None && hub.model != model then Zero(levels, after.trust.entries, registry)
                else after.trust.entries == levels))
  {
    hide ValidCaps, Loaded, Reconcile, ModelChange, Affected, Reached, Zero, Configured;
    levels := Reconciled(hub, registry, hash, now).0.entries;
    if StartHub(hub, registry, hash, accepted, model, source, now).up {
      LoadedEntries(hub, registry, now);
      var t := Loaded(hub, registry, now);
      var t1 := Reconciled(hub, registry, hash, now).0;
      if hub.hash != Some(hash) {
        ValidAreDistinct(registry);
        ReconcileReaches(t, registry, now);
      }
      if hub.model != None && model != None && hub.model != model {
        ModelChangeZeroes(t1, registry, source, now);
      }
    }
  }

  lemma ValidAreDistinct(registry: seq<Cap>)
    requires ValidCaps(registry)
    ensures Distinct(registry)
  {
  }

  /** The level table a startup finds, or makes: every configured capability active at level 0. */
  ghost function Before(hub: Hub, registry: seq<Cap>, now: int): Entries {
    if hub.present then hub.trust.entries
    else map cap | cap in registry :: cap.id := Entry(0, false, [], [], None, now, None)
  }

  lemma LoadedEntries(hub: Hub, registry: seq<Cap>, now: int)
    ensures Loaded(hub, registry, now).entries == Before(hub, registry, now)
  {
  }

  // ---------------------------------------------------------------- steps of a running hub

  /** The handlers take effect in a run: a strip failure suspends context.package, a third failure
      within 24 hours, a cancel or redirect and a poor score each cost a level, a model change
      sets level 0, and an outcome is appended. */
  lemma HandlersTakeEffect(configs: Configs, hub: Hub, op: Op)
    requires hub.up
    ensures var after := Step(configs, hub, op);
      match op
      case FailStrip(source, now) =>
        "context.package" in hub.trust.entries && Registered(hub.registry, "context.package") ==>
          "context.package" in after.trust.entries && Standing(after.trust.entries["context.package"]) == -1
      case FailJob(id, failure, now) =>
        id in hub.trust.entries && Registered(hub.registry, id)
        && id !in {"egress_config", "egress_connectivity", "worker_sandbox"} ==>
          && id in after.trust.entries
          && var e := hub.trust.entries[id];
             var third := |Young(e.failures + [failure], now)| >= 3 && Standing(e) > 0;
             && Standing(after.trust.entries[id]) == Standing(e) - (if third then 1 else 0)
             && (!third ==> after.trust.entries[id].failures == Recent(e.failures + [failure], now))
      case Overridden(cancelOrRedirect, id, prior, source, now) =>
        cancelOrRedirect && id in hub.trust.entries && Standing(hub.trust.entries[id]) >= 1
        && prior !in {Some("egress_config"), Some("egress_connectivity"), Some("worker_sandbox")} ==>
          id in after.trust.entries && Standing(after.trust.entries[id]) == Standing(hub.trust.entries[id]) - 1
      case CheckApproval(id, now) =>
        id in hub.trust.entries && ApprovalDecay(hub.trust, id, now).1.Demotion? ==>
          id in after.trust.entries && Standing(after.trust.entries[id]) == 2
      case RecordOutcome(id, outcome) =>
        id in hub.trust.entries ==>
          && id in after.trust.entries && |after.trust.entries[id].outcomes| > 0
          && after.trust.entries[id].outcomes[|after.trust.entries[id].outcomes| - 1] == outcome
      case _ => true
  {
    match op
    case FailStrip(source, now) =>
      StripMeaning(hub.trust, hub.registry, source, now);
      hide StripFailure;
    case FailJob(id, failure, now) =>
      FailureMeaning(hub.trust, hub.registry, id, failure, now);
      hide JobFailure, Recent, Young;
    case Overridden(cancelOrRedirect, id, prior, source, now) =>
      OverrideMeaning(hub.trust, cancelOrRedirect, id, prior, source, now);
      hide OverrideDemotion;
    case CheckApproval(id, now) =>
      ApprovalMeaning(hub.trust, id, now);
      hide ApprovalDecay, With;
    case _ =>
  }

  /** A model change in a run takes every listed capability to level 0 when all are known. */
  lemma ModelChangeTakesEffect(configs: Configs, hub: Hub, ids: seq<string>, source: Option<string>, now: int, id: string)
    requires hub.up && id in ids && forall i :: 0 <= i < |ids| ==> ids[i] in hub.trust.entries
    ensures var after := Step(configs, hub, ChangeModel(ids, source, now));
      id in after.trust.entries && Standing(after.trust.entries[id]) == 0
  {
    ModelChangeMeaning(hub.trust, ids, source, now);
    AllKnown(ids, hub.trust.entries);
    assert ids[..|ids|] == ids;
    hide ModelChange, KnownFirst;
    var after := ModelChange(hub.trust, ids, source, now).0.entries;
    assert Zeroed(hub.trust.entries[id], after[id], id in ids, source, now);
  }

  lemma {:induction false} AllKnown(ids: seq<string>, entries: Entries)
    requires forall i :: 0 <= i < |ids| ==> ids[i] in entries
    ensures KnownFirst(ids, entries) == |ids|
    decreases |ids|
  {
    if |ids| > 0 {
      AllKnown(ids[1..], entries);
    }
  }

  /** A decay pass waits after announcing exactly the capabilities that one pass would demote, tells
      the level read and the one below, and, resumed, sets the one below whatever it finds. */
  lemma DecayTakesEffect(configs: Configs, hub: Hub, pass: nat, cfg: Config, id: string, now: int)
    requires hub.up && pass !in hub.passes && id in hub.trust.entries
    ensures var after, e := Step(configs, hub, AnnounceDecay(pass, cfg, id, now)), hub.trust.entries[id];
      if Decay(cfg, now, id, e) == e then after == hub
      else
        && after.trust.entries == hub.trust.entries && after.passes == hub.passes[pass := TrustRuns.Pending(id, e.level)]
        && after.trust.events == hub.trust.events + [Demoted(id, e.level, e.level - 1, "temporal_decay")]
  {
  }

  lemma ResumeTakesEffect(configs: Configs, hub: Hub, pass: nat, now: int)
    requires hub.up && pass in hub.passes && hub.passes[pass].cap in hub.trust.entries
    ensures var after, id := Step(configs, hub, ResumeDecay(pass, now)), hub.passes[pass].cap;
      var e, to := hub.trust.entries[id], hub.passes[pass].from - 1;
      && after.trust.entries == hub.trust.entries[id := Entry(to, to == -1, [], [], None, now, e.incident)]
      && after.trust.events == hub.trust.events && after.passes == hub.passes - {pass}
    ensures Step(configs, hub, CutDecay(pass)) == hub.(passes := hub.passes - {pass})
  {
  }

  /** A pass of `evaluate_startup` in a run does to every capability what one pass does, and tells of each
      level lost by one event. */
  lemma EvaluateTakesEffect(configs: Configs, hub: Hub, cfg: Config, order: seq<string>, now: int)
    requires hub.up && hub.passes == map[] && Lists(order, hub.trust.entries)
    ensures var after := Step(configs, hub, EvaluateDecay(cfg, order, now));
      && after.trust.entries.Keys == hub.trust.entries.Keys
      && (forall id :: id in hub.trust.entries ==> after.trust.entries[id] == Decay(cfg, now, id, hub.trust.entries[id]))
      && hub.trust.events <= after.trust.events
      && |after.trust.events| - |hub.trust.events| == Height(hub.trust.entries, order) - Height(after.trust.entries, order)
      && forall k :: |hub.trust.events| <= k < |after.trust.events| ==>
           var e := after.trust.events[k];
           e.Demoted? && e.trigger == "temporal_decay" && e.to == e.from - 1
  {
    var before := hub.trust.entries;
    ListsMembers(order, before);
    PassLowersHeight(cfg, now, before, order);
    var actions := Actions(cfg, now, before, order);
    ActionsGoDown(cfg, now, before, order);
    EventsOfActions(actions);
    hide Lists, Actions, DecayEvents, Height, Decay;
  }

  predicate GoDown(actions: seq<Action>) {
    forall k :: 0 <= k < |actions| ==> actions[k].to == actions[k].from - 1
  }

  lemma {:induction false} ActionsGoDown(cfg: Config, now: int, entries: Entries, order: seq<string>)
    requires forall i :: 0 <= i < |order| ==> order[i] in entries
    ensures GoDown(Actions(cfg, now, entries, order))
    decreases |order|
  {
    hide Decays, DecayAction;
    if |order| > 0 {
      var n := |order| - 1;
      ActionsGoDown(cfg, now, entries, order[..n]);
      if Decays(cfg, now, order[n], entries[order[n]]) {
        ActionTells(cfg, now, order[n], entries[order[n]]);
      }
    }
  }

  lemma {:induction false} EventsOfActions(actions: seq<Action>)
    ensures |DecayEvents(actions)| == |actions|
    ensures forall k :: 0 <= k < |actions| ==>
      DecayEvents(actions)[k] == Demoted(actions[k].cap, actions[k].from, actions[k].to, "temporal_decay")
    decreases |actions|
  {
    if |actions| > 0 {
      EventsOfActions(actions[..|actions| - 1]);
    }
  }
}
