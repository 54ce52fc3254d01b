/** The startup sequence as it changes the state file and its meta entry (orchestrator/startup.py). */
module HubStartup {
  import opened Bytes
  import opened CapabilityState
  import opened TrustLevels
  import opened TrustRuns

  class HubProcess {
    const state: StateManager
    var events: seq<WalEvent>
    var present: bool
    var hash: Option<string>
    var model: Option<Model>
    var registry: seq<Cap>
    var up: bool

    constructor ()
      ensures Value() == NEW_HUB && fresh(state)
    {
      state := new StateManager();
      events, present, hash, model, registry, up := [], false, None, None, [], false;
    }

    ghost function Value(): Hub
      reads this, state
    {
      Hub(Trust(state.entries, events), present, hash, model, registry, up, map[])
    }

    /** `initialize_from_registry`. */
    method InitializeState(registry: seq<Cap>, now: int)
      modifies state
      ensures state.entries == FreshEntries(registry, now)
    {
      state.entries := map[];
      for i := 0 to |registry|
        invariant state.entries == FreshEntries(registry[..i], now)
      {
        assert registry[..i + 1] == registry[..i] + [registry[i]];
        state.entries := state.entries[registry[i].id := Initial(now)];
      }
      assert registry[..|registry|] == registry;
    }

    method AffectedCapabilities(registry: seq<Cap>) returns (affected: seq<string>)
      ensures affected == Affected(registry)
    {
      affected := [];
      for i := 0 to |registry|
        invariant affected + Affected(registry[i..]) == Affected(registry)
      {
        var here := if "_" <= registry[i].id then [] else [registry[i].id];
        assert registry[i..][0] == registry[i] && registry[i..][1..] == registry[i + 1..];
        assert affected + (here + Affected(registry[i + 1..])) == (affected + here) + Affected(registry[i + 1..]);
        affected := affected + here;
      }
    }

    /** `run`, from the validated registry on; `accepted` is the outcome of the validation. The hub
        is up afterwards unless validation or a level change failed. */
    method Start(next: seq<Cap>, nextHash: string, accepted: bool, nextModel: Option<Model>, source: string, now: int)
      requires accepted ==> ValidCaps(next)
      modifies this, state
      ensures Value() == StartHub(old(Value()), next, nextHash, accepted, nextModel, source, now)
    {
      hide Reconcile, ModelChange, FreshEntries, Affected, ValidCaps;
      up := false;
      if !accepted {
        return;
      }
      if !present {
        InitializeState(next, now);
      }
      if hash != Some(nextHash) {
        var engine := new DemotionEngine(state, next, events);
        var ok := engine.ReconcileLevels(now);
        events, present := engine.events, true;
        if !ok {
          return;
        }
      }
      present := true;
      if model.Some? && nextModel.Some? && model != nextModel {
        var affected := AffectedCapabilities(next);
        var engine := new DemotionEngine(state, next, events);
        var ok := engine.HandleModelChange(affected, Some(source), now);
        events := engine.events;
        if !ok {
          return;
        }
      }
      hash, model, registry, up := Some(nextHash), nextModel, next, true;
    }
  }
}
