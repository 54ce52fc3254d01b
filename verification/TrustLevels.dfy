/** Who moves trust levels: demotion handlers (orchestrator/demotion_engine.py) and the startup
    reconciliation with the configuration (orchestrator/startup.py). */
module TrustLevels {
  import opened Bytes
  import opened CapabilityState

  const FAILURE_THRESHOLD := 3

  datatype WalEvent =
    | Promoted(cap: string, from: int, to: int)
    | Demoted(cap: string, from: int, to: int, trigger: string)

  /** The level table and the wal events emitted so far. */
  datatype Trust = Trust(entries: Entries, events: seq<WalEvent>)

  datatype Verdict = Unchanged | Demotion(from: int, to: int) | UnknownCapability

  /** A configured capability. */
  datatype Cap = Cap(id: string, desired: int, maxWal: int)

  const CONTEXT_PACKAGE := "context.package"

  predicate Registered(registry: seq<Cap>, id: string) {
    exists i :: 0 <= i < |registry| && registry[i].id == id
  }

  predicate Sentinel(id: string) {
    id == "egress_config" || id == "egress_connectivity" || id == "worker_sandbox"
  }

  // ---------------------------------------------------------------- handlers, on values

  function WithIncident(e: Entry, source: Option<string>): Entry {
    if source.Some? && source.value != "" then e.(incident := source) else e
  }

  function Execute(t: Trust, id: string, to: int, trigger: string, source: Option<string>, now: int): Trust
    requires id in t.entries
  {
    var e := t.entries[id];
    Trust(t.entries[id := WithIncident(Reset(Demote(e, to), now), source)],
          t.events + [Demoted(id, EffectiveWal(e), to, trigger)])
  }

  function StripFailure(t: Trust, registry: seq<Cap>, source: string, now: int): (Trust, Verdict) {
    if !Registered(registry, CONTEXT_PACKAGE) then (t, Unchanged)
    else if CONTEXT_PACKAGE !in t.entries then (t, UnknownCapability)
    else
      var from := EffectiveWal(t.entries[CONTEXT_PACKAGE]);
      if from == -1 then (t, Unchanged)
      else (Execute(t, CONTEXT_PACKAGE, -1, "strip_failure", Some(source), now), Demotion(from, -1))
  }

  /** The failure recorded and old ones dropped. */
  function WithFailure(e: Entry, failure: Failure, now: int): Entry {
    e.(failures := Recent(e.failures + [failure], now))
  }

  function JobFailure(t: Trust, registry: seq<Cap>, id: string, failure: Failure, now: int): (Trust, Verdict) {
    if Sentinel(id) || !Registered(registry, id) then (t, Unchanged)
    else if id !in t.entries then (t, UnknownCapability)
    else
      var e := WithFailure(t.entries[id], failure, now);
      var t1 := t.(entries := t.entries[id := e]);
      var from := EffectiveWal(e);
      if |e.failures| < FAILURE_THRESHOLD || from <= 0 then (t1, Unchanged)
      else (Execute(t1, id, from - 1, "error", Some(failure.source), now), Demotion(from, from - 1))
  }

  function OverrideDemotion(t: Trust, cancelOrRedirect: bool, id: string, prior: Option<string>, source: string, now: int)
    : (Trust, Verdict)
  {
    if !cancelOrRedirect then (t, Unchanged)
    else if id !in t.entries then (t, UnknownCapability)
    else
      var from := EffectiveWal(t.entries[id]);
      if from < 1 || (prior.Some? && Sentinel(prior.value)) then (t, Unchanged)
      else (Execute(t, id, from - 1, "override", Some(source), now), Demotion(from, from - 1))
  }

  /** Every affected capability to level 0, one after the other; false when one is unknown. */
  function ModelChange(t: Trust, ids: seq<string>, source: Option<string>, now: int): (Trust, bool)
    decreases |ids|
  {
    if |ids| == 0 then (t, true)
    else if ids[0] !in t.entries then (t, false)
    else if EffectiveWal(t.entries[ids[0]]) == 0 then ModelChange(t, ids[1..], source, now)
    else ModelChange(Execute(t, ids[0], 0, "model_change", source, now), ids[1..], source, now)
  }

  /** Twice the disposition score, to stay within the integers. */
  function DoubleScore(d: Disposition): nat {
    match d
    case AcceptedAsIs => 2
    case AutoDelivered => 2
    case Modified => 1
    case _ => 0
  }

  function DoubleTotal(outcomes: seq<Outcome>): nat
    decreases |outcomes|
  {
    if |outcomes| == 0 then 0
    else DoubleTotal(outcomes[..|outcomes| - 1]) + DoubleScore(outcomes[|outcomes| - 1].disposition)
  }

  function ApprovalDecay(t: Trust, id: string, now: int): (Trust, Verdict) {
    if id !in t.entries then (t, UnknownCapability)
    else
      var e := t.entries[id];
      if EffectiveWal(e) != 3 || |e.outcomes| == 0 then (t, Unchanged)
      else if 100 * DoubleTotal(e.outcomes) >= 99 * 2 * |e.outcomes| then (t, Unchanged)
      else (Execute(t, id, 2, "anomaly", None, now), Demotion(3, 2))
  }

  // ---------------------------------------------------------------- reconciliation, on values

  function ReconcileOne(t: Trust, cap: Cap, now: int): Trust
    requires cap.id in t.entries
  {
    var e := t.entries[cap.id];
    var from := EffectiveWal(e);
    if cap.desired == from then t
    else if cap.desired > from then
      Trust(t.entries[cap.id := e.(level := cap.desired, suspended := if from == -1 then false else e.suspended)],
            t.events + [Promoted(cap.id, from, cap.desired)])
    else
      Trust(t.entries[cap.id := Reset(Demote(e, cap.desired), now)],
            t.events + [Demoted(cap.id, from, cap.desired, "manual")])
  }

  /** All configured capabilities in order; false when one has no entry. */
  function Reconcile(t: Trust, registry: seq<Cap>, now: int): (Trust, bool)
    decreases |registry|
  {
    if |registry| == 0 then (t, true)
    else if registry[0].id !in t.entries then (t, false)
    else Reconcile(ReconcileOne(t, registry[0], now), registry[1..], now)
  }

  // ---------------------------------------------------------------- the engine

  class DemotionEngine {
    const state: StateManager
    const registry: seq<Cap>
    var events: seq<WalEvent>

    constructor (state: StateManager, registry: seq<Cap>, events: seq<WalEvent>)
      ensures this.state == state && this.registry == registry && this.events == events
    {
      this.state, this.registry, this.events := state, registry, events;
    }

    ghost function Value(): Trust
      reads this, state
    {
      Trust(state.entries, events)
    }

    method ExecuteDemotion(id: string, to: int, trigger: string, source: Option<string>, now: int)
      requires id in state.entries
      modifies this, state
      ensures Value() == Execute(old(Value()), id, to, trigger, source, now)
    {
      var from := EffectiveWal(state.entries[id]);
      state.entries := state.entries[id := Demote(state.entries[id], to)];
      state.entries := state.entries[id := Reset(state.entries[id], now)];
      if source.Some? && source.value != "" {
        state.entries := state.entries[id := state.entries[id].(incident := source)];
      }
      events := events + [Demoted(id, from, to, trigger)];
    }

    method HandleStripFailure(source: string, now: int) returns (verdict: Verdict)
      modifies this, state
      ensures (Value(), verdict) == StripFailure(old(Value()), registry, source, now)
    {
      if !Registered(registry, CONTEXT_PACKAGE) {
        return Unchanged;
      }
      if CONTEXT_PACKAGE !in state.entries {
        return UnknownCapability;
      }
      var from := EffectiveWal(state.entries[CONTEXT_PACKAGE]);
      if from == -1 {
        return Unchanged;
      }
      ExecuteDemotion(CONTEXT_PACKAGE, -1, "strip_failure", Some(source), now);
      return Demotion(from, -1);
    }

    method HandleJobFailure(id: string, failure: Failure, now: int) returns (verdict: Verdict)
      modifies this, state
      ensures (Value(), verdict) == JobFailure(old(Value()), registry, id, failure, now)
    {
      hide Recent, Reset, Demote, WithIncident;
      if Sentinel(id) || !Registered(registry, id) {
        return Unchanged;
      }
      var count := CountFailure(id, failure, now);
      if count.None? {
        return UnknownCapability;
      }
      if count.value < FAILURE_THRESHOLD {
        return Unchanged;
      }
      var from := EffectiveWal(state.entries[id]);
      if from <= 0 {
        return Unchanged;
      }
      ExecuteDemotion(id, from - 1, "error", Some(failure.source), now);
      return Demotion(from, from - 1);
    }

    /** Records the failure and counts the recent ones. */
    method CountFailure(id: string, failure: Failure, now: int) returns (count: Option<nat>)
      modifies state
      ensures id !in old(state.entries) ==> count == None && state.entries == old(state.entries)
      ensures id in old(state.entries) ==>
        var e := WithFailure(old(state.entries)[id], failure, now);
        count == Some(|e.failures|) && state.entries == old(state.entries)[id := e]
    {
      hide Recent;
      var known := state.RecordFailure(id, failure);
      if !known {
        return None;
      }
      count := state.RecentFailureCount(id, now);
    }

    method HandleOverrideDemotion(cancelOrRedirect: bool, id: string, prior: Option<string>, source: string, now: int)
      returns (verdict: Verdict)
      modifies this, state
      ensures (Value(), verdict) == OverrideDemotion(old(Value()), cancelOrRedirect, id, prior, source, now)
    {
      if !cancelOrRedirect {
        return Unchanged;
      }
      if id !in state.entries {
        return UnknownCapability;
      }
      var from := EffectiveWal(state.entries[id]);
      if from < 1 {
        return Unchanged;
      }
      if prior.Some? && Sentinel(prior.value) {
        return Unchanged;
      }
      ExecuteDemotion(id, from - 1, "override", Some(source), now);
      return Demotion(from, from - 1);
    }

    method HandleModelChange(affected: seq<string>, source: Option<string>, now: int) returns (ok: bool)
      modifies this, state
      ensures (Value(), ok) == ModelChange(old(Value()), affected, source, now)
    {
      for i := 0 to |affected|
        invariant ModelChange(old(Value()), affected, source, now) == ModelChange(Value(), affected[i..], source, now)
      {
        assert affected[i..][0] == affected[i] && affected[i..][1..] == affected[i + 1..];
        if affected[i] !in state.entries {
          return false;
        }
        if EffectiveWal(state.entries[affected[i]]) != 0 {
          ExecuteDemotion(affected[i], 0, "model_change", source, now);
        }
      }
      return true;
    }

    method HandleApprovalDecay(id: string, now: int) returns (verdict: Verdict)
      modifies this, state
      ensures (Value(), verdict) == ApprovalDecay(old(Value()), id, now)
    {
      if id !in state.entries {
        return UnknownCapability;
      }
      var e := state.entries[id];
      if EffectiveWal(e) != 3 || |e.outcomes| == 0 {
        return Unchanged;
      }
      var total := 0;
      for i := 0 to |e.outcomes|
        invariant total == DoubleTotal(e.outcomes[..i])
      {
        assert e.outcomes[..i + 1][..i] == e.outcomes[..i];
        total := total + DoubleScore(e.outcomes[i].disposition);
      }
      assert e.outcomes[..|e.outcomes|] == e.outcomes;
      if 100 * total >= 99 * 2 * |e.outcomes| {
        return Unchanged;
      }
      ExecuteDemotion(id, 2, "anomaly", None, now);
      return Demotion(3, 2);
    }

    /** The loop body of `reconcile`. */
    method ReconcileCapability(cap: Cap, now: int)
      requires cap.id in state.entries
      modifies this, state
      ensures Value() == ReconcileOne(old(Value()), cap, now)
    {
      var e := state.entries[cap.id];
      var effective := EffectiveWal(e);
      if cap.desired == effective {
        return;
      }
      if cap.desired > effective {
        events := events + [Promoted(cap.id, effective, cap.desired)];
        state.entries := state.entries[cap.id := e.(level := cap.desired)];
        if effective == -1 {
          state.entries := state.entries[cap.id := state.entries[cap.id].(suspended := false)];
        }
      } else {
        events := events + [Demoted(cap.id, effective, cap.desired, "manual")];
        state.entries := state.entries[cap.id := Demote(e, cap.desired)];
        state.entries := state.entries[cap.id := Reset(state.entries[cap.id], now)];
      }
    }

    /** `reconcile`: raises, leaving what it has already done, at a capability without entry. */
    method ReconcileLevels(now: int) returns (ok: bool)
      modifies this, state
      ensures (Value(), ok) == Reconcile(old(Value()), registry, now)
    {
      hide ReconcileOne;
      for i := 0 to |registry|
        invariant Reconcile(old(Value()), registry, now) == Reconcile(Value(), registry[i..], now)
      {
        assert registry[i..][0] == registry[i] && registry[i..][1..] == registry[i + 1..];
        if registry[i].id !in state.entries {
          return false;
        }
        ReconcileCapability(registry[i], now);
      }
      return true;
    }
  }
}
