/** Temporal decay of trust levels (orchestrator/decay_evaluator.py). */
module TemporalDecay {
  import opened Bytes
  import opened CapabilityState

  const DAY := 86400

  datatype Policy = Policy(windowDays: int, minOutcomes: int)

  type Policies = map<int, Policy>

  datatype Config = Config(defaults: Policies, overrides: map<string, Policies>, enabled: bool)

  datatype Action = Action(cap: string, from: int, to: int, inWindow: nat, windowDays: int, minRequired: int)

  // ---------------------------------------------------------------- configuration

  /** One entry of the raw policy; absent members count as 0. */
  datatype RawEntry = RawEntry(windowDays: Option<int>, minOutcomes: Option<int>)

  /** The raw policy under its keys wal_1, wal_2 and wal_3. */
  type RawPolicy = map<int, RawEntry>

  function OrZero(v: Option<int>): int {
    if v.Some? then v.value else 0
  }

  /** Every level given has a positive window and a positive minimum. */
  ghost predicate GoodRaw(raw: RawPolicy) {
    forall l :: l in raw && 1 <= l <= 3 ==> OrZero(raw[l].windowDays) > 0 && OrZero(raw[l].minOutcomes) > 0
  }

  function FromRaw(raw: RawPolicy): Policies {
    map l | l in raw && 1 <= l <= 3 :: Policy(OrZero(raw[l].windowDays), OrZero(raw[l].minOutcomes))
  }

  /** None stands for the ValueError on a window or minimum that is not positive. */
  method ParsePolicies(raw: RawPolicy) returns (r: Option<Policies>)
    ensures r == if GoodRaw(raw) then Some(FromRaw(raw)) else None
  {
    var result: Policies := map[];
    for level := 1 to 4
      invariant forall l :: l in raw && 1 <= l < level ==>
        OrZero(raw[l].windowDays) > 0 && OrZero(raw[l].minOutcomes) > 0
      invariant result ==
        map l | l in raw && 1 <= l < level :: Policy(OrZero(raw[l].windowDays), OrZero(raw[l].minOutcomes))
    {
      if level in raw {
        var window, minimum := OrZero(raw[level].windowDays), OrZero(raw[level].minOutcomes);
        if window <= 0 || minimum <= 0 {
          return None;
        }
        result := result[level := Policy(window, minimum)];
      }
    }
    assert result == FromRaw(raw);
    return Some(result);
  }

  ghost predicate Positive(p: Policies) {
    forall l :: l in p ==> 1 <= l <= 3 && p[l].windowDays > 0 && p[l].minOutcomes > 0
  }

  /** An override is at least as strict as the default at every level that has one. */
  ghost predicate Stricter(override: Policies, defaults: Policies) {
    forall l :: l in override && l in defaults ==>
      override[l].windowDays <= defaults[l].windowDays && override[l].minOutcomes >= defaults[l].minOutcomes
  }

  ghost predicate ValidConfig(cfg: Config) {
    Positive(cfg.defaults) && forall id :: id in cfg.overrides ==>
      Positive(cfg.overrides[id]) && Stricter(cfg.overrides[id], cfg.defaults)
  }

  /** Whether every level of an override respects the default. */
  method CheckStricter(override: Policies, defaults: Policies) returns (ok: bool)
    requires forall l :: l in override ==> 1 <= l <= 3
    ensures ok == Stricter(override, defaults)
  {
    for level := 1 to 4
      invariant forall l :: l in override && l < level && l in defaults ==>
        override[l].windowDays <= defaults[l].windowDays && override[l].minOutcomes >= defaults[l].minOutcomes
    {
      if level in override && level in defaults {
        if override[level].windowDays > defaults[level].windowDays {
          return false;
        }
        if override[level].minOutcomes < defaults[level].minOutcomes {
          return false;
        }
      }
    }
    return true;
  }

  /** An override that loading accepts: positive values, and stricter than the defaults. */
  ghost predicate GoodOverride(raw: RawPolicy, defaults: Policies) {
    GoodRaw(raw) && Stricter(FromRaw(raw), defaults)
  }

  function FromRawAll(raws: map<string, RawPolicy>): map<string, Policies> {
    map id | id in raws :: FromRaw(raws[id])
  }

  lemma FromRawAllStep(raws: map<string, RawPolicy>, todo: set<string>, id: string)
    requires id in todo && id in raws
    ensures FromRawAll(raws - (todo - {id})) == FromRawAll(raws - todo)[id := FromRaw(raws[id])]
  {
    hide FromRaw;
  }

  method LoadOverrides(defaults: Policies, raws: map<string, RawPolicy>) returns (r: Option<map<string, Policies>>)
    ensures r == if forall id :: id in raws ==> GoodOverride(raws[id], defaults) then Some(FromRawAll(raws)) else None
  {
    hide GoodRaw, FromRaw, Stricter, FromRawAll;
    var overrides: map<string, Policies> := map[];
    var todo := raws.Keys;
    assert raws - todo == map[];
    EmptyRaw();
    while todo != {}
      invariant todo <= raws.Keys
      invariant overrides == FromRawAll(raws - todo)
      invariant forall id :: id in raws && id !in todo ==> GoodOverride(raws[id], defaults)
      decreases |todo|
    {
      var id :| id in todo;
      var override := ParsePolicies(raws[id]);
      if override.None? {
        return None;
      }
      FromRawLevels(raws[id]);
      var ok := CheckStricter(override.value, defaults);
      if !ok {
        return None;
      }
      FromRawAllStep(raws, todo, id);
      overrides := overrides[id := override.value];
      todo := todo - {id};
    }
    assert raws - {} == raws;
    return Some(overrides);
  }

  lemma EmptyRaw()
    ensures FromRawAll(map[]) == map[]
  {
  }

  /** `load_decay_config`: without a policy decay is off; None stands for a ValueError. */
  method LoadConfig(policy: Option<RawPolicy>, rawOverrides: map<string, RawPolicy>) returns (r: Option<Config>)
    ensures policy.None? ==> r == Some(Config(map[], map[], false))
    ensures policy.Some? ==>
      var acceptable := GoodRaw(policy.value) &&
        forall id :: id in rawOverrides ==> GoodOverride(rawOverrides[id], FromRaw(policy.value));
      r == if acceptable then Some(Config(FromRaw(policy.value), FromRawAll(rawOverrides), true)) else None
    ensures r.Some? ==> ValidConfig(r.value)
  {
    if policy.None? {
      return Some(Config(map[], map[], false));
    }
    var defaults := ParsePolicies(policy.value);
    if defaults.None? {
      return None;
    }
    var overrides := LoadOverrides(defaults.value, rawOverrides);
    if overrides.None? {
      return None;
    }
    return Some(Config(defaults.value, overrides.value, true));
  }

  lemma FromRawLevels(raw: RawPolicy)
    ensures forall l :: l in FromRaw(raw) ==> 1 <= l <= 3
  {
  }

  // ---------------------------------------------------------------- one capability

  function PolicyFor(cfg: Config, id: string, level: int): Option<Policy> {
    if id in cfg.overrides && level in cfg.overrides[id] then Some(cfg.overrides[id][level])
    else if level in cfg.defaults then Some(cfg.defaults[level])
    else None
  }

  /** Outcomes with a timestamp at or after the cutoff. */
  function CountInWindow(outcomes: seq<Outcome>, cutoff: int): nat
    decreases |outcomes|
  {
    if |outcomes| == 0 then 0
    else
      var o := outcomes[|outcomes| - 1];
      CountInWindow(outcomes[..|outcomes| - 1], cutoff) + if o.time.Some? && o.time.value >= cutoff then 1 else 0
  }

  method CountOutcomesInWindow(outcomes: seq<Outcome>, cutoff: int) returns (count: nat)
    ensures count == CountInWindow(outcomes, cutoff)
  {
    count := 0;
    for i := 0 to |outcomes|
      invariant count == CountInWindow(outcomes[..i], cutoff)
    {
      assert outcomes[..i + 1][..i] == outcomes[..i];
      if outcomes[i].time.Some? && outcomes[i].time.value >= cutoff {
        count := count + 1;
      }
    }
    assert outcomes[..|outcomes|] == outcomes;
  }

  predicate Decays(cfg: Config, now: int, id: string, e: Entry) {
    cfg.enabled && e.level >= 1 &&
    match PolicyFor(cfg, id, e.level)
    case None => false
    case Some(p) => CountInWindow(e.outcomes, now - p.windowDays * DAY) < p.minOutcomes
  }

  /** What follows the durable emit: one level below the level read before it, whatever the level is
      by then. */
  function FinishDecay(e: Entry, from: int, now: int): Entry {
    Reset(Demote(e, from - 1), now)
  }

  /** One uninterrupted pass over one capability: down one level with cleared counters, or
      unchanged. */
  function Decay(cfg: Config, now: int, id: string, e: Entry): Entry {
    if Decays(cfg, now, id, e) then FinishDecay(e, e.level, now) else e
  }

  function DecayAction(cfg: Config, now: int, id: string, e: Entry): Action
    requires Decays(cfg, now, id, e)
  {
    var p := PolicyFor(cfg, id, e.level).value;
    Action(id, e.level, e.level - 1, CountInWindow(e.outcomes, now - p.windowDays * DAY), p.windowDays, p.minOutcomes)
  }

  // ---------------------------------------------------------------- one pass

  function DecayAll(cfg: Config, now: int, entries: Entries): Entries {
    map id | id in entries :: Decay(cfg, now, id, entries[id])
  }

  /** The actions of one pass, in dictionary order. */
  function Actions(cfg: Config, now: int, entries: Entries, order: seq<string>): seq<Action>
    requires forall i :: 0 <= i < |order| ==> order[i] in entries
    decreases |order|
  {
    if |order| == 0 then []
    else
      var id := order[|order| - 1];
      Actions(cfg, now, entries, order[..|order| - 1])
      + if Decays(cfg, now, id, entries[id]) then [DecayAction(cfg, now, id, entries[id])] else []
  }

  ghost predicate Lists(order: seq<string>, entries: Entries) {
    && (forall i :: 0 <= i < |order| ==> order[i] in entries)
    && (forall id :: id in entries ==> id in order)
    && (forall i, j :: 0 <= i < j < |order| ==> order[i] != order[j])
  }

  /** Entries whose first `n` listed capabilities have had their pass. */
  function DecayedUpTo(cfg: Config, now: int, entries: Entries, order: seq<string>, n: nat): Entries
    requires n <= |order|
  {
    map id | id in entries :: if id in order[..n] then Decay(cfg, now, id, entries[id]) else entries[id]
  }

  /** `evaluate`: every capability once, in dictionary order. */
  method Evaluate(cfg: Config, now: int, manager: StateManager, order: seq<string>) returns (actions: seq<Action>)
    requires Lists(order, manager.entries)
    modifies manager
    ensures manager.entries == DecayAll(cfg, now, old(manager.entries))
    ensures Lists(order, manager.entries)
    ensures actions == Actions(cfg, now, old(manager.entries), order)
  {
    hide Lists, Decays, Decay, DecayAction, Actions, DecayAll, DecayedUpTo;
    actions := [];
    ghost var before := manager.entries;
    ListsMembers(order, before);
    if !cfg.enabled {
      NothingEnabled(cfg, now, before, order);
      return;
    }
    DecayedEnds(cfg, now, before, order);
    NoActionsYet(cfg, now, before);
    assert order[..0] == [];
    for i := 0 to |order|
      invariant manager.entries == DecayedUpTo(cfg, now, before, order, i)
      invariant actions == Actions(cfg, now, before, order[..i])
    {
      DecayedStep(cfg, now, before, order, i);
      ActionsStep(cfg, now, before, order, i);
      var act := EvaluateOne(cfg, now, manager, order[i]);
      if act.Some? {
        actions := actions + [act.value];
      }
    }
    assert order[..|order|] == order;
    ListsKeys(order, before, manager.entries);
  }

  lemma NoActionsYet(cfg: Config, now: int, entries: Entries)
    ensures Actions(cfg, now, entries, []) == []
  {
  }

  lemma ListsMembers(order: seq<string>, entries: Entries)
    requires Lists(order, entries)
    ensures forall i :: 0 <= i < |order| ==> order[i] in entries
  {
  }

  lemma ListsKeys(order: seq<string>, before: Entries, after: Entries)
    requires Lists(order, before) && (exists cfg, now :: after == DecayAll(cfg, now, before))
    ensures Lists(order, after)
  {
  }

  lemma ActionsStep(cfg: Config, now: int, entries: Entries, order: seq<string>, i: nat)
    requires i < |order| && forall k :: 0 <= k < |order| ==> order[k] in entries
    ensures Actions(cfg, now, entries, order[..i + 1]) == Actions(cfg, now, entries, order[..i])
      + if Decays(cfg, now, order[i], entries[order[i]]) then [DecayAction(cfg, now, order[i], entries[order[i]])] else []
  {
    hide Decays, DecayAction;
    assert order[..i + 1][..i] == order[..i];
  }

  /** The pass reaches the next listed capability, which is still as it was. */
  lemma DecayedStep(cfg: Config, now: int, entries: Entries, order: seq<string>, i: nat)
    requires Lists(order, entries) && i < |order|
    ensures var id := order[i];
      && id in entries && id in DecayedUpTo(cfg, now, entries, order, i)
      && DecayedUpTo(cfg, now, entries, order, i)[id] == entries[id]
      && DecayedUpTo(cfg, now, entries, order, i + 1)
         == DecayedUpTo(cfg, now, entries, order, i)[id := Decay(cfg, now, id, entries[id])]
  {
    hide Decay;
    assert order[i] !in order[..i];
    assert order[..i + 1] == order[..i] + [order[i]];
  }

  lemma DecayedEnds(cfg: Config, now: int, entries: Entries, order: seq<string>)
    requires Lists(order, entries)
    ensures DecayedUpTo(cfg, now, entries, order, 0) == entries
    ensures DecayedUpTo(cfg, now, entries, order, |order|) == DecayAll(cfg, now, entries)
  {
    hide Decay;
    assert order[..|order|] == order;
  }

  lemma NothingEnabled(cfg: Config, now: int, entries: Entries, order: seq<string>)
    requires !cfg.enabled && forall i :: 0 <= i < |order| ==> order[i] in entries
    ensures DecayAll(cfg, now, entries) == entries && Actions(cfg, now, entries, order) == []
    decreases |order|
  {
    if |order| > 0 {
      NothingEnabled(cfg, now, entries, order[..|order| - 1]);
    }
  }

  /** The loop body of `evaluate` up to its await: the action to announce, if any. */
  method DueAction(cfg: Config, now: int, manager: StateManager, id: string) returns (act: Option<Action>)
    requires cfg.enabled && id in manager.entries
    ensures act == if Decays(cfg, now, id, manager.entries[id]) then Some(DecayAction(cfg, now, id, manager.entries[id])) else None
  {
    var e := manager.entries[id];
    if e.level < 1 {
      return None;
    }
    var policy := PolicyFor(cfg, id, e.level);
    if policy.None? {
      return None;
    }
    var inWindow := CountOutcomesInWindow(e.outcomes, now - policy.value.windowDays * DAY);
    if inWindow >= policy.value.minOutcomes {
      return None;
    }
    return Some(Action(id, e.level, e.level - 1, inWindow, policy.value.windowDays, policy.value.minOutcomes));
  }

  /** The loop body after its await. */
  method FinishAction(manager: StateManager, act: Action, now: int)
    requires act.cap in manager.entries && act.to == act.from - 1
    modifies manager
    ensures manager.entries == old(manager.entries)[act.cap := FinishDecay(old(manager.entries)[act.cap], act.from, now)]
  {
    manager.entries := manager.entries[act.cap := Demote(manager.entries[act.cap], act.to)];
    manager.entries := manager.entries[act.cap := Reset(manager.entries[act.cap], now)];
  }

  /** The loop body of `evaluate` when nothing runs during its await. */
  method EvaluateOne(cfg: Config, now: int, manager: StateManager, id: string) returns (act: Option<Action>)
    requires cfg.enabled && id in manager.entries
    modifies manager
    ensures manager.entries == old(manager.entries)[id := Decay(cfg, now, id, old(manager.entries)[id])]
    ensures act == if Decays(cfg, now, id, old(manager.entries)[id])
      then Some(DecayAction(cfg, now, id, old(manager.entries)[id])) else None
  {
    act := DueAction(cfg, now, manager, id);
    if act.Some? {
      FinishAction(manager, act.value, now);
    }
  }

  // ---------------------------------------------------------------- the fixpoint

  /** Nearest level at or below `level` without a policy. */
  function Floor(cfg: Config, id: string, level: int): (f: int)
    ensures f <= level && (level >= 0 ==> f >= 0)
    decreases if level < 1 then 0 else level
  {
    if level < 1 || PolicyFor(cfg, id, level).None? then level else Floor(cfg, id, level - 1)
  }

  /** Where repeated passes at one time end. */
  function Settled(cfg: Config, now: int, id: string, e: Entry): Entry {
    if Decays(cfg, now, id, e) then Reset(Demote(e, Floor(cfg, id, e.level - 1)), now) else e
  }

  function SettleAll(cfg: Config, now: int, entries: Entries): Entries {
    map id | id in entries :: Settled(cfg, now, id, entries[id])
  }

  /** One pass does not change where the passes end. */
  lemma DecayThenSettle(cfg: Config, now: int, id: string, e: Entry)
    requires ValidConfig(cfg)
    ensures Settled(cfg, now, id, Decay(cfg, now, id, e)) == Settled(cfg, now, id, e)
  {
    if Decays(cfg, now, id, e) {
      var d := Decay(cfg, now, id, e);
      assert d.outcomes == [];
    }
  }

  /** Sum of the positive levels of the listed capabilities: what a pass with actions decreases. */
  function Height(entries: Entries, order: seq<string>): nat
    requires forall i :: 0 <= i < |order| ==> order[i] in entries
    decreases |order|
  {
    if |order| == 0 then 0
    else
      var e := entries[order[|order| - 1]];
      Height(entries, order[..|order| - 1]) + if e.level > 0 then e.level else 0
  }

  lemma {:induction false} PassLowersHeight(cfg: Config, now: int, entries: Entries, order: seq<string>)
    requires forall i :: 0 <= i < |order| ==> order[i] in entries
    ensures Height(entries, order) == Height(DecayAll(cfg, now, entries), order) + |Actions(cfg, now, entries, order)|
    decreases |order|
  {
    hide Decays;
    if |order| > 0 {
      var n := |order| - 1;
      PassLowersHeight(cfg, now, entries, order[..n]);
      DecayLevel(cfg, now, order[n], entries[order[n]]);
    }
  }

  lemma DecayLevel(cfg: Config, now: int, id: string, e: Entry)
    ensures Decays(cfg, now, id, e) ==> e.level >= 1 && Decay(cfg, now, id, e).level == e.level - 1
    ensures !Decays(cfg, now, id, e) ==> Decay(cfg, now, id, e) == e
  {
  }

  lemma {:induction false} NoActionsSettled(cfg: Config, now: int, entries: Entries, order: seq<string>)
    requires (forall i :: 0 <= i < |order| ==> order[i] in entries) && Actions(cfg, now, entries, order) == []
    ensures forall i :: 0 <= i < |order| ==> !Decays(cfg, now, order[i], entries[order[i]])
    decreases |order|
  {
    hide Decays;
    if |order| > 0 {
      var n := |order| - 1;
      NoActionsSettled(cfg, now, entries, order[..n]);
      assert forall i :: 0 <= i < n ==> order[..n][i] == order[i];
    }
  }

  /** `evaluate_startup` at one time: it terminates in the closed form, and takes exactly one
      action per level lost. */
  method EvaluateStartup(cfg: Config, now: int, manager: StateManager, order: seq<string>)
    returns (all: seq<Action>)
    requires ValidConfig(cfg) && Lists(order, manager.entries)
    modifies manager
    ensures manager.entries == SettleAll(cfg, now, old(manager.entries))
    ensures Lists(order, manager.entries)
    ensures |all| == Height(old(manager.entries), order) - Height(manager.entries, order)
  {
    all := [];
    ghost var before := manager.entries;
    while true
      invariant Lists(order, manager.entries)
      invariant SettleAll(cfg, now, manager.entries) == SettleAll(cfg, now, before)
      invariant Height(before, order) == Height(manager.entries, order) + |all|
      decreases Height(manager.entries, order)
    {
      ghost var e := manager.entries;
      PassLowersHeight(cfg, now, e, order);
      SettleAfterPass(cfg, now, e);
      var actions := Evaluate(cfg, now, manager, order);
      if |actions| == 0 {
        NothingLeft(cfg, now, e, order);
        break;
      }
      all := all + actions;
    }
  }

  lemma SettleAfterPass(cfg: Config, now: int, entries: Entries)
    requires ValidConfig(cfg)
    ensures SettleAll(cfg, now, DecayAll(cfg, now, entries)) == SettleAll(cfg, now, entries)
  {
    hide Settled, Decay, ValidConfig;
    forall id | id in entries
      ensures Settled(cfg, now, id, Decay(cfg, now, id, entries[id])) == Settled(cfg, now, id, entries[id])
    {
      DecayThenSettle(cfg, now, id, entries[id]);
    }
  }

  lemma NothingLeft(cfg: Config, now: int, entries: Entries, order: seq<string>)
    requires Lists(order, entries) && Actions(cfg, now, entries, order) == []
    ensures SettleAll(cfg, now, entries) == entries && DecayAll(cfg, now, entries) == entries
  {
    hide Decays;
    NoActionsSettled(cfg, now, entries, order);
    forall id | id in entries ensures !Decays(cfg, now, id, entries[id]) {
      var i :| 0 <= i < |order| && order[i] == id;
    }
  }

  // ---------------------------------------------------------------- overrides are stricter

  /** A shorter window sees no more outcomes. */
  lemma {:induction false} ShorterWindow(outcomes: seq<Outcome>, a: int, b: int)
    requires a >= b
    ensures CountInWindow(outcomes, a) <= CountInWindow(outcomes, b)
    decreases |outcomes|
  {
    if |outcomes| > 0 {
      ShorterWindow(outcomes[..|outcomes| - 1], a, b);
    }
  }

  lemma {:induction false} FloorWithOverrides(cfg: Config, id: string, level: int)
    ensures Floor(cfg, id, level) <= Floor(cfg.(overrides := map[]), id, level)
    decreases if level < 1 then 0 else level
  {
    if level >= 1 {
      FloorWithOverrides(cfg, id, level - 1);
    }
  }

  /** Validated overrides never leave a capability at a higher level than the defaults alone. */
  lemma OverridesNeverRaise(cfg: Config, now: int, id: string, e: Entry)
    requires ValidConfig(cfg)
    ensures Settled(cfg, now, id, e).level <= Settled(cfg.(overrides := map[]), now, id, e).level
  {
    var plain := cfg.(overrides := map[]);
    if Decays(plain, now, id, e) {
      var d := PolicyFor(plain, id, e.level).value;
      var p := PolicyFor(cfg, id, e.level).value;
      assert p.windowDays <= d.windowDays && p.minOutcomes >= d.minOutcomes;
      ShorterWindow(e.outcomes, now - p.windowDays * DAY, now - d.windowDays * DAY);
      FloorWithOverrides(cfg, id, e.level - 1);
    }
  }

  /** What the closed form says: a level without policy or with enough recent outcomes stays;
      any other falls to the nearest lower level without a policy, with cleared counters. */
  lemma SettledMeaning(cfg: Config, now: int, id: string, e: Entry)
    requires ValidConfig(cfg) && cfg.enabled && e.level >= 1
    ensures var s := Settled(cfg, now, id, e);
      match PolicyFor(cfg, id, e.level)
      case None => s == e
      case Some(p) =>
        if CountInWindow(e.outcomes, now - p.windowDays * DAY) >= p.minOutcomes then s == e
        else
          && 0 <= s.level < e.level && !s.suspended && s.outcomes == [] && s.failures == []
          && (s.level >= 1 ==> PolicyFor(cfg, id, s.level).None?)
          && forall l :: s.level < l < e.level ==> PolicyFor(cfg, id, l).Some?
  {
    if Decays(cfg, now, id, e) {
      FloorMeaning(cfg, id, e.level - 1);
    }
  }

  lemma {:induction false} FloorMeaning(cfg: Config, id: string, level: int)
    requires level >= 0
    ensures var f := Floor(cfg, id, level);
      && (f >= 1 ==> PolicyFor(cfg, id, f).None?)
      && forall l :: f < l <= level ==> PolicyFor(cfg, id, l).Some?
    decreases level
  {
    if level >= 1 && PolicyFor(cfg, id, level).Some? {
      FloorMeaning(cfg, id, level - 1);
    }
  }
}
