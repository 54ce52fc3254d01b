/** What a decay policy demands, read off the configuration's own tables and the outcomes' own times
    (orchestrator/decay_evaluator.py). */
module DecayPolicy {
  import opened Bytes
  import opened CapabilityState
  import opened TemporalDecay

  // ---------------------------------------------------------------- what loading accepts

  /** The value of a raw entry's member, when it is there. */
  predicate IsPositive(v: Option<int>) {
    v != None && v.value > 0
  }

  /** Loading accepts a policy when the window and the minimum of every level from 1 to 3 it names are
      there and positive, and takes both over as they stand. */
  lemma LoadedPolicy(raw: RawPolicy)
    ensures GoodRaw(raw) <==>
      forall l :: l in raw && 1 <= l <= 3 ==> IsPositive(raw[l].windowDays) && IsPositive(raw[l].minOutcomes)
    ensures forall l :: l in FromRaw(raw) <==> l in raw && 1 <= l <= 3
    ensures GoodRaw(raw) ==> forall l :: l in FromRaw(raw) ==>
      raw[l].windowDays == Some(FromRaw(raw)[l].windowDays) && raw[l].minOutcomes == Some(FromRaw(raw)[l].minOutcomes)
  {
  }

  /** An override is accepted when it is one, and at every level that also has a default asks for at
      least as many outcomes in a window no longer. */
  lemma AcceptedOverride(raw: RawPolicy, defaults: Policies)
    requires GoodRaw(raw)
    ensures GoodOverride(raw, defaults) <==>
      forall l :: l in raw && 1 <= l <= 3 && l in defaults ==>
        raw[l].windowDays.value <= defaults[l].windowDays && raw[l].minOutcomes.value >= defaults[l].minOutcomes
  {
    LoadedPolicy(raw);
    hide GoodRaw;
    assert forall l :: l in raw && 1 <= l <= 3 ==> l in FromRaw(raw);
  }

  // ---------------------------------------------------------------- outcomes in a window

  /** The outcomes that carry a time at or after `from`. */
  ghost function Since(outcomes: seq<Outcome>, from: int): set<int> {
    set i | 0 <= i < |outcomes| && outcomes[i].time != None && outcomes[i].time.value >= from
  }

  /** How many outcomes the last `days` days hold. */
  ghost function Lately(e: Entry, now: int, days: int): nat {
    |Since(e.outcomes, now - days * 24 * 60 * 60)|
  }

  lemma {:induction false} CountsSince(outcomes: seq<Outcome>, from: int)
    ensures CountInWindow(outcomes, from) == |Since(outcomes, from)|
    decreases |outcomes|
  {
    if |outcomes| > 0 {
      var n := |outcomes| - 1;
      CountsSince(outcomes[..n], from);
      var rest := Since(outcomes[..n], from);
      assert Since(outcomes, from)
        == if outcomes[n].time != None && outcomes[n].time.value >= from then rest + {n} else rest;
    }
  }

  // ---------------------------------------------------------------- one pass

  /** At a level the capability has an override for, that override decides, and nothing else does. */
  lemma OverrideDecides(cfg: Config, now: int, id: string, e: Entry)
    requires cfg.enabled && e.level >= 1 && id in cfg.overrides && e.level in cfg.overrides[id]
    ensures var p := cfg.overrides[id][e.level];
      Decay(cfg, now, id, e) == e <==> Lately(e, now, p.windowDays) >= p.minOutcomes
  {
    var p := cfg.overrides[id][e.level];
    CountsSince(e.outcomes, now - p.windowDays * 24 * 60 * 60);
  }

  /** Without one, the default for the level decides; with neither, the capability stays. */
  lemma DefaultDecides(cfg: Config, now: int, id: string, e: Entry)
    requires cfg.enabled && e.level >= 1 && !(id in cfg.overrides && e.level in cfg.overrides[id])
    ensures e.level !in cfg.defaults ==> Decay(cfg, now, id, e) == e
    ensures e.level in cfg.defaults ==>
      var p := cfg.defaults[e.level];
      Decay(cfg, now, id, e) == e <==> Lately(e, now, p.windowDays) >= p.minOutcomes
  {
    if e.level in cfg.defaults {
      CountsSince(e.outcomes, now - cfg.defaults[e.level].windowDays * 24 * 60 * 60);
    }
  }

  /** What a pass does to a capability that does not stay: one level down, active, counters cleared.
      Below level 1, or with decay off, every capability stays. */
  lemma OneLevelDown(cfg: Config, now: int, id: string, e: Entry)
    ensures Decay(cfg, now, id, e) == e || Decay(cfg, now, id, e) == Entry(e.level - 1, false, [], [], None, now, e.incident)
    ensures !cfg.enabled || e.level < 1 ==> Decay(cfg, now, id, e) == e && Settled(cfg, now, id, e) == e
  {
  }

  /** The action a pass announces: the capability, its level and the one below, and the numbers that
      decided, taken from the override if there is one and from the default otherwise. */
  lemma ActionTells(cfg: Config, now: int, id: string, e: Entry)
    requires Decays(cfg, now, id, e)
    ensures var a := DecayAction(cfg, now, id, e);
      && a.cap == id && a.from == e.level && a.to == e.level - 1
      && a.inWindow == Lately(e, now, a.windowDays) < a.minRequired
      && (if id in cfg.overrides && e.level in cfg.overrides[id]
          then Policy(a.windowDays, a.minRequired) == cfg.overrides[id][e.level]
          else e.level in cfg.defaults && Policy(a.windowDays, a.minRequired) == cfg.defaults[e.level])
  {
    CountsSince(e.outcomes, now - DecayAction(cfg, now, id, e).windowDays * 24 * 60 * 60);
  }

  // ---------------------------------------------------------------- repeated passes

  /** The configuration has a policy for this capability at this level. */
  ghost predicate Governed(cfg: Config, id: string, level: int) {
    level in cfg.defaults || (id in cfg.overrides && level in cfg.overrides[id])
  }

  /** Where repeated passes end: a capability that one pass keeps stays; any other falls to the
      nearest lower level that neither an override nor a default governs. */
  lemma SettlesWhere(cfg: Config, now: int, id: string, e: Entry)
    requires ValidConfig(cfg)
    ensures var s := Settled(cfg, now, id, e);
      if Decay(cfg, now, id, e) == e then s == e
      else
        && s == Entry(s.level, false, [], [], None, now, e.incident)
        && 0 <= s.level < e.level && (s.level >= 1 ==> !Governed(cfg, id, s.level))
        && forall l :: s.level < l <= e.level ==> Governed(cfg, id, l)
  {
    if Decays(cfg, now, id, e) {
      FloorMeaning(cfg, id, e.level - 1);
    }
  }

  /** The first ungoverned level is the only one. */
  lemma SettlesAt(cfg: Config, now: int, id: string, e: Entry, level: int)
    requires ValidConfig(cfg) && Decay(cfg, now, id, e) != e
    requires 0 <= level < e.level && (level >= 1 ==> !Governed(cfg, id, level))
    requires forall l :: level < l <= e.level ==> Governed(cfg, id, l)
    ensures Settled(cfg, now, id, e).level == level
  {
    SettlesWhere(cfg, now, id, e);
    var s := Settled(cfg, now, id, e).level;
    assert s < level ==> Governed(cfg, id, level);
    assert level < s ==> Governed(cfg, id, s);
  }

  /** When the overrides of an accepted configuration cost a capability more than the defaults alone
      would have: exactly when there is an override at the level where the defaults would leave it,
      and, if that is where it is now, it has too few outcomes for that override. */
  lemma OverridesLowerIff(cfg: Config, now: int, id: string, e: Entry)
    requires ValidConfig(cfg)
    ensures var left := Settled(cfg.(overrides := map[]), now, id, e).level;
      Settled(cfg, now, id, e).level < left <==>
        && cfg.enabled && left >= 1 && id in cfg.overrides && left in cfg.overrides[id]
        && (left == e.level ==> Lately(e, now, cfg.overrides[id][left].windowDays) < cfg.overrides[id][left].minOutcomes)
  {
    var plain := cfg.(overrides := map[]);
    var left := Settled(plain, now, id, e).level;
    OneLevelDown(cfg, now, id, e);
    OneLevelDown(plain, now, id, e);
    if cfg.enabled && e.level >= 1 {
      SettlesWhere(plain, now, id, e);
      SettlesWhere(cfg, now, id, e);
      if id in cfg.overrides && e.level in cfg.overrides[id] {
        OverrideDecides(cfg, now, id, e);
      }
      if Decay(plain, now, id, e) != e {
        DefaultOfPlain(cfg, now, id, e);
        DecaysWithOverride(cfg, now, id, e);
        assert forall l :: left < l <= e.level ==> Governed(plain, id, l) && Governed(cfg, id, l);
        if left == 0 || !Governed(cfg, id, left) {
          SettlesAt(cfg, now, id, e, left);
        }
      } else if !(id in cfg.overrides && e.level in cfg.overrides[id]) {
        SamePolicy(cfg, now, id, e);
      }
    }
  }

  lemma DefaultOfPlain(cfg: Config, now: int, id: string, e: Entry)
    requires Decay(cfg.(overrides := map[]), now, id, e) != e
    ensures cfg.enabled && e.level >= 1 && e.level in cfg.defaults
  {
  }

  lemma SamePolicy(cfg: Config, now: int, id: string, e: Entry)
    requires !(id in cfg.overrides && e.level in cfg.overrides[id])
    ensures Decay(cfg, now, id, e) == Decay(cfg.(overrides := map[]), now, id, e)
  {
  }

  /** A capability that the default demotes, an accepted override demotes too. */
  lemma DecaysWithOverride(cfg: Config, now: int, id: string, e: Entry)
    requires ValidConfig(cfg) && Decay(cfg.(overrides := map[]), now, id, e) != e
    ensures Decay(cfg, now, id, e) != e
  {
    OverridesNeverRaise(cfg, now, id, e);
    SettlesWhere(cfg, now, id, e);
    SettlesWhere(cfg.(overrides := map[]), now, id, e);
  }
}
