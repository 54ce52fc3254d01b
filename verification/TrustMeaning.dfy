/** What outcomes, failures and the demotion handlers do to one capability, read off its entry
    (orchestrator/capability_state.py, orchestrator/demotion_engine.py, orchestrator/startup.py). */
module TrustMeaning {
  import opened Bytes
  import opened CapabilityState
  import opened TrustLevels

  // ---------------------------------------------------------------- which failures are kept

  /** The failures of less than 24 hours ago. */
  ghost function Young(failures: seq<Failure>, now: int): set<int> {
    set i | 0 <= i < |failures| && now - failures[i].time < 24 * 60 * 60
  }

  /** `at` lists, in order, the positions of the failures younger than 24 hours, and `kept` is what
      stands there. */
  ghost predicate Picks(failures: seq<Failure>, now: int, kept: seq<Failure>, at: seq<int>) {
    && |at| == |kept| == |Young(failures, now)|
    && (forall i :: i in at <==> i in Young(failures, now))
    && (forall j, k :: 0 <= j < k < |at| ==> at[j] < at[k])
    && (forall k :: 0 <= k < |at| ==> 0 <= at[k] < |failures| && kept[k] == failures[at[k]])
  }

  /** Exactly those are kept. */
  lemma {:induction false} RecentKeepsYoung(failures: seq<Failure>, now: int) returns (at: seq<int>)
    ensures Picks(failures, now, Recent(failures, now), at)
    decreases |failures|
  {
    if |failures| == 0 {
      at := [];
    } else {
      var n := |failures| - 1;
      at := RecentKeepsYoung(failures[..n], now);
      YoungNext(failures, now);
      var kept := Recent(failures[..n], now);
      if now - failures[n].time < 24 * 60 * 60 {
        assert Recent(failures, now) == kept + [failures[n]];
        hide Recent, Young;
        PickOne(failures, now, kept, at);
        at := at + [n];
      } else {
        assert Recent(failures, now) == kept;
        hide Recent, Young;
      }
    }
  }

  lemma PickOne(failures: seq<Failure>, now: int, kept: seq<Failure>, at: seq<int>)
    requires |failures| > 0 && Picks(failures[..|failures| - 1], now, kept, at)
    requires Young(failures, now) == Young(failures[..|failures| - 1], now) + {|failures| - 1}
    requires |failures| - 1 !in Young(failures[..|failures| - 1], now)
    ensures Picks(failures, now, kept + [failures[|failures| - 1]], at + [|failures| - 1])
  {
    hide Young;
  }

  lemma YoungNext(failures: seq<Failure>, now: int)
    requires |failures| > 0
    ensures var n := |failures| - 1;
      var rest := Young(failures[..n], now);
      n !in rest && Young(failures, now) == if now - failures[n].time < 24 * 60 * 60 then rest + {n} else rest
  {
  }

  // ---------------------------------------------------------------- what one change of level writes

  /** Only this capability's entry changes, and these events are added. */
  predicate Writes(t: Trust, t': Trust, id: string, e: Entry, added: seq<WalEvent>) {
    t'.entries == t.entries[id := e] && t'.events == t.events + added
  }

  /** The level permissions are checked against. */
  function Standing(e: Entry): int {
    if e.suspended then -1 else e.level
  }

  /** The capability stands at `to`, suspended exactly at -1, with cleared counters and the source of the
      demotion, if it names one, as its last incident; one event tells from where and why. */
  ghost predicate Demotes(t: Trust, t': Trust, id: string, to: int, trigger: string, source: Option<string>, now: int)
    requires id in t.entries
  {
    var e := t.entries[id];
    var incident := if source == None || source == Some("") then e.incident else source;
    Writes(t, t', id, Entry(to, to == -1, [], [], None, now, incident), [Demoted(id, Standing(e), to, trigger)])
  }

  /** A strip failure suspends context.package, whoever failed; one already suspended, or not
      configured, stays as it is. */
  lemma StripMeaning(t: Trust, registry: seq<Cap>, source: string, now: int)
    ensures var (t', verdict) := StripFailure(t, registry, source, now);
      var configured := exists i :: 0 <= i < |registry| && registry[i].id == "context.package";
      && (!configured ==> t' == t && verdict == Unchanged)
      && (configured && "context.package" !in t.entries ==> t' == t && verdict == UnknownCapability)
      && (configured && "context.package" in t.entries ==>
            var from := Standing(t.entries["context.package"]);
            if from == -1 then t' == t && verdict == Unchanged
            else verdict == Demotion(from, -1) && Demotes(t, t', "context.package", -1, "strip_failure", Some(source), now))
  {
  }

  /** A failure of a configured capability is kept with those of less than 24 hours ago; when that
      makes three, a capability above level 0 goes down one level. The three sentinels and
      capabilities without configuration are ignored. */
  lemma FailureMeaning(t: Trust, registry: seq<Cap>, id: string, failure: Failure, now: int)
    ensures var (t', verdict) := JobFailure(t, registry, id, failure, now);
      var counts := id !in {"egress_config", "egress_connectivity", "worker_sandbox"}
        && exists i :: 0 <= i < |registry| && registry[i].id == id;
      && (!counts ==> t' == t && verdict == Unchanged)
      && (counts && id !in t.entries ==> t' == t && verdict == UnknownCapability)
      && (counts && id in t.entries ==>
            var e := t.entries[id];
            if |Young(e.failures + [failure], now)| >= 3 && Standing(e) > 0
            then
              && verdict == Demotion(Standing(e), Standing(e) - 1)
              && Demotes(t, t', id, Standing(e) - 1, "error", Some(failure.source), now)
            else
              && verdict == Unchanged
              && Writes(t, t', id, e.(failures := Recent(e.failures + [failure], now)), []))
  {
    if id in t.entries {
      var _ := RecentKeepsYoung(t.entries[id].failures + [failure], now);
    }
    hide Recent;
  }

  /** A cancel or redirect costs the governing capability one level from level 1 on, unless the job had
      failed on one of the three sentinels; no other override costs anything. */
  lemma OverrideMeaning(t: Trust, cancelOrRedirect: bool, id: string, prior: Option<string>, source: string, now: int)
    ensures var (t', verdict) := OverrideDemotion(t, cancelOrRedirect, id, prior, source, now);
      && (!cancelOrRedirect ==> t' == t && verdict == Unchanged)
      && (cancelOrRedirect && id !in t.entries ==> t' == t && verdict == UnknownCapability)
      && (cancelOrRedirect && id in t.entries ==>
            var from := Standing(t.entries[id]);
            var excused := prior in {Some("egress_config"), Some("egress_connectivity"), Some("worker_sandbox")};
            if from >= 1 && !excused
            then verdict == Demotion(from, from - 1) && Demotes(t, t', id, from - 1, "override", Some(source), now)
            else t' == t && verdict == Unchanged)
  {
  }

  // ---------------------------------------------------------------- approval

  ghost function With(outcomes: seq<Outcome>, ds: set<Disposition>): set<int> {
    set i | 0 <= i < |outcomes| && outcomes[i].disposition in ds
  }

  /** Accepted and automatically delivered outcomes count fully, modified ones half, others nothing. */
  lemma {:induction false} ScoreMeaning(outcomes: seq<Outcome>)
    ensures DoubleTotal(outcomes) == 2 * |With(outcomes, {AcceptedAsIs, AutoDelivered})| + |With(outcomes, {Modified})|
    decreases |outcomes|
  {
    if |outcomes| > 0 {
      var n := |outcomes| - 1;
      ScoreMeaning(outcomes[..n]);
      WithNext(outcomes, {AcceptedAsIs, AutoDelivered});
      WithNext(outcomes, {Modified});
      hide With;
    }
  }

  lemma WithNext(outcomes: seq<Outcome>, ds: set<Disposition>)
    requires |outcomes| > 0
    ensures var n := |outcomes| - 1;
      |With(outcomes, ds)| == |With(outcomes[..n], ds)| + if outcomes[n].disposition in ds then 1 else 0
  {
    var n := |outcomes| - 1;
    var rest := With(outcomes[..n], ds);
    assert With(outcomes, ds) == if outcomes[n].disposition in ds then rest + {n} else rest;
  }

  /** A capability at level 3 whose outcomes score less than 99 percent on average goes to level 2; any
      other stays as it is. */
  lemma ApprovalMeaning(t: Trust, id: string, now: int)
    ensures var (t', verdict) := ApprovalDecay(t, id, now);
      && (id !in t.entries ==> t' == t && verdict == UnknownCapability)
      && (id in t.entries ==>
            var e := t.entries[id];
            var full, half := |With(e.outcomes, {AcceptedAsIs, AutoDelivered})|, |With(e.outcomes, {Modified})|;
            if Standing(e) == 3 && (full as real) + (half as real) / 2.0 < 0.99 * (|e.outcomes| as real)
            then verdict == Demotion(3, 2) && Demotes(t, t', id, 2, "anomaly", None, now)
            else t' == t && verdict == Unchanged)
  {
    if id in t.entries {
      ScoreMeaning(t.entries[id].outcomes);
      hide With;
    }
  }

  // ---------------------------------------------------------------- a model change

  /** A capability that was mentioned and not at level 0 stands there with cleared counters; any other is as
      before. */
  ghost predicate Zeroed(before: Entry, after: Entry, mentioned: bool, source: Option<string>, now: int) {
    if mentioned && Standing(before) != 0
    then after == Entry(0, false, [], [], None, now, if source == None || source == Some("") then before.incident else source)
    else after == before
  }

  /** How many of the listed capabilities are known before the first unknown one. */
  function KnownFirst(ids: seq<string>, entries: Entries): (n: nat)
    ensures n <= |ids|
    decreases |ids|
  {
    if |ids| == 0 || ids[0] !in entries then 0 else 1 + KnownFirst(ids[1..], entries)
  }

  /** Only demotions to level 0 by a model change are added. */
  ghost predicate OnlyModelChanges(t: Trust, t': Trust) {
    && t.events <= t'.events
    && forall k :: |t.events| <= k < |t'.events| ==>
         t'.events[k].Demoted? && t'.events[k].to == 0 && t'.events[k].trigger == "model_change"
  }

  /** A model change takes every listed capability up to the first unknown one to level 0, and touches
      no other; it succeeds when all are known. */
  lemma {:induction false} ModelChangeMeaning(t: Trust, ids: seq<string>, source: Option<string>, now: int)
    ensures var (t', ok) := ModelChange(t, ids, source, now);
      var n := KnownFirst(ids, t.entries);
      && ok == (n == |ids|) && t'.entries.Keys == t.entries.Keys
      && (forall id :: id in t.entries ==> Zeroed(t.entries[id], t'.entries[id], id in ids[..n], source, now))
    decreases |ids|
  {
    if |ids| > 0 && ids[0] in t.entries {
      var next := if Standing(t.entries[ids[0]]) == 0 then t else Execute(t, ids[0], 0, "model_change", source, now);
      var t', n := ModelChange(t, ids, source, now).0, KnownFirst(ids, t.entries);
      ModelChangeMeaning(next, ids[1..], source, now);
      SameKnown(ids[1..], t.entries, next.entries);
      assert ids[..n] == [ids[0]] + ids[1..][..n - 1];
      assert Demotes(t, next, ids[0], 0, "model_change", source, now) || next == t;
      hide ModelChange, Execute, KnownFirst;
      forall id | id in t.entries ensures Zeroed(t.entries[id], t'.entries[id], id in ids[..n], source, now) {
        assert Zeroed(next.entries[id], t'.entries[id], id in ids[1..][..n - 1], source, now);
      }
    }
  }

  /** Each of those changes is one event. */
  lemma {:induction false} ModelChangeEvents(t: Trust, ids: seq<string>, source: Option<string>, now: int)
    ensures OnlyModelChanges(t, ModelChange(t, ids, source, now).0)
    decreases |ids|
  {
    if |ids| > 0 && ids[0] in t.entries {
      var next := if Standing(t.entries[ids[0]]) == 0 then t else Execute(t, ids[0], 0, "model_change", source, now);
      ModelChangeEvents(next, ids[1..], source, now);
    }
  }

  lemma {:induction false} SameKnown(ids: seq<string>, a: Entries, b: Entries)
    requires a.Keys == b.Keys
    ensures KnownFirst(ids, a) == KnownFirst(ids, b)
    decreases |ids|
  {
    if |ids| > 0 && ids[0] in a {
      SameKnown(ids[1..], a, b);
    }
  }

  // ---------------------------------------------------------------- reconciliation

  /** A capability that stands where its configuration wants it stays. One below is raised, active and
      with its counters; one above goes down with cleared counters, as a manual demotion. */
  lemma ReconcileMeaning(t: Trust, cap: Cap, now: int)
    requires cap.id in t.entries
    ensures var t', e := ReconcileOne(t, cap, now), t.entries[cap.id];
      && (Standing(e) == cap.desired ==> t' == t)
      && (Standing(e) < cap.desired ==>
            Writes(t, t', cap.id, e.(level := cap.desired, suspended := false),
                   [Promoted(cap.id, Standing(e), cap.desired)]))
      && (Standing(e) > cap.desired ==> Demotes(t, t', cap.id, cap.desired, "manual", None, now))
  {
  }

  // ---------------------------------------------------------------- three failures in a day

  /** A capability without failures fails three times, each reported as it happens: the first two
      change no level, and the third costs one exactly when the first was less than 24 hours before. */
  lemma ThirdFailure(t: Trust, registry: seq<Cap>, id: string, a: Failure, b: Failure, c: Failure)
    requires id !in {"egress_config", "egress_connectivity", "worker_sandbox"} && Registered(registry, id)
    requires id in t.entries && t.entries[id].failures == [] && Standing(t.entries[id]) > 0
    requires a.time <= b.time <= c.time
    ensures var (t1, v1) := JobFailure(t, registry, id, a, a.time);
      var (t2, v2) := JobFailure(t1, registry, id, b, b.time);
      var (t3, v3) := JobFailure(t2, registry, id, c, c.time);
      && v1 == v2 == Unchanged && id in t2.entries && Standing(t2.entries[id]) == Standing(t.entries[id])
      && (c.time - a.time < 24 * 60 * 60 <==> v3 == Demotion(Standing(t.entries[id]), Standing(t.entries[id]) - 1))
      && (c.time - a.time >= 24 * 60 * 60 <==> v3 == Unchanged)
  {
    hide JobFailure, Recent, Registered;
    var t2 := JobFailure(JobFailure(t, registry, id, a, a.time).0, registry, id, b, b.time).0;
    var two := TwoFailures(t, registry, id, a, b);
    KeptOfThree(two, a, b, c);
    FailureStep(t2, registry, id, c, c.time, Recent(two + [c], c.time));
  }

  /** All three are kept exactly when the first is less than a day old. */
  lemma KeptOfThree(two: seq<Failure>, a: Failure, b: Failure, c: Failure)
    requires a.time <= b.time <= c.time && two == if b.time - a.time < 24 * 60 * 60 then [a, b] else [b]
    ensures |Recent(two + [c], c.time)| >= 3 <==> c.time - a.time < 24 * 60 * 60
  {
    hide Recent;
    var three := two + [c];
    KeptOf(three, c.time);
    if |two| == 2 {
      assert three == [a, b, c] && three[0] == a && three[1] == b && three[2] == c;
    }
  }

  /** After the first two: no level lost, and the first is forgotten if it was a day before. */
  lemma TwoFailures(t: Trust, registry: seq<Cap>, id: string, a: Failure, b: Failure) returns (two: seq<Failure>)
    requires id !in {"egress_config", "egress_connectivity", "worker_sandbox"} && Registered(registry, id)
    requires id in t.entries && t.entries[id].failures == [] && Standing(t.entries[id]) > 0
    ensures two == if b.time - a.time < 24 * 60 * 60 then [a, b] else [b]
    ensures var (t1, v1) := JobFailure(t, registry, id, a, a.time);
      var (t2, v2) := JobFailure(t1, registry, id, b, b.time);
      && v1 == v2 == Unchanged && id in t2.entries && t2.entries[id] == t.entries[id].(failures := two)
  {
    two := if b.time - a.time < 24 * 60 * 60 then [a, b] else [b];
    assert [] + [a] == [a] && [a] + [b] == [a, b];
    KeptOf([a], a.time);
    KeptOf([a, b], b.time);
    FailureStep(t, registry, id, a, a.time, [a]);
    var t1 := JobFailure(t, registry, id, a, a.time).0;
    FailureStep(t1, registry, id, b, b.time, two);
    hide JobFailure, Recent;
  }

  /** At most three failures, unfolded. */
  lemma KeptOf(failures: seq<Failure>, now: int)
    requires 1 <= |failures| <= 3
    ensures |failures| == 1 ==>
      Recent(failures, now) == if now - failures[0].time < 24 * 60 * 60 then [failures[0]] else []
    ensures |failures| == 2 && now == failures[1].time ==>
      Recent(failures, now) == if now - failures[0].time < 24 * 60 * 60 then failures else [failures[1]]
    ensures |Recent(failures, now)| == |failures| <==> forall i :: 0 <= i < |failures| ==> now - failures[i].time < 24 * 60 * 60
    ensures |Recent(failures, now)| <= |failures|
  {
    var at := RecentKeepsYoung(failures, now);
    assert failures[..|failures| - 1] + [failures[|failures| - 1]] == failures;
  }

  lemma FailureStep(t: Trust, registry: seq<Cap>, id: string, failure: Failure, now: int, kept: seq<Failure>)
    requires id !in {"egress_config", "egress_connectivity", "worker_sandbox"} && Registered(registry, id)
    requires id in t.entries && Standing(t.entries[id]) > 0
    requires kept == Recent(t.entries[id].failures + [failure], now)
    ensures var (t', verdict) := JobFailure(t, registry, id, failure, now);
      && id in t'.entries
      && (|kept| >= 3 <==> verdict == Demotion(Standing(t.entries[id]), Standing(t.entries[id]) - 1))
      && (|kept| < 3 <==> verdict == Unchanged)
      && (|kept| < 3 ==> t'.entries[id] == t.entries[id].(failures := kept))
  {
    hide Recent;
  }
}
