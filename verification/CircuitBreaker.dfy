/** Per-route circuit breakers with hysteresis (orchestrator/connectivity_monitor.py), against a
    specification that looks at the whole probe history. */
module CircuitBreaker {
  import opened Bytes

  const FAILURES_TO_OPEN := 2
  const SUCCESSES_TO_CLOSED := 3

  datatype Circuit = Closed | Open | HalfOpen

  datatype RouteHealth = RouteHealth(
    state: Circuit,
    failures: nat,
    successes: nat,
    lastProbe: Option<int>,
    lastSuccess: Option<int>,
    lastFailure: Option<int>)

  const HEALTHY := RouteHealth(Closed, 0, 0, None, None, None)

  // ---------------------------------------------------------------- the history specification

  /** Length of the run of `v` at the end. */
  function Trailing(h: seq<bool>, v: bool): (n: nat)
    ensures n <= |h|
    decreases |h|
  {
    if |h| > 0 && h[|h| - 1] == v then Trailing(h[..|h| - 1], v) + 1 else 0
  }

  /** Where the latest run of `n` times `v` ends; 0 when there is none. */
  function LatestRun(h: seq<bool>, v: bool, n: nat): (e: nat)
    requires n > 0
    ensures e <= |h|
    decreases |h|
  {
    if Trailing(h, v) >= n then |h|
    else if |h| == 0 then 0
    else LatestRun(h[..|h| - 1], v, n)
  }

  /** Open when the history ends in two failures; half-open when the latest of "two failures" and
      "three successes" is the former; closed otherwise. */
  function Expected(h: seq<bool>): Circuit {
    if Trailing(h, false) >= FAILURES_TO_OPEN then Open
    else if LatestRun(h, false, FAILURES_TO_OPEN) > LatestRun(h, true, SUCCESSES_TO_CLOSED) then HalfOpen
    else Closed
  }

  predicate RunEndsAt(h: seq<bool>, v: bool, n: nat, e: nat) {
    n <= e <= |h| && forall k :: e - n <= k < e ==> h[k] == v
  }

  lemma {:induction false} TrailingMeaning(h: seq<bool>, v: bool, n: nat)
    ensures Trailing(h, v) >= n <==> RunEndsAt(h, v, n, |h|)
    decreases |h|
  {
    if n > 0 && |h| > 0 {
      var init := h[..|h| - 1];
      TrailingMeaning(init, v, n - 1);
      assert RunEndsAt(h, v, n, |h|) <==> h[|h| - 1] == v && RunEndsAt(init, v, n - 1, |init|);
    }
  }

  /** The latest run is a run, and none ends later. */
  lemma {:induction false} LatestRunMeaning(h: seq<bool>, v: bool, n: nat, e: nat)
    requires n > 0 && 0 < e <= |h|
    ensures LatestRun(h, v, n) > 0 ==> RunEndsAt(h, v, n, LatestRun(h, v, n))
    ensures RunEndsAt(h, v, n, e) ==> e <= LatestRun(h, v, n)
    decreases |h|
  {
    TrailingMeaning(h, v, n);
    if Trailing(h, v) < n {
      var init := h[..|h| - 1];
      if |init| > 0 {
        LatestRunMeaning(init, v, n, if e < |h| then e else 1);
        assert e < |h| ==> (RunEndsAt(h, v, n, e) <==> RunEndsAt(init, v, n, e));
        assert LatestRun(h, v, n) == LatestRun(init, v, n) < |h|;
        assert forall k :: 0 <= k < |init| ==> init[k] == h[k];
      }
    }
  }

  // ---------------------------------------------------------------- the state machine

  /** State after a probe that leaves these counters. */
  function Transition(before: Circuit, failures: nat, successes: nat): Circuit {
    if failures >= FAILURES_TO_OPEN then Open
    else if successes >= SUCCESSES_TO_CLOSED then Closed
    else if before == Open && successes >= 1 then HalfOpen
    else before
  }

  lemma TrailingStep(h: seq<bool>, b: bool)
    ensures Trailing(h + [b], b) == Trailing(h, b) + 1 && Trailing(h + [b], !b) == 0
  {
    assert (h + [b])[..|h|] == h;
  }

  lemma LatestRunStep(h: seq<bool>, b: bool, v: bool, n: nat)
    requires n > 0
    ensures LatestRun(h + [b], v, n) == if Trailing(h + [b], v) >= n then |h| + 1 else LatestRun(h, v, n)
  {
    assert (h + [b])[..|h|] == h;
  }

  lemma TrailingExclusive(h: seq<bool>, v: bool)
    ensures Trailing(h, v) > 0 ==> Trailing(h, !v) == 0
  {
  }

  /** Two runs never end at the same place. */
  lemma {:induction false} RunsDiffer(h: seq<bool>)
    ensures LatestRun(h, false, FAILURES_TO_OPEN) == LatestRun(h, true, SUCCESSES_TO_CLOSED)
      ==> LatestRun(h, false, FAILURES_TO_OPEN) == 0
    decreases |h|
  {
    TrailingExclusive(h, true);
    TrailingExclusive(h, false);
    if |h| > 0 {
      RunsDiffer(h[..|h| - 1]);
    }
  }

  /** The counters and the previous state are enough: one step follows the whole history. */
  lemma TransitionRefines(h: seq<bool>, b: bool)
    ensures Expected(h + [b]) == Transition(Expected(h), Trailing(h + [b], false), Trailing(h + [b], true))
  {
    hide LatestRun, Trailing;
    TrailingStep(h, b);
    LatestRunStep(h, b, false, FAILURES_TO_OPEN);
    LatestRunStep(h, b, true, SUCCESSES_TO_CLOSED);
    OpenRuns(h);
  }

  lemma OpenRuns(h: seq<bool>)
    ensures Trailing(h, false) >= FAILURES_TO_OPEN ==>
      LatestRun(h, false, FAILURES_TO_OPEN) == |h| > LatestRun(h, true, SUCCESSES_TO_CLOSED)
  {
    if Trailing(h, false) >= FAILURES_TO_OPEN {
      TrailingExclusive(h, false);
    }
  }

  /** What the monitor knows of a route after a history of probes. */
  ghost predicate Follows(rh: RouteHealth, h: seq<bool>) {
    rh.state == Expected(h) && rh.failures == Trailing(h, false) && rh.successes == Trailing(h, true)
  }

  /** The latest state announced for a route; none means closed. */
  function Announced(events: seq<(string, Circuit)>, id: string): Circuit
    decreases |events|
  {
    if |events| == 0 then Closed
    else
      var e := events[|events| - 1];
      if e.0 == id then e.1 else Announced(events[..|events| - 1], id)
  }

  /** Counters, times and state after one probe. */
  method Updated(before: RouteHealth, success: bool, now: int, ghost h: seq<bool>) returns (rh: RouteHealth)
    requires Follows(before, h)
    ensures Follows(rh, h + [success]) && rh.lastProbe == before.lastProbe
    ensures rh.lastSuccess == if success then Some(now) else before.lastSuccess
    ensures rh.lastFailure == if success then before.lastFailure else Some(now)
  {
    hide Expected, Trailing;
    TrailingStep(h, success);
    TransitionRefines(h, success);
    rh := before;
    if success {
      rh := rh.(successes := rh.successes + 1, failures := 0, lastSuccess := Some(now));
    } else {
      rh := rh.(failures := rh.failures + 1, successes := 0, lastFailure := Some(now));
    }
    var newState := before.state;
    if rh.failures >= FAILURES_TO_OPEN {
      newState := Open;
    } else if rh.successes >= SUCCESSES_TO_CLOSED {
      newState := Closed;
    } else if before.state == Open && rh.successes >= 1 {
      newState := HalfOpen;
    } else if before.state == Closed && rh.failures == 1 {
      newState := Closed;
    }
    rh := rh.(state := newState);
  }

  ghost predicate Tracks(health: Routes, history: map<string, seq<bool>>, events: seq<(string, Circuit)>) {
    && history.Keys == health.Keys
    && forall id :: id in health ==> Follows(health[id], history[id]) && Announced(events, id) == health[id].state
  }

  /** Outside `pending`, the rows hold the health of every route probed so far. */
  ghost predicate Mirrors(health: Routes, rows: Routes, pending: set<string>) {
    forall id :: id in health && id !in pending ==> if id in rows then rows[id] == health[id] else health[id] == HEALTHY
  }

  lemma TracksStep(health: Routes, history: map<string, seq<bool>>, events: seq<(string, Circuit)>,
                   id: string, rh: RouteHealth, h: seq<bool>)
    requires Tracks(health, history, events) && id in health && Follows(rh, h)
    ensures Tracks(health[id := rh], history[id := h],
      if rh.state == health[id].state then events else events + [(id, rh.state)])
  {
    hide Follows, Announced;
    AnnouncedOne(events, (id, rh.state));
  }

  lemma TracksHealth(health: Routes, history: map<string, seq<bool>>, events: seq<(string, Circuit)>, id: string)
    requires Tracks(health, history, events) && id in health
    ensures id in history && Follows(health[id], history[id])
  {
  }

  lemma ProbedTracks(health: Routes, history: map<string, seq<bool>>, events: seq<(string, Circuit)>, id: string, now: int)
    requires Tracks(health, history, events) && id in health
    ensures id in history
    ensures Tracks(health[id := health[id].(lastProbe := Some(now))], history, events)
  {
    hide Announced, Expected, Trailing;
  }

  /** The row of a route lags behind until it is written. */
  lemma MirrorsUpdate(health: Routes, rows: Routes, id: string, rh: RouteHealth)
    ensures Mirrors(health, rows, {}) ==> Mirrors(health[id := rh], rows, {id})
  {
  }

  lemma MirrorsWrite(health: Routes, rows: Routes, id: string, rh: RouteHealth)
    ensures Mirrors(health, rows, {id}) ==> Mirrors(health[id := rh], rows[id := rh], {})
  {
  }

  lemma UpdateTwice<K, V>(m: map<K, V>, k: K, a: V, b: V)
    ensures m[k := a][k := b] == m[k := b]
  {
  }

  type Routes = map<string, RouteHealth>

  class ConnectivityMonitor {
    var health: Routes
    var rows: Routes
    var events: seq<(string, Circuit)>
    const durable: bool
    ghost var history: map<string, seq<bool>>

    /** Health follows the history, the events announce it, and the rows repeat it. */
    ghost predicate Valid()
      reads this
    {
      Tracks(health, history, events) && (durable ==> Mirrors(health, rows, {}))
    }

    constructor (routes: set<string>, durable: bool)
      ensures Valid() && health.Keys == routes && this.durable == durable
      ensures forall id :: id in routes ==> history[id] == []
    {
      this.durable := durable;
      health := map id | id in routes :: HEALTHY;
      rows, events := map[], [];
      history := map id | id in routes :: [];
    }

    /** Restart over the rows of the previous monitor: nothing is forgotten. */
    constructor Restart(previous: ConnectivityMonitor)
      requires previous.Valid() && previous.durable
      ensures Valid() && durable
      ensures health == previous.health && rows == previous.rows && history == previous.history
    {
      durable := true;
      health := map id | id in previous.health :: if id in previous.rows then previous.rows[id] else HEALTHY;
      rows, events, history := previous.rows, previous.events, previous.history;
    }

    /** `_record_result`: counters, transition, write-through, and an event on a change. */
    method RecordResult(id: string, success: bool, now: int)
      requires Tracks(health, history, events) && (durable ==> Mirrors(health, rows, {id})) && id in health
      modifies this
      ensures Valid()
      ensures history == old(history)[id := old(history)[id] + [success]]
      ensures health == old(health)[id := health[id]]
      ensures health[id].lastProbe == old(health)[id].lastProbe
      ensures health[id].lastSuccess == (if success then Some(now) else old(health)[id].lastSuccess)
      ensures health[id].lastFailure == (if success then old(health)[id].lastFailure else Some(now))
      ensures events == if health[id].state == old(health)[id].state then old(events)
        else old(events) + [(id, health[id].state)]
    {
      TracksHealth(health, history, events, id);
      hide Follows, Tracks, Mirrors;
      var oldState := health[id].state;
      var rh := Updated(health[id], success, now, history[id]);
      TracksStep(health, history, events, id, rh, history[id] + [success]);
      MirrorsWrite(health, rows, id, rh);
      health := health[id := rh];
      history := history[id := history[id] + [success]];
      if durable {
        rows := rows[id := rh];
      }
      if rh.state != oldState {
        events := events + [(id, rh.state)];
      }
    }

    /** `probe_route`, given what the request made of the route; false for an unknown one. */
    method ProbeRoute(id: string, reachable: bool, now: int) returns (success: bool)
      requires Valid()
      modifies this
      ensures success == (id in old(health) && reachable)
      ensures Valid()
      ensures history == if id in old(health) then old(history)[id := old(history)[id] + [reachable]] else old(history)
      ensures if id in old(health) then health == old(health)[id := health[id]] && health[id].lastProbe == Some(now)
        else health == old(health)
    {
      if id !in health {
        return false;
      }
      hide Follows, Tracks, Mirrors;
      ProbedTracks(health, history, events, id, now);
      MirrorsUpdate(health, rows, id, health[id].(lastProbe := Some(now)));
      var probed := health[id].(lastProbe := Some(now));
      health := health[id := probed];
      RecordResult(id, reachable, now);
      UpdateTwice(old(health), id, probed, health[id]);
      return reachable;
    }

    method IsRouteAvailable(id: string) returns (available: bool)
      requires Valid()
      ensures available <==> id in health && Trailing(history[id], false) < FAILURES_TO_OPEN
    {
      if id !in health {
        return false;
      }
      return health[id].state == Closed || health[id].state == HalfOpen;
    }
  }

  lemma AnnouncedOne(events: seq<(string, Circuit)>, e: (string, Circuit))
    ensures forall id :: Announced(events + [e], id) == if e.0 == id then e.1 else Announced(events, id)
  {
    assert (events + [e])[..|events|] == events;
  }

  // ---------------------------------------------------------------- how often a route can trip

  /** Transitions from closed to open along the history. */
  function Trips(h: seq<bool>): nat
    decreases |h|
  {
    if |h| == 0 then 0
    else
      var init := h[..|h| - 1];
      Trips(init) + if Expected(init) == Closed && Expected(h) == Open then 1 else 0
  }

  /** Probes still owed before the next trip can be counted. */
  function Slack(h: seq<bool>): int {
    match Expected(h)
    case Closed => 0 - Trailing(h, false)
    case Open => 3
    case HalfOpen => 3 - Trailing(h, true)
  }

  lemma {:induction false} TripsWithinSlack(h: seq<bool>)
    ensures 5 * Trips(h) <= |h| + Slack(h)
    decreases |h|
  {
    hide Expected, Trailing, LatestRun;
    if |h| > 0 {
      var init, b := h[..|h| - 1], h[|h| - 1];
      assert h == init + [b];
      TripsWithinSlack(init);
      TransitionRefines(init, b);
      TrailingStep(init, b);
      TrailingExclusive(init, b);
      StateCounters(init);
    } else {
      NoProbes();
    }
  }

  lemma NoProbes()
    ensures Expected([]) == Closed && Trailing([], false) == 0 == Trailing([], true)
  {
  }

  /** Two failures in a row mean open, three successes in a row closed. */
  lemma StateCounters(h: seq<bool>)
    ensures Trailing(h, false) >= FAILURES_TO_OPEN <==> Expected(h) == Open
    ensures Trailing(h, true) >= SUCCESSES_TO_CLOSED ==> Expected(h) == Closed
  {
    TrailingExclusive(h, true);
    if Trailing(h, true) >= SUCCESSES_TO_CLOSED {
      assert LatestRun(h, true, SUCCESSES_TO_CLOSED) == |h|;
    }
  }

  /** n probes from the initial state cause at most (n + 3) / 5 transitions from closed to open. */
  lemma AtMostOneTripInFive(h: seq<bool>)
    ensures Trips(h) <= (|h| + 3) / 5
  {
    hide Expected, Trailing;
    TripsWithinSlack(h);
  }

  /** Two failures, three successes, and so on. */
  function Flapping(n: nat): seq<bool> {
    seq(n, k => k % 5 >= 2)
  }

  lemma PreviousRemainder(n: nat)
    requires n > 0
    ensures (n - 1) % 5 == if n % 5 == 0 then 4 else n % 5 - 1
    ensures (n + 3) / 5 == (n + 2) / 5 + if n % 5 == 2 then 1 else 0
  {
  }

  lemma {:induction false} FlappingStates(n: nat)
    ensures Expected(Flapping(n)) == if n % 5 == 0 || n % 5 == 1 then Closed else if n % 5 == 2 then Open else HalfOpen
    ensures n % 5 == 1 ==> Trailing(Flapping(n), false) == 1
    ensures n % 5 > 2 ==> Trailing(Flapping(n), true) == n % 5 - 2
    ensures n % 5 == 0 ==> Trailing(Flapping(n), false) == 0
    ensures n % 5 == 2 ==> Trailing(Flapping(n), true) == 0
    decreases n
  {
    hide Expected, Trailing;
    if n > 0 {
      FlappingStates(n - 1);
      PreviousRemainder(n);
      var init, b := Flapping(n - 1), (n - 1) % 5 >= 2;
      assert Flapping(n) == init + [b];
      TransitionRefines(init, b);
      TrailingStep(init, b);
    } else {
      assert Flapping(0) == [];
      NoProbes();
    }
  }

  /** The bound is reached for every number of probes. */
  lemma {:induction false} FlappingTrips(n: nat)
    ensures Trips(Flapping(n)) == (n + 3) / 5
    decreases n
  {
    hide Expected;
    if n > 0 {
      FlappingTrips(n - 1);
      PreviousRemainder(n);
      FlappingStates(n);
      FlappingStates(n - 1);
      assert Flapping(n)[..n - 1] == Flapping(n - 1);
    }
  }
}
