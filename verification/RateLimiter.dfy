/** Sliding-window limiter of requests per minute (egress-gateway/rate_limiter.py). Times are real
    seconds of a monotonic clock. */
module RateLimiter {

  const WINDOW := 60.0

  /** The times later than `cutoff`, in order. */
  function Later(times: seq<real>, cutoff: real): seq<real>
    decreases |times|
  {
    if |times| == 0 then []
    else Later(times[..|times| - 1], cutoff) + if times[|times| - 1] > cutoff then [times[|times| - 1]] else []
  }

  /** Pruning twice is pruning at the later cutoff. */
  lemma {:induction false} LaterTwice(times: seq<real>, a: real, b: real)
    requires a <= b
    ensures Later(Later(times, a), b) == Later(times, b)
    decreases |times|
  {
    if |times| > 0 {
      var init, t := times[..|times| - 1], times[|times| - 1];
      LaterTwice(init, a, b);
      if t > a {
        assert (Later(init, a) + [t])[..|Later(init, a)|] == Later(init, a);
      } else {
        assert Later(times, a) == Later(init, a);
      }
    }
  }

  lemma LaterAppend(times: seq<real>, t: real, cutoff: real)
    ensures Later(times + [t], cutoff) == Later(times, cutoff) + if t > cutoff then [t] else []
  {
    assert (times + [t])[..|times|] == times;
  }

  // ---------------------------------------------------------------- the limiter

  /** Every request ever admitted on a route. */
  type Log = map<string, seq<real>>

  function Admitted(log: Log, route: string): seq<real> {
    if route in log then log[route] else []
  }

  /** Whether a request now is within the limit, judged on everything ever admitted. */
  predicate Allowed(admitted: seq<real>, limit: int, now: real) {
    |Later(admitted, now - WINDOW)| < limit
  }

  method Recent(timestamps: seq<real>, cutoff: real) returns (kept: seq<real>)
    ensures kept == Later(timestamps, cutoff)
  {
    kept := [];
    for i := 0 to |timestamps|
      invariant kept == Later(timestamps[..i], cutoff)
    {
      assert timestamps[..i + 1] == timestamps[..i] + [timestamps[i]];
      LaterAppend(timestamps[..i], timestamps[i], cutoff);
      if timestamps[i] > cutoff {
        kept := kept + [timestamps[i]];
      }
    }
    assert timestamps[..|timestamps|] == timestamps;
  }

  class SlidingWindowRateLimiter {
    var windows: map<string, seq<real>>
    ghost var log: Log
    ghost var clock: real

    /** Each window is the route's log, pruned at some cutoff that has already passed. */
    ghost predicate Valid()
      reads this
    {
      && windows.Keys == log.Keys
      && forall route :: route in windows ==> Pruned(windows[route], log[route], clock)
    }

    constructor ()
      ensures Valid() && log == map[]
    {
      windows, log, clock := map[], map[], 0.0;
    }

    /** Drops what is 60 seconds old or more. */
    method Prune(route: string, now: real)
      requires Valid() && clock <= now
      modifies this
      ensures Valid() && clock == now
      ensures log == old(log)[route := Admitted(old(log), route)]
      ensures windows == old(windows)[route := Later(log[route], now - WINDOW)]
    {
      hide Later;
      var timestamps := if route in windows then windows[route] else [];
      PruneAgain(timestamps, Admitted(log, route), clock, now);
      var kept := Recent(timestamps, now - WINDOW);
      windows := windows[route := kept];
      log := log[route := Admitted(log, route)];
      clock := now;
    }

    /** `check`: admits exactly when fewer than the limit were admitted in the last 60 seconds,
        although the limiter has forgotten older ones. */
    method Check(route: string, limit: int, now: real) returns (ok: bool)
      requires Valid() && clock <= now
      modifies this
      ensures Valid() && clock == now
      ensures ok == Allowed(Admitted(old(log), route), limit, now)
      ensures log == old(log)[route := if ok then Admitted(old(log), route) + [now] else Admitted(old(log), route)]
    {
      hide Later;
      Prune(route, now);
      if |windows[route]| >= limit {
        return false;
      }
      LaterAppend(log[route], now, now - WINDOW);
      windows := windows[route := windows[route] + [now]];
      log := log[route := log[route] + [now]];
      return true;
    }

    method CurrentCount(route: string, now: real) returns (count: nat)
      requires Valid() && clock <= now
      modifies this
      ensures Valid() && clock == now
      ensures count == |Later(Admitted(old(log), route), now - WINDOW)|
      ensures forall other :: Admitted(log, other) == Admitted(old(log), other)
    {
      Prune(route, now);
      return |windows[route]|;
    }
  }

  ghost predicate Pruned(window: seq<real>, admitted: seq<real>, clock: real) {
    exists cutoff: real :: cutoff <= clock - WINDOW && window == Later(admitted, cutoff)
  }

  lemma PruneAgain(window: seq<real>, admitted: seq<real>, clock: real, now: real)
    requires clock <= now && (Pruned(window, admitted, clock) || (window == [] && admitted == []))
    ensures Later(window, now - WINDOW) == Later(admitted, now - WINDOW)
    ensures forall w, a {:trigger Pruned(w, a, now)} :: Pruned(w, a, clock) ==> Pruned(w, a, now)
  {
    if Pruned(window, admitted, clock) {
      var cutoff: real :| cutoff <= clock - WINDOW && window == Later(admitted, cutoff);
      LaterTwice(admitted, cutoff, now - WINDOW);
    }
  }

  // ---------------------------------------------------------------- the limit over the whole history

  /** What one route has admitted after requests at these times under one limit. */
  function Admissions(limit: int, requests: seq<real>): seq<real>
    decreases |requests|
  {
    if |requests| == 0 then []
    else
      var before := Admissions(limit, requests[..|requests| - 1]);
      var now := requests[|requests| - 1];
      if Allowed(before, limit, now) then before + [now] else before
  }

  ghost predicate Ascending(times: seq<real>) {
    forall i, j :: 0 <= i < j < |times| ==> times[i] <= times[j]
  }

  function CountWithin(times: seq<real>, from: real, to: real): nat
    decreases |times|
  {
    if |times| == 0 then 0
    else CountWithin(times[..|times| - 1], from, to) + if from <= times[|times| - 1] < to then 1 else 0
  }

  lemma CountOneMore(times: seq<real>, t: real, from: real, to: real)
    ensures CountWithin(times + [t], from, to) == CountWithin(times, from, to) + if from <= t < to then 1 else 0
  {
    assert (times + [t])[..|times|] == times;
  }

  /** Within a window that starts after the cutoff, no more are counted than are kept. */
  lemma {:induction false} CountedAreLater(times: seq<real>, from: real, to: real, cutoff: real)
    requires cutoff < from
    ensures CountWithin(times, from, to) <= |Later(times, cutoff)|
    decreases |times|
  {
    if |times| > 0 {
      CountedAreLater(times[..|times| - 1], from, to, cutoff);
    }
  }

  /** Any half-open window of 60 seconds or less contains at most `limit` admitted requests (none
      for a negative limit), over the whole history of a route. */
  lemma {:induction false} WindowNeverExceedsLimit(limit: int, requests: seq<real>, from: real, to: real)
    requires Ascending(requests) && to - from <= 60.0
    ensures CountWithin(Admissions(limit, requests), from, to) <= if limit > 0 then limit else 0
    decreases |requests|
  {
    if |requests| > 0 {
      var n := |requests| - 1;
      var before, now := Admissions(limit, requests[..n]), requests[n];
      WindowNeverExceedsLimit(limit, requests[..n], from, to);
      if Allowed(before, limit, now) {
        CountOneMore(before, now, from, to);
        if from <= now < to {
          CountedAreLater(before, from, to, now - WINDOW);
        }
      }
    }
  }

  /** A closed window can hold one request more: the limiter forgets a request after exactly 60
      seconds. */
  lemma ClosedWindowMayExceed()
    ensures Admissions(1, [0.0, 60.0]) == [0.0, 60.0]
  {
    assert [0.0, 60.0][..1] == [0.0] && [0.0][..0] == [];
    assert Admissions(1, [0.0]) == [0.0];
    assert Later([0.0], 0.0) == [];
  }

  /** A request is refused exactly when the preceding 60 seconds are full. */
  lemma RefusedOnlyWhenFull(limit: int, requests: seq<real>, now: real)
    ensures Admissions(limit, requests + [now]) == Admissions(limit, requests)
      <==> CountAfter(Admissions(limit, requests), now - 60.0) >= limit
  {
    hide Later;
    var before := Admissions(limit, requests);
    assert (requests + [now])[..|requests|] == requests;
    CountAfterIsLater(before, now - WINDOW);
  }

  /** Number of positions with a time later than `cutoff`. */
  function CountAfter(times: seq<real>, cutoff: real): nat {
    |set i | 0 <= i < |times| && times[i] > cutoff|
  }

  lemma {:induction false} CountAfterIsLater(times: seq<real>, cutoff: real)
    ensures CountAfter(times, cutoff) == |Later(times, cutoff)|
    decreases |times|
  {
    if |times| > 0 {
      var init := times[..|times| - 1];
      CountAfterIsLater(init, cutoff);
      var all, earlier := (set i | 0 <= i < |times| && times[i] > cutoff), (set i | 0 <= i < |init| && init[i] > cutoff);
      assert all == earlier + if times[|times| - 1] > cutoff then {|times| - 1} else {};
      assert |times| - 1 !in earlier;
    }
  }

  lemma AdmissionsStep(limit: int, requests: seq<real>, now: real)
    ensures Admissions(limit, requests + [now])
      == if Allowed(Admissions(limit, requests), limit, now) then Admissions(limit, requests) + [now] else Admissions(limit, requests)
  {
    assert (requests + [now])[..|requests|] == requests;
  }

  // ---------------------------------------------------------------- runs of the class

  datatype Call =
    | Request(route: string, limit: int, now: real)
    | Count(route: string, now: real)

  /** When a route was asked for. */
  function RequestsTo(calls: seq<Call>, route: string): seq<real>
    decreases |calls|
  {
    if |calls| == 0 then []
    else
      var before, call := RequestsTo(calls[..|calls| - 1], route), calls[|calls| - 1];
      if call.Request? && call.route == route then before + [call.now] else before
  }

  ghost predicate UnderLimit(calls: seq<Call>, route: string, limit: int) {
    forall i :: 0 <= i < |calls| && calls[i].Request? && calls[i].route == route ==> calls[i].limit == limit
  }

  ghost predicate InOrder(calls: seq<Call>) {
    forall i, j :: 0 <= i < j < |calls| ==> calls[i].now <= calls[j].now
  }

  /** Each route that is always asked for under one limit has admitted what `Admissions` says. */
  ghost predicate Admitting(log: Log, calls: seq<Call>) {
    forall route, limit {:trigger UnderLimit(calls, route, limit)} ::
      UnderLimit(calls, route, limit) ==> Admitted(log, route) == Admissions(limit, RequestsTo(calls, route))
  }

  lemma NothingAdmitted()
    ensures Admitting(map[], [])
  {
  }

  lemma AdmittingStep(log: Log, calls: seq<Call>, call: Call, log': Log)
    requires Admitting(log, calls)
    requires forall other :: other != call.route ==> Admitted(log', other) == Admitted(log, other)
    requires Admitted(log', call.route) ==
      if call.Request? && Allowed(Admitted(log, call.route), call.limit, call.now) then Admitted(log, call.route) + [call.now]
      else Admitted(log, call.route)
    ensures Admitting(log', calls + [call])
  {
    hide Allowed, Admitted;
    var all := calls + [call];
    assert all[..|calls|] == calls && all[|calls|] == call;
    forall route, limit | UnderLimit(all, route, limit)
      ensures Admitted(log', route) == Admissions(limit, RequestsTo(all, route))
    {
      forall i | 0 <= i < |calls| && calls[i].Request? && calls[i].route == route ensures calls[i].limit == limit {
        assert all[i] == calls[i];
      }
      assert UnderLimit(calls, route, limit);
      AdmissionsStep(limit, RequestsTo(calls, route), call.now);
    }
  }

  /** The class run from new on checks and counts of any routes, in any interleaving. */
  method RunAll(limiter: SlidingWindowRateLimiter, calls: seq<Call>)
    requires limiter.Valid() && limiter.log == map[] && InOrder(calls)
    requires forall i :: 0 <= i < |calls| ==> limiter.clock <= calls[i].now
    modifies limiter
    ensures limiter.Valid() && Admitting(limiter.log, calls)
  {
    hide Admitting, Allowed;
    NothingAdmitted();
    for i := 0 to |calls|
      invariant limiter.Valid()
      invariant forall j :: i <= j < |calls| ==> limiter.clock <= calls[j].now
      invariant Admitting(limiter.log, calls[..i])
    {
      assert calls[..i + 1] == calls[..i] + [calls[i]];
      ghost var before := limiter.log;
      match calls[i] {
        case Request(route, limit, now) =>
          var ok := limiter.Check(route, limit, now);
        case Count(route, now) =>
          var count := limiter.CurrentCount(route, now);
      }
      AdmittingStep(before, calls[..i], calls[i], limiter.log);
    }
    assert calls[..|calls|] == calls;
  }

  lemma {:induction false} RequestsAscend(calls: seq<Call>, route: string)
    requires InOrder(calls)
    ensures Ascending(RequestsTo(calls, route))
    ensures forall i :: 0 <= i < |RequestsTo(calls, route)| ==>
      |calls| > 0 && RequestsTo(calls, route)[i] <= calls[|calls| - 1].now
    decreases |calls|
  {
    if |calls| > 0 {
      var init, last := calls[..|calls| - 1], calls[|calls| - 1];
      RequestsAscend(init, route);
      assert forall i :: 0 <= i < |init| ==> init[i].now <= last.now;
    }
  }

  /** So no window of any route of a running limiter ever holds more than the route's limit. */
  lemma RunsKeepTheLimit(log: Log, calls: seq<Call>, route: string, limit: int, from: real, to: real)
    requires Admitting(log, calls) && InOrder(calls) && UnderLimit(calls, route, limit) && to - from <= 60.0
    ensures CountWithin(Admitted(log, route), from, to) <= if limit > 0 then limit else 0
  {
    RequestsAscend(calls, route);
    WindowNeverExceedsLimit(limit, RequestsTo(calls, route), from, to);
  }
}
