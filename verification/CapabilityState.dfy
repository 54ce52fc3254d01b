/** Runtime state of the capabilities: levels, ring buffer of outcomes, recent failures
    (orchestrator/capability_state.py). */
module CapabilityState {
  import opened Bytes

  const OUTCOMES_MAX := 200
  const EVICTION_SECONDS := 24 * 3600

  datatype Disposition = AcceptedAsIs | Modified | Rejected | Resubmitted | AutoDelivered | OtherDisposition

  datatype Outcome = Outcome(time: Option<int>, disposition: Disposition)

  datatype Failure = Failure(time: int, source: string)

  datatype Entry = Entry(
    level: int,
    suspended: bool,
    outcomes: seq<Outcome>,
    failures: seq<Failure>,
    firstJob: Option<int>,
    lastReset: int,
    incident: Option<string>)

  type Entries = map<string, Entry>

  function Initial(now: int): Entry {
    Entry(0, false, [], [], None, now, None)
  }

  /** What the permission checks read: a suspended capability is at -1. */
  function EffectiveWal(e: Entry): int {
    if e.suspended then -1 else e.level
  }

  function LastN<T>(s: seq<T>, n: nat): seq<T> {
    if |s| > n then s[|s| - n..] else s
  }

  function Recent(failures: seq<Failure>, now: int): seq<Failure>
    decreases |failures|
  {
    if |failures| == 0 then []
    else Recent(failures[..|failures| - 1], now)
         + if now - failures[|failures| - 1].time < EVICTION_SECONDS then [failures[|failures| - 1]] else []
  }

  /** Level and status after a demotion; to -1 it is a suspension. */
  function Demote(e: Entry, to: int): Entry {
    e.(level := to, suspended := to == -1)
  }

  /** Counters cleared; the incident reference survives. */
  function Reset(e: Entry, now: int): Entry {
    e.(outcomes := [], failures := [], firstJob := None, lastReset := now)
  }

  class StateManager {
    var entries: Entries

    constructor ()
      ensures entries == map[]
    {
      entries := map[];
    }

    /** Appends to the ring buffer, evicting from the front; false for an unknown capability. */
    method RecordOutcome(id: string, outcome: Outcome) returns (known: bool)
      modifies this
      ensures known == (id in old(entries))
      ensures entries == if known
        then old(entries)[id := old(entries)[id].(outcomes := LastN(old(entries)[id].outcomes + [outcome], OUTCOMES_MAX))]
        else old(entries)
    {
      if id !in entries {
        return false;
      }
      var all := entries[id].outcomes + [outcome];
      var outcomes := all;
      while |outcomes| > OUTCOMES_MAX
        invariant |outcomes| <= |all| && outcomes == all[|all| - |outcomes|..]
        invariant |outcomes| < |all| ==> |outcomes| >= OUTCOMES_MAX
      {
        outcomes := outcomes[1..];
      }
      entries := entries[id := entries[id].(outcomes := outcomes)];
      return true;
    }

    method RecordFailure(id: string, failure: Failure) returns (known: bool)
      modifies this
      ensures known == (id in old(entries))
      ensures entries == if known
        then old(entries)[id := old(entries)[id].(failures := old(entries)[id].failures + [failure])]
        else old(entries)
    {
      if id !in entries {
        return false;
      }
      entries := entries[id := entries[id].(failures := entries[id].failures + [failure])];
      return true;
    }

    /** Drops failures of 24 hours or more ago and counts the rest. */
    method RecentFailureCount(id: string, now: int) returns (count: Option<nat>)
      modifies this
      ensures count == if id in old(entries) then Some(|Recent(old(entries)[id].failures, now)|) else None
      ensures entries == if id in old(entries)
        then old(entries)[id := old(entries)[id].(failures := Recent(old(entries)[id].failures, now))]
        else old(entries)
    {
      if id !in entries {
        return None;
      }
      var failures := entries[id].failures;
      var kept: seq<Failure> := [];
      for i := 0 to |failures|
        invariant kept == Recent(failures[..i], now)
      {
        assert failures[..i + 1][..i] == failures[..i];
        if now - failures[i].time < EVICTION_SECONDS {
          kept := kept + [failures[i]];
        }
      }
      assert failures[..|failures|] == failures;
      entries := entries[id := entries[id].(failures := kept)];
      return Some(|kept|);
    }
  }

  function RecordAll(e: Entry, outcomes: seq<Outcome>): Entry
    decreases |outcomes|
  {
    if |outcomes| == 0 then e
    else
      var e' := RecordAll(e, outcomes[..|outcomes| - 1]);
      e'.(outcomes := LastN(e'.outcomes + [outcomes[|outcomes| - 1]], OUTCOMES_MAX))
  }

  /** After a reset the buffer holds exactly the latest 200 outcomes, in order, and nothing else changes. */
  lemma RingHoldsLatest(e: Entry, outcomes: seq<Outcome>)
    requires e.outcomes == []
    ensures var kept := RecordAll(e, outcomes).outcomes;
      && RecordAll(e, outcomes) == e.(outcomes := kept)
      && |kept| == (if |outcomes| > 200 then 200 else |outcomes|)
      && forall k :: 0 <= k < |kept| ==> kept[k] == outcomes[|outcomes| - |kept| + k]
  {
    RingIsLastN(e, outcomes);
    hide RecordAll;
  }

  lemma {:induction false} RingIsLastN(e: Entry, outcomes: seq<Outcome>)
    requires e.outcomes == []
    ensures RecordAll(e, outcomes) == e.(outcomes := LastN(outcomes, OUTCOMES_MAX))
    decreases |outcomes|
  {
    if |outcomes| > 0 {
      var n := |outcomes| - 1;
      RingIsLastN(e, outcomes[..n]);
      assert outcomes == outcomes[..n] + [outcomes[n]];
      assert LastN(LastN(outcomes[..n], OUTCOMES_MAX) + [outcomes[n]], OUTCOMES_MAX) == LastN(outcomes, OUTCOMES_MAX);
    } else {
      assert outcomes == [];
    }
  }
}
