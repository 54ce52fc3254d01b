/** The client's durable emit: retries with the same source id, and why the event is then on disk
    exactly once (orchestrator/audit_client.py, `emit_durable`). */
module AuditClient {
  import opened Bytes
  import opened Codec
  import opened AuditRecords
  import opened AuditClassify
  import opened AuditRepair
  import opened WriterModel
  import opened WriterRecovery
  import opened WriterRuns
  import opened RecoveryAnchor
  import opened RecoveredIds

  const MAX_RETRIES := 3
  const RECONNECT_INITIAL_MS := 100
  const RECONNECT_MAX_MS := 5000

  /** How one attempt ends for the client: with the writer's answer, or with an error after the
      writer did or did not handle the event.  Only connection and timeout errors are retried. */
  datatype Outcome = Answered | Failed(handled: bool, retried: bool)

  /** One attempt: what happens to the writer before it, the day it is made, how it ends. */
  datatype Attempt = Attempt(before: seq<Op>, date: int, outcome: Outcome)

  datatype EmitResult = Accepted | Rejected | TimedOut | RaisedError

  datatype Emitted = Emitted(result: EmitResult, writer: Writer)

  function Delivered(a: Attempt): bool {
    a.outcome.Answered? || a.outcome.handled
  }

  /** The writer after an attempt, and what it answered if it handled the event; None when a
      restart in between raised. */
  function Try(c: Codec, w: Writer, ev: Inbound, a: Attempt): Option<(Writer, Response)> {
    match Run(c, w, a.before)
    case None => None
    case Some(w1) => Some(if Delivered(a) then Handle(c, w1, a.date, ev) else (w1, Error))
  }

  function EmitFrom(c: Codec, w: Writer, ev: Inbound, attempts: seq<Attempt>): Option<Emitted>
    decreases |attempts|
  {
    if |attempts| == 0 then Some(Emitted(TimedOut, w))
    else
      match Try(c, w, ev, attempts[0])
      case None => None
      case Some((w', resp)) =>
        if attempts[0].outcome.Answered? then
          Some(Emitted(if resp.Error? then Rejected else Accepted, w'))
        else if !attempts[0].outcome.retried then Some(Emitted(RaisedError, w'))
        else EmitFrom(c, w', ev, attempts[1..])
  }

  // ---------------------------------------------------------------- what an emit comes to

  /** The attempt ended in a connection or timeout error. */
  predicate Retried(a: Attempt) {
    a.outcome.Failed? && a.outcome.retried
  }

  /** The first attempt that did not, or their number. */
  function EndsAt(attempts: seq<Attempt>): (k: nat)
    ensures k <= |attempts| && (forall i :: 0 <= i < k ==> Retried(attempts[i]))
    ensures k < |attempts| ==> !Retried(attempts[k])
  {
    if |attempts| == 0 || !Retried(attempts[0]) then 0 else 1 + EndsAt(attempts[1..])
  }

  /** How many attempts are made. */
  function Made(attempts: seq<Attempt>): (n: nat)
    ensures n <= |attempts|
  {
    if EndsAt(attempts) < |attempts| then EndsAt(attempts) + 1 else |attempts|
  }

  /** The writer after `n` attempts: it has handled the event at exactly those that reached it; None
      when a restart before one of them raised. */
  function AfterAttempts(c: Codec, w: Writer, ev: Inbound, attempts: seq<Attempt>, n: nat): Option<Writer>
    requires n <= |attempts|
    decreases n
  {
    if n == 0 then Some(w)
    else
      match AfterAttempts(c, w, ev, attempts, n - 1)
      case None => None
      case Some(w1) =>
        var a := attempts[n - 1];
        match Run(c, w1, a.before)
        case None => None
        case Some(w2) =>
          Some(if a.outcome == Answered || a.outcome == Failed(true, true) || a.outcome == Failed(true, false)
               then Handle(c, w2, a.date, ev).0 else w2)
  }

  lemma {:induction false} AttemptsFromSecond(c: Codec, w: Writer, ev: Inbound, attempts: seq<Attempt>, n: nat)
    requires 0 < n <= |attempts|
    ensures var w1 := AfterAttempts(c, w, ev, attempts, 1);
      AfterAttempts(c, w, ev, attempts, n) ==
        if w1.None? then None else AfterAttempts(c, w1.value, ev, attempts[1..], n - 1)
    decreases n
  {
    hide Run, Handle;
    if n > 1 {
      AttemptsFromSecond(c, w, ev, attempts, n - 1);
      assert attempts[1..][n - 2] == attempts[n - 1];
    }
  }

  lemma FirstAttempt(c: Codec, w: Writer, ev: Inbound, attempts: seq<Attempt>)
    requires |attempts| > 0
    ensures var sent := Try(c, w, ev, attempts[0]);
      AfterAttempts(c, w, ev, attempts, 1) == if sent.None? then None else Some(sent.value.0)
    ensures var sent := Try(c, w, ev, attempts[0]);
      sent.Some? && attempts[0].outcome.Answered? ==> (sent.value.1.Error? <==> !ev.wellFormed)
  {
    hide Run, Commit;
    assert AfterAttempts(c, w, ev, attempts, 0) == Some(w);
  }

  /** For every list of attempts: the emit times out exactly when each of them ended in an error that
      is retried; otherwise the first that did not decides, answered or raised. Attempts are made
      up to that one and no further, and no event reaches the writer but at those. */
  lemma {:induction false} EmitMeans(c: Codec, w: Writer, ev: Inbound, attempts: seq<Attempt>)
    ensures var k, after := EndsAt(attempts), AfterAttempts(c, w, ev, attempts, Made(attempts));
      EmitFrom(c, w, ev, attempts) ==
        if after.None? then None
        else Some(Emitted(
          if k == |attempts| then TimedOut
          else if attempts[k].outcome.Answered? then (if ev.wellFormed then Accepted else Rejected)
          else RaisedError, after.value))
    decreases |attempts|
  {
    hide Try, AfterAttempts;
    if |attempts| == 0 {
      NoAttempts(c, w, ev);
    } else {
      FirstAttempt(c, w, ev, attempts);
      if Retried(attempts[0]) {
        AttemptsFromSecond(c, w, ev, attempts, Made(attempts));
        var sent := Try(c, w, ev, attempts[0]);
        if sent.Some? {
          EmitMeans(c, sent.value.0, ev, attempts[1..]);
        }
      }
    }
  }

  lemma NoAttempts(c: Codec, w: Writer, ev: Inbound)
    ensures AfterAttempts(c, w, ev, [], 0) == Some(w)
  {
  }

  /** The retry loop; `slept` adds up the back-off. */
  method EmitDurable(c: Codec, w: Writer, ev: Inbound, attempts: seq<Attempt>)
    returns (emitted: Option<Emitted>, slept: nat)
    requires |attempts| == MAX_RETRIES
    ensures emitted == EmitFrom(c, w, ev, attempts)
    ensures emitted.Some? ==>
      var k := EndsAt(attempts);
      && AfterAttempts(c, w, ev, attempts, Made(attempts)) == Some(emitted.value.writer)
      && emitted.value.result ==
         (if k == 3 then TimedOut
          else if attempts[k].outcome.Answered? then (if ev.wellFormed then Accepted else Rejected)
          else RaisedError)
      && slept == (if k == 0 then 0 else if k == 1 then 100 else 300)
    ensures emitted.None? <==> AfterAttempts(c, w, ev, attempts, Made(attempts)).None?
  {
    EmitMeans(c, w, ev, attempts);
    var delay := RECONNECT_INITIAL_MS;
    var state := w;
    slept := 0;
    for attempt := 0 to MAX_RETRIES
      invariant EmitFrom(c, w, ev, attempts) == EmitFrom(c, state, ev, attempts[attempt..])
      invariant attempt == 0 ==> delay == 100 && slept == 0
      invariant attempt == 1 ==> delay == 200 && slept == 100
      invariant attempt >= 2 ==> slept == 300
      invariant forall i :: 0 <= i < attempt ==> Retried(attempts[i])
    {
      assert attempts[attempt..][0] == attempts[attempt] && attempts[attempt..][1..] == attempts[attempt + 1..];
      var sent := Try(c, state, ev, attempts[attempt]);
      if sent.None? {
        return None, slept;
      }
      state := sent.value.0;
      var resp := sent.value.1;
      match attempts[attempt].outcome
      case Answered =>
        return Some(Emitted(if resp.Error? then Rejected else Accepted, state)), slept;
      case Failed(_, retried) =>
        if !retried {
          return Some(Emitted(RaisedError, state)), slept;
        }
        if attempt < MAX_RETRIES - 1 {
          slept := slept + delay;
          delay := if delay * 2 < RECONNECT_MAX_MS then delay * 2 else RECONNECT_MAX_MS;
        }
    }
    return Some(Emitted(TimedOut, state)), slept;
  }

  // ---------------------------------------------------------------- counting one source id

  function Count(recs: seq<Record>, id: string): nat
    decreases |recs|
  {
    if |recs| == 0 then 0
    else Count(recs[..|recs| - 1], id) + if SourceId(recs[|recs| - 1]) == id then 1 else 0
  }

  lemma CountAppend(recs: seq<Record>, r: Record, id: string)
    ensures Count(recs + [r], id) == Count(recs, id) + if SourceId(r) == id then 1 else 0
  {
    assert (recs + [r])[..|recs|] == recs;
  }

  lemma {:induction false} CountPrefix(a: seq<Record>, b: seq<Record>, id: string)
    requires a <= b
    ensures Count(a, id) <= Count(b, id)
    decreases |b|
  {
    hide SourceId;
    if |a| < |b| {
      assert a <= b[..|b| - 1];
      CountPrefix(a, b[..|b| - 1], id);
    } else {
      assert a == b;
    }
  }

  lemma {:induction false} CountZero(recs: seq<Record>, id: string)
    ensures Count(recs, id) == 0 <==> forall i :: 0 <= i < |recs| ==> SourceId(recs[i]) != id
    decreases |recs|
  {
    hide SourceId;
    if |recs| > 0 {
      var n := |recs| - 1;
      CountZero(recs[..n], id);
      assert forall i :: 0 <= i < n ==> recs[..n][i] == recs[i];
      if forall i :: 0 <= i < |recs| ==> SourceId(recs[i]) != id {
        assert SourceId(recs[n]) != id;
      }
    }
  }

  // ---------------------------------------------------------------- at most once

  /** All records of the id lie in files dated `day` or later. */
  ghost predicate NotBefore(recs: seq<Record>, id: string, day: int) {
    forall i :: 0 <= i < |recs| && SourceId(recs[i]) == id ==> recs[i].file >= day
  }

  /** Text readers see the id where records have it, from the day before `base` on; it occurs at most
      once, never only in the buffer, and the writer remembers it exactly when it occurs. */
  ghost predicate OnceInv(c: Codec, w: Writer, id: string, day: int, base: int) {
    var disk := RecordsOf(c, w.files, 0);
    && base <= w.today && Candid(c, w.files, id, base)
    && Count(Full(c, w), id) == Count(disk, id) <= 1
    && NotBefore(disk, id, day)
    && (id in w.seen <==> Count(disk, id) == 1)
  }

  predicate Submits(op: Op, id: string) {
    op.Submit? && op.event.sourceId == id
  }

  lemma DiskWithinFull(c: Codec, w: Writer)
    requires Inv(c, w)
    ensures RecordsOf(c, w.files, 0) <= Full(c, w)
  {
    hide Tidy, RecordsOf, AppendLine, Plain, Links, Recoverable;
    AppendAllAtEnd(c, w.files, w.buffer, w.today);
  }

  /** A disk between the old disk and the old disk plus buffer holds the id as often. */
  lemma Squeeze(a: seq<Record>, b: seq<Record>, full: seq<Record>, id: string, day: int)
    requires a <= b <= full && Count(full, id) == Count(a, id) && NotBefore(a, id, day)
    ensures Count(b, id) == Count(a, id) && NotBefore(b, id, day)
  {
    hide SourceId;
    CountPrefix(a, b, id);
    CountPrefix(b, full, id);
    var k := |a|;
    RestHasNone(a, b, id);
  }

  lemma {:induction false} RestHasNone(a: seq<Record>, b: seq<Record>, id: string)
    requires a <= b && Count(b, id) == Count(a, id)
    ensures forall i :: |a| <= i < |b| ==> SourceId(b[i]) != id
    decreases |b|
  {
    hide SourceId;
    if |a| < |b| {
      var n := |b| - 1;
      CountPrefix(a, b[..n], id);
      RestHasNone(a, b[..n], id);
      assert forall i :: 0 <= i < n ==> b[..n][i] == b[i];
    } else {
      assert a == b;
    }
  }

  /** Other emitters' events, flushes, crashes and restarts up to the day after keep the id's
      count, and the writer keeps knowing it. */
  lemma StepOnce(c: Codec, w: Writer, op: Op, id: string, day: int, base: int)
    requires Faithful(c) && Inv(c, w) && OnceInv(c, w, id, day, base)
    requires StepForward(w.today, op) && !Submits(op, id)
    requires id in w.seen ==> DayAfter(w.today, op) <= day + 1
    ensures Step(c, w, op).Some?
    ensures var w' := Step(c, w, op).value;
      && Inv(c, w') && OnceInv(c, w', id, day, base) && (id in w'.seen <==> id in w.seen)
      && w'.today <= DayAfter(w.today, op)
  {
    hide Faithful, Inv, RecordsOf, CrashDisk, Start, Flush, Commit, Full, Count, NotBefore, SourceId, Candid;
    StepKeeps(c, w, op);
    var w' := Step(c, w, op).value;
    DiskWithinFull(c, w);
    DiskWithinFull(c, w');
    match op
    case Submit(date, ev) =>
      if Accepts(w, ev) {
        var r := CommitKeeps(c, w, date, ev);
        assert SourceId(r) == ev.sourceId by { SourceIdOf(r, w.prevHash, ev.sourceId); }
        CountAppend(Full(c, w), r, id);
        CommitSeen(c, w, date, ev);
        CommitCandid(c, w, date, ev, id, base);
        Squeeze(RecordsOf(c, w.files, 0), RecordsOf(c, w'.files, 0), Full(c, w'), id, day);
      }
    case Tick =>
      FlushKeeps(c, w);
      FlushSeen(w);
      FlushCandid(c, w, id, base);
      Squeeze(RecordsOf(c, w.files, 0), RecordsOf(c, w'.files, 0), Full(c, w), id, day);
    case Restart(written, created, date) =>
      RestartOnce(c, w, written, created, date, id, day, base);
  }

  lemma SourceIdOf(r: Record, h: Hash, id: string)
    requires r.parsed == Some(Members(Some(h), Some(id)))
    ensures SourceId(r) == id
  {
  }

  lemma CommitSeen(c: Codec, w: Writer, date: int, ev: Inbound)
    ensures Commit(c, w, date, ev).seen == w.seen + {ev.sourceId}
  {
  }

  lemma FlushSeen(w: Writer)
    ensures Flush(w).seen == w.seen
  {
  }

  lemma RestartOnce(c: Codec, w: Writer, written: nat, created: Option<int>, date: int, id: string, day: int, base: int)
    requires Faithful(c) && Inv(c, w) && OnceInv(c, w, id, day, base)
    requires StepForward(w.today, Restart(written, created, date)) && (id in w.seen ==> date <= day + 1)
    ensures var started := Start(c, CrashDisk(w, written, created), date);
      started.Some? && OnceInv(c, started.value, id, day, base) && (id in started.value.seen <==> id in w.seen)
  {
    hide Faithful, Inv, RecordsOf, CrashDisk, Start, Flush, Tidy, Links, SourceId, AnchorOn, ReadableOn, Candid;
    CrashDiskValid(c, w, written, created, date);
    CrashCandid(c, w, written, created, date, id, base);
    var files := CrashDisk(w, written, created);
    StartMeaning(c, files, date);
    StartCandid(c, files, date, id, base);
    var w' := Start(c, files, date).value;
    assert AppendAll(w'.files, w'.buffer) == files;
    var recs := RecordsOf(c, files, 0);
    Squeeze(RecordsOf(c, w.files, 0), recs, Full(c, w), id, day);
    CountZero(recs, id);
    if Count(recs, id) == 1 {
      var i :| 0 <= i < |recs| && SourceId(recs[i]) == id;
      assert recs[i].file >= date - 1;
      assert id in w'.seen;
    }
  }

  lemma {:induction false} RunOnce(c: Codec, w: Writer, ops: seq<Op>, id: string, day: int, base: int)
    requires Faithful(c) && Inv(c, w) && OnceInv(c, w, id, day, base)
    requires DatesForward(w.today, ops) && forall i :: 0 <= i < |ops| ==> !Submits(ops[i], id)
    requires id in w.seen ==> w.today <= day + 1 && LastDay(w.today, ops) <= day + 1
    ensures Run(c, w, ops).Some?
    ensures var w' := Run(c, w, ops).value;
      && Inv(c, w') && OnceInv(c, w', id, day, base) && (id in w'.seen <==> id in w.seen)
      && w'.today <= LastDay(w.today, ops)
    decreases |ops|
  {
    hide Faithful, Inv, OnceInv, Step;
    if |ops| > 0 {
      LastDayIsLast(w.today, ops);
      StepOnce(c, w, ops[0], id, day, base);
      var w' := Step(c, w, ops[0]).value;
      EarlierStart(DayAfter(w.today, ops[0]), w'.today, ops[1..]);
      LastDayFrom(w'.today, DayAfter(w.today, ops[0]), ops[1..]);
      assert forall i :: 0 <= i < |ops[1..]| ==> ops[1..][i] == ops[i + 1];
      StepKeeps(c, w, ops[0]);
      RunOnce(c, w', ops[1..], id, day, base);
    }
  }

  /** The day at the end of a run. */
  function LastDay(today: int, ops: seq<Op>): int
    decreases |ops|
  {
    if |ops| == 0 then today else LastDay(DayAfter(today, ops[0]), ops[1..])
  }

  lemma {:induction false} LastDayIsLast(today: int, ops: seq<Op>)
    requires DatesForward(today, ops)
    ensures today <= LastDay(today, ops)
    ensures |ops| > 0 ==> DayAfter(today, ops[0]) <= LastDay(today, ops)
    decreases |ops|
  {
    if |ops| > 0 {
      LastDayIsLast(DayAfter(today, ops[0]), ops[1..]);
    }
  }

  lemma {:induction false} LastDayFrom(earlier: int, day: int, ops: seq<Op>)
    requires earlier <= day
    ensures LastDay(earlier, ops) <= LastDay(day, ops)
    decreases |ops|
  {
    if |ops| > 0 {
      LastDayFrom(DayAfter(earlier, ops[0]), DayAfter(day, ops[0]), ops[1..]);
    }
  }

  // ---------------------------------------------------------------- exactly once

  /** The event handled, on `day` or later. */
  lemma HandleOnce(c: Codec, w: Writer, date: int, ev: Inbound, day: int, base: int)
    requires Faithful(c) && Inv(c, w) && OnceInv(c, w, ev.sourceId, day, base)
    requires ev.durable && w.today <= date && day <= date
    ensures var (w', resp) := Handle(c, w, date, ev);
      && Inv(c, w') && OnceInv(c, w', ev.sourceId, day, base)
      && (resp.Error? <==> !ev.wellFormed)
      && (ev.wellFormed ==> Count(RecordsOf(c, w'.files, 0), ev.sourceId) == 1)
      && w'.today <= date
  {
    hide Faithful, Inv, RecordsOf, Commit, Full, Count, SourceId, Candid;
    var id := ev.sourceId;
    if Accepts(w, ev) {
      CommitCandid(c, w, date, ev, id, base);
      var r := CommitKeeps(c, w, date, ev);
      var w' := Commit(c, w, date, ev);
      SourceIdOf(r, w.prevHash, id);
      CountAppend(Full(c, w), r, id);
      CommitSeen(c, w, date, ev);
      CountZero(Full(c, w), id);
      var disk := RecordsOf(c, w'.files, 0);
      assert NotBefore(disk, id, day) by {
        assert disk == Full(c, w) + [r];
        assert forall i :: 0 <= i < |Full(c, w)| ==> disk[i] == Full(c, w)[i];
      }
    }
  }

  /** The timetable of an emit: the calendar runs forward, nobody else uses the id, and from the
      first attempt on no more than one midnight passes. */
  ghost predicate Timetable(today: int, attempts: seq<Attempt>, id: string, day: int, first: bool)
    decreases |attempts|
  {
    |attempts| == 0 ||
    (var a := attempts[0];
     && DatesForward(today, a.before)
     && (forall i :: 0 <= i < |a.before| ==> !Submits(a.before[i], id))
     && LastDay(today, a.before) <= a.date
     && (if first then a.date == day else a.date <= day + 1)
     && Timetable(a.date, attempts[1..], id, day, false))
  }

  lemma {:induction false} TimetableEarlier(earlier: int, today: int, attempts: seq<Attempt>, id: string, day: int, first: bool)
    requires Timetable(today, attempts, id, day, first) && earlier <= today
    ensures Timetable(earlier, attempts, id, day, first)
  {
    if |attempts| > 0 {
      EarlierStart(today, earlier, attempts[0].before);
      LastDayFrom(earlier, today, attempts[0].before);
    }
  }

  lemma {:induction false} RetriesOnce(c: Codec, w: Writer, ev: Inbound, attempts: seq<Attempt>, day: int, base: int, first: bool)
    requires Faithful(c) && Inv(c, w) && OnceInv(c, w, ev.sourceId, day, base) && ev.durable
    requires Timetable(w.today, attempts, ev.sourceId, day, first)
    requires if first then ev.sourceId !in w.seen
             else w.today <= day + 1 && forall i :: 0 <= i < |attempts| ==> attempts[i].date >= day
    ensures EmitFrom(c, w, ev, attempts).Some?
    ensures var e := EmitFrom(c, w, ev, attempts).value;
      && Inv(c, e.writer)
      && Count(Full(c, e.writer), ev.sourceId) <= 1
      && (e.result == Accepted ==> Count(RecordsOf(c, e.writer.files, 0), ev.sourceId) == 1)
      && (e.result == Rejected ==> !ev.wellFormed)
    decreases |attempts|
  {
    hide Faithful, Inv, Run, RecordsOf, Handle, Full, Count;
    if |attempts| > 0 {
      var a := attempts[0];
      var id := ev.sourceId;
      RunOnce(c, w, a.before, id, day, base);
      var w1 := Run(c, w, a.before).value;
      if Delivered(a) {
        HandleOnce(c, w1, a.date, ev, day, base);
      }
      var (w', resp) := Try(c, w, ev, a).value;
      if !a.outcome.Answered? && a.outcome.retried {
        TimetableEarlier(w'.today, a.date, attempts[1..], id, day, false);
        LaterAttempts(a.date, attempts[1..], id, day);
        RetriesOnce(c, w', ev, attempts[1..], day, base, false);
      }
    }
  }

  lemma {:induction false} LaterAttempts(today: int, attempts: seq<Attempt>, id: string, day: int)
    requires Timetable(today, attempts, id, day, false) && today >= day
    ensures forall i :: 0 <= i < |attempts| ==> attempts[i].date >= day
    decreases |attempts|
  {
    if |attempts| > 0 {
      LastDayIsLast(today, attempts[0].before);
      LaterAttempts(attempts[0].date, attempts[1..], id, day);
      assert forall i :: 0 < i < |attempts| ==> attempts[i] == attempts[1..][i - 1];
    }
  }

  /** Whatever replies are lost and wherever the writer crashes between attempts: a durable event
      whose id is nowhere in the log, and in no text line of the last two days, ends up there at most
      once, and on disk exactly once when the client is told that it was accepted. */
  lemma ExactlyOnce(c: Codec, w: Writer, ev: Inbound, attempts: seq<Attempt>, day: int)
    requires Faithful(c) && Inv(c, w) && ev.durable
    requires ev.sourceId !in w.seen && Count(Full(c, w), ev.sourceId) == 0
    requires !ShownOn(c, w.files, w.today - 1, ev.sourceId) && !ShownOn(c, w.files, w.today, ev.sourceId)
    requires Timetable(w.today, attempts, ev.sourceId, day, true)
    ensures EmitFrom(c, w, ev, attempts).Some?
    ensures var e := EmitFrom(c, w, ev, attempts).value;
      && Inv(c, e.writer)
      && Count(Full(c, e.writer), ev.sourceId) <= 1
      && (e.result == Accepted ==> Count(RecordsOf(c, e.writer.files, 0), ev.sourceId) == 1)
      && (e.result == Rejected ==> !ev.wellFormed)
  {
    hide Faithful, Inv, RecordsOf, Full, Timetable, Count, SourceId, EmitFrom, Candid;
    DiskWithinFull(c, w);
    var disk := RecordsOf(c, w.files, 0);
    CountPrefix(disk, Full(c, w), ev.sourceId);
    CountZero(disk, ev.sourceId);
    NowhereIsCandid(c, w, ev.sourceId);
    RetriesOnce(c, w, ev, attempts, day, w.today, true);
  }

  lemma NowhereIsCandid(c: Codec, w: Writer, id: string)
    requires Inv(c, w) && forall i :: 0 <= i < |RecordsOf(c, w.files, 0)| ==> SourceId(RecordsOf(c, w.files, 0)[i]) != id
    requires !ShownOn(c, w.files, w.today - 1, id) && !ShownOn(c, w.files, w.today, id)
    ensures Candid(c, w.files, id, w.today) && UpTo(w.files, w.today)
  {
    hide RecordsOf, ShownOn, SourceId, Tidy, Recoverable;
    forall d | d >= w.today - 1 ensures !ShownOn(c, w.files, d, id) {
      if d > w.today {
        NoneAfter(c, w.files, w.today, d, id);
      }
    }
  }

  /** In a clean log text lines show no id that the records do not have. */
  lemma CleanShowsRecords(c: Codec, files: seq<LogFile>, today: int, id: string)
    requires Tidy(files) && Clean(files) && UpTo(files, today) && ChainValid(c, RecordsOf(c, files, 0))
    ensures ShownOn(c, files, today - 1, id) || ShownOn(c, files, today, id) <==>
      exists i :: 0 <= i < |RecordsOf(c, files, 0)| && RecordsOf(c, files, 0)[i].file >= today - 1
        && SourceId(RecordsOf(c, files, 0)[i]) == id
  {
    hide RecordsOf, Tidy, Clean, Links, SourceId, Start, ShownOn;
    StartRecovers(c, files, today);
    StartSeen(c, files, today, id);
  }

  /** The window is sharp: after a restart on a recoverable directory a repeated id is recognised
      exactly when a text line of the last two days shows it; otherwise it is written a second time. */
  lemma DedupWindow(c: Codec, files: seq<LogFile>, today: int, ev: Inbound)
    requires Faithful(c) && Tidy(files) && UpTo(files, today) && ChainValid(c, RecordsOf(c, files, 0))
    requires Recoverable(c, files, today) && ev.wellFormed && ev.durable
    ensures Start(c, files, today).Some?
    ensures var (w', resp) := Handle(c, Start(c, files, today).value, today, ev);
      var recent := ShownOn(c, files, today - 1, ev.sourceId) || ShownOn(c, files, today, ev.sourceId);
      && (resp == Duplicate(ev.sourceId) <==> recent)
      && Count(RecordsOf(c, w'.files, 0), ev.sourceId) ==
         Count(RecordsOf(c, files, 0), ev.sourceId) + if recent then 0 else 1
  {
    hide Faithful, RecordsOf, Tidy, Links, SourceId, Start, Commit, AppendAll, Recoverable, ShownOn;
    StartInv(c, files, today);
    StartToday(c, files, today);
    StartSeen(c, files, today, ev.sourceId);
    NothingToFlush(c, files, today);
    var w := Start(c, files, today).value;
    if ev.sourceId !in w.seen {
      var r := CommitKeeps(c, w, today, ev);
      SourceIdOf(r, w.prevHash, ev.sourceId);
      CountAppend(RecordsOf(c, files, 0), r, ev.sourceId);
      NothingBuffered(w);
    }
  }

  lemma NothingToFlush(c: Codec, files: seq<LogFile>, today: int)
    ensures Start(c, files, today).Some? ==> Start(c, files, today).value.buffer == []
  {
    hide Recover;
  }

  /** In a clean log, where an id occurs once, that is when its record lies in yesterday's or today's
      file. */
  lemma DedupByDate(c: Codec, files: seq<LogFile>, today: int, ev: Inbound, i: nat)
    requires Faithful(c) && Tidy(files) && Clean(files) && UpTo(files, today) && ChainValid(c, RecordsOf(c, files, 0))
    requires ev.wellFormed && ev.durable && Count(RecordsOf(c, files, 0), ev.sourceId) == 1
    requires i < |RecordsOf(c, files, 0)| && SourceId(RecordsOf(c, files, 0)[i]) == ev.sourceId
    ensures Start(c, files, today).Some?
    ensures var (w', resp) := Handle(c, Start(c, files, today).value, today, ev);
      var recent := RecordsOf(c, files, 0)[i].file >= today - 1;
      && (resp == Duplicate(ev.sourceId) <==> recent)
      && Count(RecordsOf(c, w'.files, 0), ev.sourceId) == if recent then 1 else 2
  {
    hide Faithful, RecordsOf, Tidy, Clean, Links, SourceId, Start, Handle, Recoverable, ShownOn, Count;
    CleanIsRecoverable(c, files, today);
    DedupWindow(c, files, today, ev);
    CleanShowsRecords(c, files, today, ev.sourceId);
    OnlyOne(RecordsOf(c, files, 0), ev.sourceId, i);
  }

  lemma NothingBuffered(w: Writer)
    ensures w.buffer == [] ==> AppendAll(w.files, w.buffer) == w.files
  {
  }

  /** An id that occurs once occurs at one place. */
  lemma {:induction false} OnlyOne(recs: seq<Record>, id: string, i: nat)
    requires i < |recs| && SourceId(recs[i]) == id && Count(recs, id) == 1
    ensures forall k :: 0 <= k < |recs| && SourceId(recs[k]) == id ==> k == i
    decreases |recs|
  {
    hide SourceId;
    var n := |recs| - 1;
    assert forall k :: 0 <= k < n ==> recs[..n][k] == recs[k];
    CountZero(recs[..n], id);
    if i < n {
      assert SourceId(recs[..n][i]) == id;
      OnlyOne(recs[..n], id, i);
    }
  }
}
