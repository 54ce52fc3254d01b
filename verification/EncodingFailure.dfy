/** Events that are not UTF-8 encodable (audit-log-writer/src/log_writer.py, `_write_event` and
    `_flush_best_effort`): a durable one is refused without harm; a best-effort one stays in the
    buffer, where every flush stops at it. */
module EncodingFailure {
  import opened Bytes
  import opened Codec
  import opened AuditRecords
  import opened AuditClassify
  import opened AuditRepair
  import opened AuditTamper
  import opened StartupGate
  import opened TamperBytes
  import opened WriterModel
  import opened WriterRecovery
  import opened RecoveryAnchor
  import opened RepairCrash
  import opened WriterRuns

  // ---------------------------------------------------------------- what the writer does

  /** A durable event: what is buffered is flushed and the day's file opened before the line fails to
      encode; the chain state stays. */
  function RefuseDurable(w: Writer, date: int): Writer {
    var w1 := Flush(RollOver(w, date));
    w1.(files := Open(w1.files, date))
  }

  /** A writer with an unencodable line behind `w.buffer`; what is buffered later lies behind that line.
      The periodic flush ends the process when it raises. */
  datatype Stuck = Stuck(w: Writer, alive: bool)

  function BufferUnencodable(w: Writer, date: int): Stuck {
    Stuck(RollOver(w, date), true)
  }

  /** A flush writes the lines before the one that fails and keeps the whole buffer. */
  function Attempt(s: Stuck): Stuck {
    s.(w := s.w.(files := AppendAll(s.w.files, s.w.buffer)))
  }

  function StuckStep(c: Codec, s: Stuck, op: Op): Stuck {
    if !s.alive then s
    else
      match op
      case Submit(date, ev) =>
        if !Accepts(s.w, ev) then s
        else if date != s.w.today || ev.durable then Attempt(s)
        else s.(w := s.w.(prevHash := c.digest(EventLine(c, s.w, ev)), sequence := s.w.sequence + 1, seen := s.w.seen + {ev.sourceId}))
      case Tick => Attempt(s).(alive := false)
      case Restart(_, _, _) => s.(alive := false)
  }

  function StuckRun(c: Codec, s: Stuck, ops: seq<Op>): Stuck
    decreases |ops|
  {
    if |ops| == 0 then s else StuckRun(c, StuckStep(c, s, ops[0]), ops[1..])
  }

  /** A stuck writer stays up until a periodic flush, or a restart, and no longer. */
  lemma {:induction false} StuckUntilTick(c: Codec, s: Stuck, ops: seq<Op>)
    ensures StuckRun(c, s, ops).alive <==> s.alive && forall i :: 0 <= i < |ops| ==> ops[i].Submit?
    decreases |ops|
  {
    hide AppendAll, EventLine;
    if |ops| > 0 {
      StuckUntilTick(c, StuckStep(c, s, ops[0]), ops[1..]);
      assert forall i :: 0 < i < |ops| ==> ops[i] == ops[1..][i - 1];
    }
  }

  /** What a stuck writer does with an event: it acknowledges a best-effort one of its day and links it,
      though its line never reaches the disk, and refuses a durable one and one of another day; it
      turns away malformed and known ones as ever. */
  lemma StuckAnswers(c: Codec, s: Stuck, date: int, ev: Inbound)
    requires s.alive
    ensures var s' := StuckStep(c, s, Submit(date, ev));
      var linked := s.w.(prevHash := c.digest(c.dump(Event(ev.sourceId, s.w.prevHash, ev.body))),
                         sequence := s.w.sequence + 1, seen := s.w.seen + {ev.sourceId});
      if !ev.wellFormed || ev.sourceId in s.w.seen then s' == s
      else if ev.durable || date != s.w.today then s' == Stuck(s.w.(files := AppendAll(s.w.files, s.w.buffer)), true)
      else s' == Stuck(linked, true)
  {
  }

  /** The lines written once per attempt. */
  function Attempts(files: seq<LogFile>, p: seq<Pending>, n: nat): seq<LogFile>
    decreases n
  {
    if n == 0 then files else AppendAll(Attempts(files, p, n - 1), p)
  }

  lemma {:induction false} AttemptsAfterOne(files: seq<LogFile>, p: seq<Pending>, n: nat)
    ensures Attempts(AppendAll(files, p), p, n) == Attempts(files, p, n + 1)
    decreases n
  {
    hide AppendAll;
    if n > 0 {
      AttemptsAfterOne(files, p, n - 1);
    }
  }

  /** Whatever else it is sent, a stuck writer only writes the same lines again. */
  lemma {:induction false} StuckWritesTheSame(c: Codec, s: Stuck, ops: seq<Op>) returns (n: nat)
    ensures StuckRun(c, s, ops).w.files == Attempts(s.w.files, s.w.buffer, n) && StuckRun(c, s, ops).w.buffer == s.w.buffer
    ensures n <= |ops|
    decreases |ops|
  {
    hide AppendAll, EventLine, Accepts;
    if |ops| == 0 {
      n := 0;
    } else {
      var next := StuckStep(c, s, ops[0]);
      n := StuckWritesTheSame(c, next, ops[1..]);
      if next.w.files != s.w.files {
        AttemptsAfterOne(s.w.files, s.w.buffer, n);
        n := n + 1;
      }
    }
  }

  // ---------------------------------------------------------------- durable events do no harm

  lemma RefusedDurableKeeps(c: Codec, w: Writer, date: int)
    requires Inv(c, w) && date >= w.today
    ensures var w' := RefuseDurable(w, date);
      Inv(c, w') && Full(c, w') == Full(c, w) && RecordsOf(c, w.files, 0) <= RecordsOf(c, w'.files, 0)
  {
    hide Tidy, RecordsOf, Plain, ChainValid, Tip, NoRecordOn, Recoverable, Open, AppendAll;
    RollOverKeeps(c, w, date);
    var w1 := RollOver(w, date);
    FlushKeeps(c, w1);
    var w2 := Flush(w1);
    OpenAtEnd(c, w2.files, date);
    OpenRecoverable(c, w2.files, date);
    NothingPending(Open(w2.files, date));
    NothingPending(w2.files);
  }

  lemma NothingPending(files: seq<LogFile>)
    ensures AppendAll(files, []) == files
  {
  }

  // ---------------------------------------------------------------- the records of repeated lines

  function LinesOf(p: seq<Pending>): (r: seq<Line>)
    ensures |r| == |p| && forall i :: 0 <= i < |p| ==> r[i] == p[i].line
  {
    seq(|p|, i requires 0 <= i < |p| => p[i].line)
  }

  lemma {:induction false} AppendedAlike(c: Codec, files: seq<LogFile>, p: seq<Pending>, day: int)
    requires Tidy(files) && UpTo(files, day) && PlainLines(p, day)
    ensures Alike(RecordsOf(c, AppendAll(files, p), 0), RecordsOf(c, files, 0) + AllOf(c, day, LinesOf(p)))
    decreases |p|
  {
    hide AppendLine, Tidy, UpTo, RecordsOf, Plain, Parsed, Alike;
    var recs := RecordsOf(c, files, 0);
    if |p| == 0 {
      assert recs + AllOf(c, day, LinesOf(p)) == recs;
      AlikeSelf(recs);
    } else {
      var next := AppendLine(files, day, p[0].line);
      var r := AppendAtEnd(c, files, day, p[0].line);
      AppendedAlike(c, next, p[1..], day);
      var rest := AllOf(c, day, LinesOf(p[1..]));
      assert AllOf(c, day, LinesOf(p)) == [Of(c, day, p[0].line)] + rest;
      Regroup(recs, [Of(c, day, p[0].line)], rest);
      AlikeSelf(recs);
      AlikeSelf(rest);
      OneAlike(r, Of(c, day, p[0].line));
      AlikeConcat(recs, recs, [r], [Of(c, day, p[0].line)]);
      AlikeConcat(recs + [r], recs + [Of(c, day, p[0].line)], rest, rest);
      AlikeThrough(RecordsOf(c, AppendAll(files, p), 0), (recs + [r]) + rest, recs + AllOf(c, day, LinesOf(p)));
    }
  }

  lemma OneAlike(a: Record, b: Record)
    requires AlikeAt(a, b)
    ensures Alike([a], [b])
  {
  }

  lemma AlikeThrough(a: seq<Record>, b: seq<Record>, d: seq<Record>)
    requires Alike(a, b) && Alike(b, d)
    ensures Alike(a, d)
  {
    forall i | 0 <= i < |a| ensures AlikeAt(a[i], d[i]) {
      assert AlikeAt(a[i], b[i]) && AlikeAt(b[i], d[i]);
    }
  }

  function Copies(x: seq<Record>, n: nat): seq<Record>
    decreases n
  {
    if n == 0 then [] else Copies(x, n - 1) + x
  }

  lemma {:induction false} AttemptsAlike(c: Codec, files: seq<LogFile>, p: seq<Pending>, day: int, n: nat)
    requires Tidy(files) && UpTo(files, day) && PlainLines(p, day)
    ensures var after := Attempts(files, p, n);
      && Tidy(after) && UpTo(after, day)
      && Alike(RecordsOf(c, after, 0), RecordsOf(c, files, 0) + Copies(AllOf(c, day, LinesOf(p)), n))
    decreases n
  {
    hide AppendAll, Tidy, UpTo, RecordsOf, Parsed, Alike, PlainLines;
    var recs, x := RecordsOf(c, files, 0), AllOf(c, day, LinesOf(p));
    if n == 0 {
      assert recs + Copies(x, 0) == recs;
      AlikeSelf(recs);
    } else {
      AttemptsAlike(c, files, p, day, n - 1);
      var before := Attempts(files, p, n - 1);
      AppendedAlike(c, before, p, day);
      AppendAllAtEnd(c, before, p, day);
      AlikeSelf(x);
      AlikeConcat(RecordsOf(c, before, 0), recs + Copies(x, n - 1), x, x);
      Regroup(recs, Copies(x, n - 1), x);
      AlikeThrough(RecordsOf(c, Attempts(files, p, n), 0), RecordsOf(c, before, 0) + x, recs + Copies(x, n));
    }
  }

  lemma {:induction false} CopiesFront(x: seq<Record>, n: nat)
    ensures Copies(x, n + 1) == x + Copies(x, n)
    decreases n
  {
    if n == 0 {
      assert Copies(x, 1) == [] + x == x + [];
    } else {
      CopiesFront(x, n - 1);
      Regroup(x, Copies(x, n - 1), x);
    }
  }

  // ---------------------------------------------------------------- the verdict on repeated records

  /** The first record carries the hash of the last: a cycle of hashes. */
  predicate Cycle(c: Codec, x: seq<Record>)
    requires |x| > 0
  {
    Carries(x[0], ChainHash(c, x[|x| - 1]))
  }

  ghost predicate OneDay(x: seq<Record>) {
    forall i :: 0 <= i < |x| ==> x[i].file == x[0].file
  }

  /** Around a cycle the chain stays valid. */
  lemma {:induction false} CycleStaysValid(c: Codec, d: seq<Record>, x: seq<Record>, n: nat)
    requires ChainValid(c, d + x) && |x| > 0 && OneDay(x) && Cycle(c, x) && n > 0
    ensures ChainValid(c, d + Copies(x, n))
    decreases n
  {
    hide ChainHash, Genesis;
    if n == 1 {
      assert d + Copies(x, 1) == d + x;
    } else {
      CycleStaysValid(c, d, x, n - 1);
      var a := d + Copies(x, n - 1);
      assert d + Copies(x, n) == a + x;
      assert a == (d + Copies(x, n - 2)) + x;
      OneMoreCopy(c, d, x, a, d + Copies(x, n - 2));
    }
  }

  lemma OneMoreCopy(c: Codec, d: seq<Record>, x: seq<Record>, a: seq<Record>, front: seq<Record>)
    requires ChainValid(c, d + x) && |x| > 0 && OneDay(x) && Cycle(c, x)
    requires ChainValid(c, a) && a == front + x
    ensures ChainValid(c, a + x)
  {
    hide ChainHash, Genesis;
    var all := a + x;
    forall i | 0 <= i < |all| ensures Links(c, all, i) {
      if i < |a| {
        assert Links(c, a, i);
        assert all[i] == a[i] && (i > 0 ==> all[i - 1] == a[i - 1]);
      } else if i == |a| {
        assert all[i] == x[0] && all[i - 1] == a[|a| - 1] == x[|x| - 1];
      } else {
        var k := i - |a|;
        assert Links(c, d + x, |d| + k);
        assert all[i] == x[k] && all[i - 1] == x[k - 1];
        assert (d + x)[|d| + k] == x[k] && (d + x)[|d| + k - 1] == x[k - 1];
      }
    }
  }

  /** Otherwise the second copy breaks the chain at its first record. */
  lemma CopyBreaks(c: Codec, d: seq<Record>, x: seq<Record>, n: nat)
    requires ChainValid(c, d + x) && |x| > 0 && OneDay(x) && !Cycle(c, x)
    ensures Classify(c, d + Copies(x, n + 2)).status == if |x| > 1 then Interior else BrokenTail
  {
    hide ChainHash, Genesis, Classify;
    var more := Copies(x, n);
    var all := (d + x) + (x + more);
    CopiesFront(x, n + 1);
    CopiesFront(x, n);
    assert d + Copies(x, n + 2) == all;
    var m := |d| + |x|;
    BrokenThere(c, d, x, more);
    if |x| > 1 {
      SecondFollows(c, d, x, more);
      VerdictAtBreak(c, all, m);
    } else {
      OnlyCopies(x, n);
      forall i | m < i < |all| ensures !CoherentAt(c, all, i) {
        assert all[i] == x[0] && all[i - 1] == x[0];
      }
      BrokenAgain(c, all, m);
    }
  }

  lemma BrokenThere(c: Codec, d: seq<Record>, x: seq<Record>, more: seq<Record>)
    requires ChainValid(c, d + x) && |x| > 0 && OneDay(x) && !Cycle(c, x)
    ensures var all, m := (d + x) + (x + more), |d| + |x|;
      !Links(c, all, m) && forall i :: 0 <= i < m ==> Links(c, all, i)
  {
    hide ChainHash, Genesis;
    var all, m := (d + x) + (x + more), |d| + |x|;
    assert all[m] == x[0] && all[m - 1] == x[|x| - 1];
    forall i | 0 <= i < m ensures Links(c, all, i) {
      assert Links(c, d + x, i);
      assert all[i] == (d + x)[i] && (i > 0 ==> all[i - 1] == (d + x)[i - 1]);
    }
  }

  /** The second record of the copy follows the first. */
  lemma SecondFollows(c: Codec, d: seq<Record>, x: seq<Record>, more: seq<Record>)
    requires ChainValid(c, d + x) && |x| > 1 && OneDay(x)
    ensures CoherentAt(c, (d + x) + (x + more), |d| + |x| + 1)
  {
    hide ChainHash, Genesis;
    var all, m := (d + x) + (x + more), |d| + |x|;
    assert all[m] == x[0] && all[m + 1] == x[1];
    assert (d + x)[|d| + 1] == x[1] && (d + x)[|d|] == x[0];
    assert Links(c, d + x, |d| + 1) && Links(c, d + x, |d|);
  }

  lemma {:induction false} OnlyCopies(x: seq<Record>, n: nat)
    requires |x| == 1
    ensures forall i :: 0 <= i < |Copies(x, n)| ==> Copies(x, n)[i] == x[0]
    decreases n
  {
    if n > 0 {
      OnlyCopies(x, n - 1);
    }
  }

  // ---------------------------------------------------------------- a stuck writer's log

  /** The buffered lines as records. */
  function Buffered(c: Codec, w: Writer): seq<Record> {
    AllOf(c, w.today, LinesOf(w.buffer))
  }

  /** When `n` flushes of a reachable writer stop behind its buffered lines, the log verifies exactly
      when the lines were written at most once, or there are none, or their hashes form a cycle;
      otherwise it is corrupt: in its interior with two or more of them, else as a broken tail. */
  lemma AttemptsVerdict(c: Codec, w: Writer, n: nat)
    requires Inv(c, w)
    ensures var status := VerifyFiles(c, Attempts(w.files, w.buffer, n)).status;
      if n <= 1 || w.buffer == [] || Cycle(c, Buffered(c, w)) then status == Valid || status == Empty
      else status == if |w.buffer| > 1 then Interior else BrokenTail
  {
    hide RecordsOf, Tidy, Recoverable, AppendAll, Plain, Alike, Parsed, Classify, ChainHash, Genesis, Links, Copies, Tip, NoRecordOn;
    var d, x := RecordsOf(c, w.files, 0), Buffered(c, w);
    var after := Attempts(w.files, w.buffer, n);
    FullAlike(c, w);
    AttemptsAlike(c, w.files, w.buffer, w.today, n);
    AlikeVerdict(c, RecordsOf(c, after, 0), d + Copies(x, n));
    if w.buffer == [] {
      NoCopies(x, n);
      assert d + Copies(x, n) == d == d + x;
    } else if n == 0 {
      NoCopies(x, 0);
      ValidFront(c, d, x);
      assert d + Copies(x, 0) == d;
    } else if n == 1 {
      CopiesFront(x, 0);
      NoCopies(x, 0);
      assert d + Copies(x, 1) == d + x;
    } else if Cycle(c, x) {
      CycleStaysValid(c, d, x, n);
    } else {
      CopyBreaks(c, d, x, n - 2);
    }
  }

  lemma {:induction false} NoCopies(x: seq<Record>, n: nat)
    ensures x == [] || n == 0 ==> Copies(x, n) == []
    decreases n
  {
    if n > 0 {
      NoCopies(x, n - 1);
    }
  }

  lemma ValidFront(c: Codec, d: seq<Record>, x: seq<Record>)
    requires ChainValid(c, d + x)
    ensures ChainValid(c, d)
  {
    ValidPrefixes(c, d + x, |d|);
    assert (d + x)[..|d|] == d;
  }

  lemma FullAlike(c: Codec, w: Writer)
    requires Inv(c, w)
    ensures ChainValid(c, RecordsOf(c, w.files, 0) + Buffered(c, w)) && OneDay(Buffered(c, w))
  {
    hide RecordsOf, Tidy, Recoverable, AppendAll, Plain, Parsed, Links, Tip, NoRecordOn;
    var all := RecordsOf(c, w.files, 0) + Buffered(c, w);
    AppendedAlike(c, w.files, w.buffer, w.today);
    forall i | 0 <= i < |all| ensures Links(c, all, i) {
      AlikeLinks(c, Full(c, w), all, i);
    }
  }

  /** A best-effort event that does not encode, sent to a reachable writer, and then anything: what
      reaches the disk are `n` copies of the lines buffered before it, with the verdict above. */
  lemma StuckVerdict(c: Codec, w: Writer, date: int, ops: seq<Op>) returns (n: nat)
    requires Inv(c, w) && date >= w.today
    ensures var s := BufferUnencodable(w, date);
      var status := VerifyFiles(c, StuckRun(c, s, ops).w.files).status;
      && StuckRun(c, s, ops).w.files == Attempts(s.w.files, s.w.buffer, n)
      && if n <= 1 || s.w.buffer == [] || Cycle(c, Buffered(c, s.w)) then status == Valid || status == Empty
         else status == if |s.w.buffer| > 1 then Interior else BrokenTail
  {
    hide Inv, RollOver, Attempts, Buffered, StuckRun, VerifyFiles, Cycle;
    RollOverKeeps(c, w, date);
    var s := BufferUnencodable(w, date);
    n := StuckWritesTheSame(c, s, ops);
    AttemptsVerdict(c, s.w, n);
  }

  /** One durable event and the next periodic flush are enough. */
  lemma DurableThenTick(c: Codec, w: Writer, date: int, ev: Inbound)
    requires Inv(c, w) && date >= w.today
    requires var w1 := RollOver(w, date); w1.buffer != [] && !Cycle(c, Buffered(c, w1)) && Accepts(w1, ev) && ev.durable
    ensures var s := BufferUnencodable(w, date);
      VerifyFiles(c, StuckRun(c, s, [Submit(date, ev), Tick]).w.files).status ==
        if |s.w.buffer| > 1 then Interior else BrokenTail
  {
    hide Inv, Buffered, VerifyFiles, Cycle, AppendAll;
    RollOverKeeps(c, w, date);
    var s := BufferUnencodable(w, date);
    assert [Submit(date, ev), Tick][1..] == [Tick] && [Tick][1..] == [];
    var files := s.w.files;
    assert Attempts(files, s.w.buffer, 0) == files;
    assert Attempts(files, s.w.buffer, 1) == AppendAll(files, s.w.buffer);
    assert Attempts(files, s.w.buffer, 2) == AppendAll(AppendAll(files, s.w.buffer), s.w.buffer);
    AttemptsVerdict(c, s.w, 2);
  }
}
