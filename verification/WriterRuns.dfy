/** Every run of the writer leaves a log that verifies; repair and resume. */
module WriterRuns {
  import opened Bytes
  import opened Codec
  import opened AuditRecords
  import opened AuditClassify
  import opened AuditRepair
  import opened StartupGate
  import opened WriterModel
  import opened WriterRecovery
  import opened RecoveryAnchor

  // ---------------------------------------------------------------- buffered lines

  ghost predicate PlainLines(p: seq<Pending>, day: int) {
    forall i :: 0 <= i < |p| ==> p[i].date == day && Plain(p[i].line)
  }

  lemma {:induction false} AppendAllSplit(files: seq<LogFile>, a: seq<Pending>, b: seq<Pending>)
    ensures AppendAll(files, a + b) == AppendAll(AppendAll(files, a), b)
    decreases |a|
  {
    hide AppendLine;
    if |a| == 0 {
      assert a + b == b;
    } else {
      assert (a + b)[0] == a[0] && (a + b)[1..] == a[1..] + b;
      AppendAllSplit(AppendLine(files, a[0].date, a[0].line), a[1..], b);
    }
  }

  /** Writing buffered lines of the newest day only adds records at the end. */
  lemma {:induction false} AppendAllAtEnd(c: Codec, files: seq<LogFile>, p: seq<Pending>, day: int)
    requires Tidy(files) && UpTo(files, day) && PlainLines(p, day)
    ensures Tidy(AppendAll(files, p)) && UpTo(AppendAll(files, p), day)
    ensures RecordsOf(c, files, 0) <= RecordsOf(c, AppendAll(files, p), 0)
    ensures |RecordsOf(c, AppendAll(files, p), 0)| == |RecordsOf(c, files, 0)| + |p|
    decreases |p|
  {
    hide AppendLine, Tidy, UpTo, RecordsOf, Plain;
    if |p| > 0 {
      var r := AppendAtEnd(c, files, day, p[0].line);
      AppendAllAtEnd(c, AppendLine(files, day, p[0].line), p[1..], day);
    }
  }

  /** When all lines are records of the log, recovery finds its way after each of them. */
  lemma {:induction false} AppendAllRecoverable(c: Codec, files: seq<LogFile>, p: seq<Pending>, day: int)
    requires Tidy(files) && UpTo(files, day) && PlainLines(p, day) && Recoverable(c, files, day)
    requires AllParsed(RecordsOf(c, AppendAll(files, p), 0))
    ensures Recoverable(c, AppendAll(files, p), day)
    decreases |p|
  {
    hide AppendLine, Tidy, UpTo, RecordsOf, Plain, Recoverable, Load;
    if |p| > 0 {
      var line := p[0].line;
      var next := AppendLine(files, day, line);
      var r := AppendAtEnd(c, files, day, line);
      AppendAllAtEnd(c, next, p[1..], day);
      var n := |RecordsOf(c, files, 0)|;
      assert RecordsOf(c, AppendAll(files, p), 0)[n] == RecordsOf(c, next, 0)[n] == r;
      AppendRecoverable(c, files, day, line);
      AppendAllRecoverable(c, next, p[1..], day);
    }
  }

  /** Appending plain lines keeps a clean directory clean. */
  lemma {:induction false} AppendAllClean(c: Codec, files: seq<LogFile>, p: seq<Pending>, day: int)
    requires Tidy(files) && UpTo(files, day) && PlainLines(p, day) && Clean(files)
    ensures Clean(AppendAll(files, p))
    decreases |p|
  {
    hide AppendLine, Tidy, UpTo, RecordsOf, Clean, Blank;
    if |p| > 0 {
      var r := AppendAtEnd(c, files, day, p[0].line);
      AppendKeepsClean(files, day, p[0].line);
      AppendAllClean(c, AppendLine(files, day, p[0].line), p[1..], day);
    }
  }

  lemma PlainPart(p: seq<Pending>, day: int, k: nat)
    requires PlainLines(p, day) && k <= |p|
    ensures PlainLines(p[..k], day) && PlainLines(p[k..], day)
  {
    hide Plain;
    assert forall i :: 0 <= i < k ==> p[..k][i] == p[i];
    assert forall i :: 0 <= i < |p| - k ==> p[k..][i] == p[k + i];
  }

  // ---------------------------------------------------------------- the invariant

  /** Records on disk followed by the buffered ones. */
  ghost function Full(c: Codec, w: Writer): seq<Record> {
    RecordsOf(c, AppendAll(w.files, w.buffer), 0)
  }

  /** Disk plus buffer is one segmented chain whose tip is the writer's anchor; the anchor is
      genesis instead only when the next event opens the first record of its day's file.  A restart
      would find its way too. */
  ghost predicate Inv(c: Codec, w: Writer) {
    && Tidy(w.files) && UpTo(w.files, w.today) && Recoverable(c, w.files, w.today)
    && PlainLines(w.buffer, w.today)
    && ChainValid(c, Full(c, w))
    && (w.prevHash == Tip(c, Full(c, w))
        || (w.prevHash == Genesis(c) && w.buffer == [] && NoRecordOn(RecordsOf(c, w.files, 0), w.today)))
  }

  lemma FlushKeeps(c: Codec, w: Writer)
    requires Inv(c, w)
    ensures Inv(c, Flush(w))
    ensures RecordsOf(c, Flush(w).files, 0) == Full(c, w) == Full(c, Flush(w))
    ensures RecordsOf(c, w.files, 0) <= RecordsOf(c, Flush(w).files, 0)
  {
    hide Tidy, UpTo, RecordsOf, Plain, ChainValid, Tip, NoRecordOn, Recoverable, AllParsed;
    ChainIsParsed(c, Full(c, w));
    AppendAllRecoverable(c, w.files, w.buffer, w.today);
    AppendAllAtEnd(c, w.files, w.buffer, w.today);
    assert AppendAll(Flush(w).files, []) == Flush(w).files;
  }

  lemma RollOverKeeps(c: Codec, w: Writer, date: int)
    requires Inv(c, w) && date >= w.today
    ensures var w1 := RollOver(w, date); Inv(c, w1) && w1.today == date
    ensures RecordsOf(c, w.files, 0) <= RecordsOf(c, RollOver(w, date).files, 0)
    ensures Full(c, RollOver(w, date)) == Full(c, w)
  {
    hide Tidy, RecordsOf, Plain, ChainValid, Tip, NoRecordOn, Recoverable;
    if date != w.today {
      FlushKeeps(c, w);
      var w' := Flush(w);
      var w1 := w'.(today := date);
      RecordsUpTo(c, w'.files, 0, w.today);
      RecoverableLater(c, w'.files, w.today, date);
      assert AppendAll(w1.files, []) == w1.files;
      assert NoRecordOn(RecordsOf(c, w1.files, 0), date) by { LaterDay(RecordsOf(c, w'.files, 0), w.today, date); }
    }
  }

  lemma LaterDay(recs: seq<Record>, day: int, date: int)
    requires (forall i :: 0 <= i < |recs| ==> recs[i].file <= day) && day < date
    ensures NoRecordOn(recs, date)
  {
  }

  /** A record that carries the tip, or genesis as the first record of its file, extends a valid
      chain; nothing else does. */
  lemma AppendedLinks(c: Codec, recs: seq<Record>, r: Record, day: int)
    requires ChainValid(c, recs) && r.file == day && forall i :: 0 <= i < |recs| ==> recs[i].file <= day
    requires InDateOrder(recs)
    ensures ChainValid(c, recs + [r]) <==>
      Carries(r, Tip(c, recs)) || (Carries(r, Genesis(c)) && NoRecordOn(recs, day))
    ensures Tip(c, recs + [r]) == ChainHash(c, r)
  {
    hide ChainHash, Genesis;
    ChainGrows(c, recs, r);
    var all := recs + [r];
    var n := |recs|;
    if n > 0 {
      assert all[n - 1] == recs[n - 1];
      assert SegmentStart(all, n) <==> recs[n - 1].file != day;
      if recs[n - 1].file != day {
        assert NoRecordOn(recs, day);
      } else {
        assert !NoRecordOn(recs, day);
      }
    }
  }

  /** The record that an event becomes. */
  lemma EventRecord(c: Codec, e: Event, r: Record)
    requires Faithful(c)
    requires r.raw == c.dump(e) && r.parsed == Parsed(c, c.dump(e))
    ensures r.parsed == Some(Members(Some(e.prevHash), Some(e.sourceId)))
    ensures ChainHash(c, r) == c.digest(c.dump(e)) && Plain(c.dump(e))
  {
    hide Load;
    LoadDump(c, e);
  }

  /** One event committed: the log grows by exactly its record. */
  lemma CommitKeeps(c: Codec, w: Writer, date: int, ev: Inbound) returns (r: Record)
    requires Faithful(c) && Inv(c, w) && date >= w.today
    ensures var w' := Commit(c, w, date, ev);
      && Inv(c, w') && w'.today == date
      && Full(c, w') == Full(c, w) + [r]
      && RecordsOf(c, w.files, 0) <= RecordsOf(c, w'.files, 0)
      && (ev.durable ==> RecordsOf(c, w'.files, 0) == Full(c, w'))
    ensures r.file == date && r.parsed == Some(Members(Some(w.prevHash), Some(ev.sourceId)))
    ensures r.raw == c.dump(Event(ev.sourceId, w.prevHash, ev.body))
  {
    hide Tidy, RecordsOf, Faithful, ChainHash, Genesis, Open, Links, Recoverable, Load;
    var w1 := RollOver(w, date);
    RollOverKeeps(c, w, date);
    var e := Event(ev.sourceId, w1.prevHash, ev.body);
    var line := c.dump(e);
    assert Plain(line) && Load(c, line).Object? by { LoadDump(c, e); }
    FlushKeeps(c, w1);
    var disk := Flush(w1).files;
    r := AppendAtEnd(c, disk, date, line);
    EventRecord(c, e, r);
    TidySorted(disk);
    AppendRecoverable(c, disk, date, line);
    AppendExtends(c, disk, RecordsOf(c, disk, 0), r, w1);
    var w' := Commit(c, w, date, ev);
    if ev.durable {
      assert AppendAll(w'.files, []) == w'.files;
      CommittedDurably(c, w1, disk, line, r, w');
    } else {
      AppendAllSplit(w1.files, w1.buffer, [Pending(date, line)]);
      assert AppendAll(disk, [Pending(date, line)]) == AppendLine(disk, date, line) by {
        OnePending(disk, date, line);
      }
      assert PlainLines(w'.buffer, date);
    }
  }

  lemma OnePending(files: seq<LogFile>, date: int, line: Line)
    ensures AppendAll(files, [Pending(date, line)]) == AppendLine(files, date, line)
  {
    hide AppendLine;
    assert [Pending(date, line)][1..] == [];
  }

  lemma CommittedDurably(c: Codec, w1: Writer, disk: seq<LogFile>, line: Line, r: Record, w': Writer)
    requires disk == Flush(w1).files && w'.files == AppendLine(disk, w1.today, line)
    requires RecordsOf(c, w1.files, 0) <= RecordsOf(c, disk, 0)
    requires RecordsOf(c, w'.files, 0) == RecordsOf(c, disk, 0) + [r]
    ensures RecordsOf(c, w1.files, 0) <= RecordsOf(c, w'.files, 0)
  {
    hide RecordsOf, AppendLine;
  }

  lemma AppendExtends(c: Codec, disk: seq<LogFile>, recs: seq<Record>, r: Record, w1: Writer)
    requires Inv(c, w1) && recs == RecordsOf(c, disk, 0) == Full(c, w1)
    requires Sorted(disk) && UpTo(disk, w1.today) && r.file == w1.today
    requires Carries(r, w1.prevHash)
    requires RecordsOf(c, w1.files, 0) <= recs && (w1.buffer == [] ==> disk == w1.files)
    ensures ChainValid(c, recs + [r]) && Tip(c, recs + [r]) == ChainHash(c, r)
  {
    hide RecordsOf, ChainHash, Genesis, Tidy, Links, Recoverable;
    RecordsUpTo(c, disk, 0, w1.today);
    RecordsInDateOrder(c, disk, 0);
    AppendedLinks(c, recs, r, w1.today);
  }

  ghost predicate InDateOrder(recs: seq<Record>) {
    forall i, j :: 0 <= i < j < |recs| ==> recs[i].file <= recs[j].file
  }

  lemma {:induction false} RecordsInDateOrder(c: Codec, files: seq<LogFile>, index: nat)
    requires Sorted(files)
    ensures InDateOrder(RecordsOf(c, files, index))
    decreases |files|
  {
    hide RecordsFrom;
    if |files| > 0 {
      var first := FileRecords(c, files[0], index);
      var rest := RecordsOf(c, files[1..], index + |first|);
      FileOfRecords(c, files[0], index);
      RecordDates(c, files[1..], index + |first|, files[0].date);
      RecordsInDateOrder(c, files[1..], index + |first|);
      OrderedConcat(first, rest, files[0].date);
    }
  }

  lemma OrderedConcat(first: seq<Record>, rest: seq<Record>, day: int)
    requires forall i :: 0 <= i < |first| ==> first[i].file == day
    requires forall i :: 0 <= i < |rest| ==> rest[i].file > day
    requires InDateOrder(rest)
    ensures InDateOrder(first + rest)
  {
    var recs := first + rest;
    forall i, j | 0 <= i < j < |recs| ensures recs[i].file <= recs[j].file {
      if i >= |first| {
        assert recs[i] == rest[i - |first|] && recs[j] == rest[j - |first|];
      } else if j >= |first| {
        assert recs[j] == rest[j - |first|];
      }
    }
  }

  /** What a crash leaves before any file is created. */
  lemma PartlyWritten(c: Codec, w: Writer, k: nat)
    requires Inv(c, w) && k <= |w.buffer|
    ensures var files := AppendAll(w.files, w.buffer[..k]);
      && Tidy(files) && UpTo(files, w.today) && Recoverable(c, files, w.today)
      && RecordsOf(c, w.files, 0) <= RecordsOf(c, files, 0) <= Full(c, w)
      && ChainValid(c, RecordsOf(c, files, 0))
  {
    hide Tidy, RecordsOf, AppendLine, Links, Recoverable, AllParsed;
    var files := AppendAll(w.files, w.buffer[..k]);
    PlainPart(w.buffer, w.today, k);
    AppendAllAtEnd(c, w.files, w.buffer[..k], w.today);
    AppendAllSplit(w.files, w.buffer[..k], w.buffer[k..]);
    assert w.buffer[..k] + w.buffer[k..] == w.buffer;
    AppendAllAtEnd(c, files, w.buffer[k..], w.today);
    var recs := RecordsOf(c, files, 0);
    assert recs == Full(c, w)[..|recs|];
    ValidPrefixes(c, Full(c, w), |recs|);
    ChainIsParsed(c, recs);
    AppendAllRecoverable(c, w.files, w.buffer[..k], w.today);
  }

  function Written(w: Writer, written: nat): nat {
    if written <= |w.buffer| then written else |w.buffer|
  }

  /** Whatever the crash point, the disk it leaves is a valid log between disk and disk plus
      buffer, and a writer started on it finds its way. */
  lemma CrashDiskValid(c: Codec, w: Writer, written: nat, created: Option<int>, date: int)
    requires Inv(c, w) && StepForward(w.today, Restart(written, created, date))
    ensures var files := CrashDisk(w, written, created);
      && Tidy(files) && UpTo(files, date) && Recoverable(c, files, date)
      && RecordsOf(c, w.files, 0) <= RecordsOf(c, files, 0) <= Full(c, w)
      && ChainValid(c, RecordsOf(c, files, 0))
  {
    hide Inv, Tidy, RecordsOf, AppendAll, ChainValid, Recoverable, Open;
    PartlyWritten(c, w, Written(w, written));
    var files := AppendAll(w.files, w.buffer[..Written(w, written)]);
    if created.Some? {
      var d := created.value;
      UpToLater(files, w.today, d);
      RecoverableLater(c, files, w.today, d);
      OpenAtEnd(c, files, d);
      OpenRecoverable(c, files, d);
      UpToLater(Open(files, d), d, date);
      RecoverableLater(c, Open(files, d), d, date);
    } else {
      UpToLater(files, w.today, date);
      RecoverableLater(c, files, w.today, date);
    }
  }

  /** A process started on a valid directory in which recovery finds its way is in order. */
  lemma StartInv(c: Codec, files: seq<LogFile>, today: int)
    requires Tidy(files) && UpTo(files, today) && ChainValid(c, RecordsOf(c, files, 0))
    requires Recoverable(c, files, today)
    ensures Start(c, files, today).Some? && Inv(c, Start(c, files, today).value)
    ensures Start(c, files, today).value.files == files
  {
    hide Tidy, RecordsOf, Start, Links, Tip, AnchorOn, ReadableOn;
    StartMeaning(c, files, today);
    var w := Start(c, files, today).value;
    assert AppendAll(w.files, w.buffer) == files;
  }

  lemma UpToLater(files: seq<LogFile>, day: int, later: int)
    requires UpTo(files, day) && day <= later
    ensures UpTo(files, later)
  {
  }

  // ---------------------------------------------------------------- runs

  /** One step: nothing raises, the invariant holds again, no record on disk is lost. */
  lemma StepKeeps(c: Codec, w: Writer, op: Op)
    requires Faithful(c) && Inv(c, w) && StepForward(w.today, op)
    ensures Step(c, w, op).Some?
    ensures var w' := Step(c, w, op).value;
      && Inv(c, w') && w.today <= w'.today <= DayAfter(w.today, op)
      && RecordsOf(c, w.files, 0) <= RecordsOf(c, w'.files, 0)
  {
    hide Faithful, Inv, RecordsOf, CrashDisk, Start, Flush, Commit;
    match op
    case Submit(date, ev) =>
      if Accepts(w, ev) {
        var r := CommitKeeps(c, w, date, ev);
      }
    case Tick =>
      FlushKeeps(c, w);
      FlushToday(w);
    case Restart(written, created, date) =>
      CrashDiskValid(c, w, written, created, date);
      var files := CrashDisk(w, written, created);
      StartInv(c, files, date);
      StartToday(c, files, date);
  }

  /** No step of the writer puts a carriage return into a clean log. */
  lemma StepKeepsClean(c: Codec, w: Writer, op: Op)
    requires Faithful(c) && Inv(c, w) && StepForward(w.today, op) && Clean(w.files)
    ensures Step(c, w, op).Some? && Clean(Step(c, w, op).value.files)
  {
    hide Faithful, Inv, RecordsOf, CrashDisk, Start, Flush, Commit, Clean;
    StepKeeps(c, w, op);
    match op
    case Submit(date, ev) =>
      if Accepts(w, ev) {
        CommitClean(c, w, date, ev);
      }
    case Tick => FlushClean(c, w);
    case Restart(written, created, date) =>
      CrashDiskValid(c, w, written, created, date);
      CrashDiskClean(c, w, written, created, date);
      StartInv(c, CrashDisk(w, written, created), date);
  }

  lemma FlushClean(c: Codec, w: Writer)
    requires Inv(c, w) && Clean(w.files)
    ensures Clean(Flush(w).files)
  {
    hide Tidy, RecordsOf, Links, Recoverable, Clean;
    AppendAllClean(c, w.files, w.buffer, w.today);
  }

  lemma CommitClean(c: Codec, w: Writer, date: int, ev: Inbound)
    requires Faithful(c) && Inv(c, w) && date >= w.today && Clean(w.files)
    ensures Clean(Commit(c, w, date, ev).files)
  {
    hide Faithful, RecordsOf, Links, Clean, AppendLine, AppendAll, Recoverable, Tidy;
    var w1 := RollOver(w, date);
    RollOverKeeps(c, w, date);
    FlushClean(c, w);
    FlushKeeps(c, w1);
    FlushClean(c, w1);
    var line := EventLine(c, w1, ev);
    LoadDump(c, Event(ev.sourceId, w1.prevHash, ev.body));
    AppendKeepsClean(Flush(w1).files, date, line);
  }

  lemma CrashDiskClean(c: Codec, w: Writer, written: nat, created: Option<int>, date: int)
    requires Inv(c, w) && StepForward(w.today, Restart(written, created, date)) && Clean(w.files)
    ensures Clean(CrashDisk(w, written, created))
  {
    hide RecordsOf, Links, Clean, AppendAll, Recoverable, Tidy, Open;
    var k := Written(w, written);
    PlainPart(w.buffer, w.today, k);
    AppendAllClean(c, w.files, w.buffer[..k], w.today);
    AppendAllAtEnd(c, w.files, w.buffer[..k], w.today);
    if created.Some? {
      var files := AppendAll(w.files, w.buffer[..k]);
      UpToLater(files, w.today, created.value);
      AppendKeepsClean(files, created.value, []);
    }
  }

  lemma FlushToday(w: Writer)
    ensures Flush(w).today == w.today
  {
  }

  lemma StartToday(c: Codec, files: seq<LogFile>, date: int)
    ensures Start(c, files, date).Some? ==> Start(c, files, date).value.today == date
  {
    hide Recover;
  }

  /** Over every run of durable and best-effort events, flushes, rollovers, crashes and restarts
      after any number of idle days: recovery never raises, the invariant holds, and what is on
      disk stays there as a prefix of the later log. */
  lemma {:induction false} RunKeeps(c: Codec, w: Writer, ops: seq<Op>)
    requires Faithful(c) && Inv(c, w) && DatesForward(w.today, ops)
    ensures Run(c, w, ops).Some?
    ensures Inv(c, Run(c, w, ops).value)
    ensures RecordsOf(c, w.files, 0) <= RecordsOf(c, Run(c, w, ops).value.files, 0)
    decreases |ops|
  {
    hide Faithful, Inv, RecordsOf, Step;
    if |ops| > 0 {
      StepKeeps(c, w, ops[0]);
      var w' := Step(c, w, ops[0]).value;
      EarlierStart(DayAfter(w.today, ops[0]), w'.today, ops[1..]);
      RunKeeps(c, w', ops[1..]);
    }
  }

  lemma EarlierStart(day: int, earlier: int, ops: seq<Op>)
    requires DatesForward(day, ops) && earlier <= day
    ensures DatesForward(earlier, ops)
    decreases |ops|
  {
    if |ops| > 0 && ops[0].Tick? {
      EarlierStart(day, earlier, ops[1..]);
    }
  }

  /** The log on disk verifies after every run from an empty directory. */
  lemma EveryRunVerifies(c: Codec, today: int, ops: seq<Op>)
    requires Faithful(c) && DatesForward(today, ops)
    ensures Start(c, [], today).Some?
    ensures Run(c, Start(c, [], today).value, ops).Some?
    ensures var w := Run(c, Start(c, [], today).value, ops).value;
      && (VerifyFiles(c, w.files).status == Valid || VerifyFiles(c, w.files).status == Empty)
      && (VerifyFiles(c, Flush(w).files).status == Valid || VerifyFiles(c, Flush(w).files).status == Empty)
  {
    hide Faithful, Start, Run, Links;
    assert RecordsOf(c, [], 0) == [];
    EmptyTidy(today);
    CleanIsRecoverable(c, [], today);
    StartInv(c, [], today);
    StartToday(c, [], today);
    var w0 := Start(c, [], today).value;
    RunKeeps(c, w0, ops);
    DiskVerifies(c, Run(c, w0, ops).value);
  }

  /** What the writer leaves also passes the startup gate, in every window. */
  lemma EveryRunPassesGate(c: Codec, today: int, ops: seq<Op>, n: int)
    requires Faithful(c) && DatesForward(today, ops)
    ensures Start(c, [], today).Some? && Run(c, Start(c, [], today).value, ops).Some?
    ensures var w := Run(c, Start(c, [], today).value, ops).value;
      Clean(w.files) && Gate(c, w.files, n) == Passed && Gate(c, Flush(w).files, n) == Passed
  {
    hide Faithful, Start, Run, Links, Clean, CrClean, Gate, Classify, RecordsOf, Tidy, Recoverable, AppendAll;
    EmptyTidy(today);
    NoFilesNoRecords(c);
    CleanIsRecoverable(c, [], today);
    StartInv(c, [], today);
    StartToday(c, [], today);
    var w0 := Start(c, [], today).value;
    RunKeeps(c, w0, ops);
    RunKeepsClean(c, w0, ops);
    var w := Run(c, w0, ops).value;
    DiskVerifies(c, w);
    FlushKeeps(c, w);
    FlushClean(c, w);
    CleanPasses(c, w.files, n);
    CleanPasses(c, Flush(w).files, n);
  }

  lemma NoFilesNoRecords(c: Codec)
    ensures RecordsOf(c, [], 0) == [] && ChainValid(c, [])
  {
  }

  lemma CleanPasses(c: Codec, files: seq<LogFile>, n: int)
    requires Tidy(files) && Clean(files)
    requires VerifyFiles(c, files).status == Valid || VerifyFiles(c, files).status == Empty
    ensures Gate(c, files, n) == Passed
  {
    hide CrClean, Gate, Classify, RecordsOf;
    RejectionIsCorruption(c, files, n);
  }

  lemma {:induction false} RunKeepsClean(c: Codec, w: Writer, ops: seq<Op>)
    requires Faithful(c) && Inv(c, w) && DatesForward(w.today, ops) && Clean(w.files)
    ensures Run(c, w, ops).Some? && Clean(Run(c, w, ops).value.files)
    decreases |ops|
  {
    hide Faithful, Inv, RecordsOf, Step, Clean;
    if |ops| > 0 {
      StepKeeps(c, w, ops[0]);
      StepKeepsClean(c, w, ops[0]);
      var w' := Step(c, w, ops[0]).value;
      EarlierStart(DayAfter(w.today, ops[0]), w'.today, ops[1..]);
      RunKeepsClean(c, w', ops[1..]);
    }
  }

  lemma EmptyTidy(today: int)
    ensures Tidy([]) && Clean([]) && UpTo([], today)
  {
  }

  lemma DiskVerifies(c: Codec, w: Writer)
    requires Inv(c, w)
    ensures VerifyFiles(c, w.files).status == Valid || VerifyFiles(c, w.files).status == Empty
    ensures VerifyFiles(c, Flush(w).files).status == Valid || VerifyFiles(c, Flush(w).files).status == Empty
  {
    hide RecordsOf, Links, Tidy, AppendLine, PlainLines, CountGenesis, Recoverable;
    FlushKeeps(c, w);
    var recs, all := RecordsOf(c, w.files, 0), RecordsOf(c, Flush(w).files, 0);
    assert recs == all[..|recs|];
    ValidPrefixes(c, all, |recs|);
  }

  // ---------------------------------------------------------------- repair, then resume

  /** After a repair that leaves files in which recovery finds its way the writer starts, anchored
      at the manifest's hash or at genesis, and every run from there verifies and keeps all sealed
      records. */
  lemma RepairThenResume(c: Codec, before: seq<LogFile>, after: seq<LogFile>, m: Manifest, today: int, ops: seq<Op>)
    requires Faithful(c) && Sorted(before) && IsRepair(c, before, after, m)
    requires UpTo(after, today) && DatesForward(today, ops) && Recoverable(c, after, today)
    ensures Start(c, after, today).Some?
    ensures var w0 := Start(c, after, today).value;
      && (w0.prevHash == m.newSegmentAnchor || w0.prevHash == Genesis(c))
      && Run(c, w0, ops).Some?
      && (var w := Run(c, w0, ops).value;
          && VerifyFiles(c, w.files).status == Valid
          && VerifyFiles(c, Flush(w).files).status == Valid
          && RecordsOf(c, before, 0)[..m.recordsValid] <= RecordsOf(c, w.files, 0))
  {
    hide Faithful, Start, Run, Links, RecordsOf, ChainHash, Genesis, CountGenesis, AnchorOn, ReadableOn;
    SealedTidy(c, before, after, m);
    StartInv(c, after, today);
    StartMeaning(c, after, today);
    StartToday(c, after, today);
    var w0 := Start(c, after, today).value;
    var recs := RecordsOf(c, after, 0);
    TipIsLastHash(c, recs);
    RunKeeps(c, w0, ops);
    DiskVerifies(c, Run(c, w0, ops).value);
    FlushKeeps(c, Run(c, w0, ops).value);
  }

  lemma TipIsLastHash(c: Codec, recs: seq<Record>)
    requires Classify(c, recs).status == Valid
    ensures Tip(c, recs) == Classify(c, recs).lastValidHash && recs != [] && ChainValid(c, recs)
  {
    hide ChainHash, Genesis, Links, CountGenesis;
  }

  lemma SealedTidy(c: Codec, before: seq<LogFile>, after: seq<LogFile>, m: Manifest)
    requires Sorted(before) && IsRepair(c, before, after, m)
    ensures Tidy(after) && ChainValid(c, RecordsOf(c, after, 0)) && RecordsOf(c, after, 0) != []
  {
    hide RecordsOf, Links, ChainHash, Genesis, CountGenesis;
    var n := |after| - 1;
    assert forall i :: 0 <= i < n ==> after[i] == after[..n][i] == before[..n][i] == before[i];
  }

  /** Recovery finds its way whenever the sealed files hold carriage returns only before line
      feeds, whatever the quarantined bytes hold. */
  lemma CleanRepairResumes(c: Codec, before: seq<LogFile>, after: seq<LogFile>, m: Manifest, today: int)
    requires Sorted(before) && IsRepair(c, before, after, m) && Clean(after) && UpTo(after, today)
    ensures Recoverable(c, after, today)
  {
    hide RecordsOf, Links, Recoverable, IsRepair, Clean;
    SealedTidy(c, before, after, m);
    CleanIsRecoverable(c, after, today);
  }

  /** On any valid directory, sealed by a repair or not, the first durable event after a start keeps
      the log valid exactly when recovery finds its way. */
  lemma FirstEventAfterStart(c: Codec, files: seq<LogFile>, today: int, ev: Inbound)
    requires Faithful(c) && Tidy(files) && UpTo(files, today) && ChainValid(c, RecordsOf(c, files, 0))
    requires ev.wellFormed && ev.durable
    ensures var w := Start(c, files, today);
      && (w.None? ==> !Recoverable(c, files, today))
      && (w.Some? && ev.sourceId !in w.value.seen ==>
            (VerifyFiles(c, Handle(c, w.value, today, ev).0.files).status == Valid <==> Recoverable(c, files, today)))
  {
    hide Faithful, RecordsOf, Links, Genesis, Tip, Start, AppendLine, AnchorOn, ReadableOn, Classify, Tidy;
    StartMeaning(c, files, today);
    if Start(c, files, today).Some? {
      var w := Start(c, files, today).value;
      assert AppendAll(files, []) == files;
      CommitValidIff(c, files, today, Event(ev.sourceId, w.prevHash, ev.body));
    }
  }

  /** A durable event written by a writer with any anchor keeps the log valid exactly when the
      anchor is the log's tip, or is genesis and the day's file has no record yet. */
  lemma CommitValidIff(c: Codec, files: seq<LogFile>, today: int, e: Event)
    requires Faithful(c) && Tidy(files) && UpTo(files, today) && ChainValid(c, RecordsOf(c, files, 0))
    ensures VerifyFiles(c, AppendLine(files, today, c.dump(e))).status == Valid <==>
      var recs := RecordsOf(c, files, 0);
      e.prevHash == Tip(c, recs) || (e.prevHash == Genesis(c) && NoRecordOn(recs, today))
  {
    hide Faithful, RecordsOf, Links, ChainHash, Genesis, Tidy, AppendLine, CountGenesis;
    assert Plain(c.dump(e)) by { LoadDump(c, e); }
    var r := AppendAtEnd(c, files, today, c.dump(e));
    EventRecord(c, e, r);
    RecordsUpTo(c, files, 0, today);
    TidySorted(files);
    RecordsInDateOrder(c, files, 0);
    AppendedLinks(c, RecordsOf(c, files, 0), r, today);
  }

  lemma TidySorted(files: seq<LogFile>)
    requires Tidy(files)
    ensures Sorted(files)
  {
  }
}
