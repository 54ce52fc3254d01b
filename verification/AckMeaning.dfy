/** What the writer's answers say: the link and the number in an acknowledgement, over whole runs
    (audit-log-writer/src/log_writer.py, `_handle_event`). */
module AckMeaning {
  import opened Bytes
  import opened Codec
  import opened AuditRecords
  import opened AuditClassify
  import opened AuditRepair
  import opened TextView
  import opened StartupGate
  import opened WriterModel
  import opened WriterRecovery
  import opened WriterRuns
  import opened RecoveryAnchor

  // ---------------------------------------------------------------- counting records by date

  ghost function Dated(recs: seq<Record>, from: int): set<int> {
    set i | 0 <= i < |recs| && recs[i].file >= from
  }

  /** How many records the log has in files of that day and later. */
  ghost function CountSince(recs: seq<Record>, from: int): nat {
    |Dated(recs, from)|
  }

  lemma CountOneMore(recs: seq<Record>, r: Record, from: int)
    ensures CountSince(recs + [r], from) == CountSince(recs, from) + if r.file >= from then 1 else 0
  {
    var all, n := recs + [r], |recs|;
    assert all[n] == r && forall i :: 0 <= i < n ==> all[i] == recs[i];
    assert Dated(all, from) == if r.file >= from then Dated(recs, from) + {n} else Dated(recs, from);
  }

  lemma {:induction false} CountConcat(a: seq<Record>, b: seq<Record>, from: int)
    ensures CountSince(a + b, from) == CountSince(a, from) + CountSince(b, from)
    decreases |b|
  {
    hide CountSince;
    if |b| == 0 {
      assert a + b == a;
      CountAll(b, from);
    } else {
      var n := |b| - 1;
      CountConcat(a, b[..n], from);
      assert a + b == (a + b[..n]) + [b[n]] && b == b[..n] + [b[n]];
      CountOneMore(a + b[..n], b[n], from);
      CountOneMore(b[..n], b[n], from);
    }
  }

  lemma {:induction false} CountAll(recs: seq<Record>, from: int)
    ensures (forall i :: 0 <= i < |recs| ==> recs[i].file >= from) ==> CountSince(recs, from) == |recs|
    ensures (forall i :: 0 <= i < |recs| ==> recs[i].file < from) ==> CountSince(recs, from) == 0
    decreases |recs|
  {
    if |recs| > 0 {
      var n := |recs| - 1;
      CountAll(recs[..n], from);
      hide CountSince;
      CountOneMore(recs[..n], recs[n], from);
      assert recs == recs[..n] + [recs[n]];
    } else {
      assert Dated(recs, from) == {};
    }
  }

  // ---------------------------------------------------------------- what a start counts

  /** A writer started on a clean, valid directory has counted the records of the last two days. */
  lemma StartCounts(c: Codec, files: seq<LogFile>, today: int)
    requires Tidy(files) && Clean(files) && UpTo(files, today) && ChainValid(c, RecordsOf(c, files, 0))
    ensures Start(c, files, today).Some?
    ensures Start(c, files, today).value.sequence == CountSince(RecordsOf(c, files, 0), today - 1)
  {
    hide RecordsOf, ChainHash, Genesis, Links, RecoverRecords, RecoverDay, AllParsed, Tidy, DataOf, CrClean, CountSince;
    var recs := RecordsOf(c, files, 0);
    var r0, yesterdays, todays := LastDays(c, files, today);
    var r1 := RecordsOf(c, yesterdays, |r0|);
    var r2 := RecordsOf(c, todays, |r0| + |r1|);
    ChainIsParsed(c, recs);
    AllParsedParts(recs, r0, r1, r2);
    var acc := Recovered(Genesis(c), 0, {});
    RecoverOneDay(c, acc, files, yesterdays, today - 1, |r0|);
    var acc1 := RecoverRecords(c, acc, r1);
    RecoverOneDay(c, acc1, files, todays, today, |r0| + |r1|);
    RecoverRecordsMeaning(c, acc, r1);
    RecoverRecordsMeaning(c, acc1, r2);
    CountConcat(r0 + r1, r2, today - 1);
    CountConcat(r0, r1, today - 1);
    CountAll(r0, today - 1);
    CountAll(r1, today - 1);
    CountAll(r2, today - 1);
  }

  // ---------------------------------------------------------------- one event

  /** The writer's number is the number of records, on disk and buffered, of `from` and later. */
  ghost predicate Counted(c: Codec, w: Writer, from: int) {
    Inv(c, w) && Clean(w.files) && from <= w.today && w.sequence == CountSince(Full(c, w), from)
  }

  /** What one event is answered, and what the answer says: a malformed one and one seen before change
      nothing; any other adds exactly one record at the end of the log, of this event and this day,
      whose link is the hash in the answer and whose place among the counted records is the number
      in it. */
  ghost predicate Answered(c: Codec, w: Writer, date: int, ev: Inbound, w': Writer, resp: Response, from: int) {
    if !ev.wellFormed then w' == w && resp == Error
    else if ev.sourceId in w.seen then w' == w && resp == Duplicate(ev.sourceId)
    else
      && resp.Ack? && |Full(c, w')| == |Full(c, w)| + 1 && Full(c, w) <= Full(c, w')
      && var r := Full(c, w')[|Full(c, w)|];
         && r.file == date && r.parsed == Some(Members(Some(resp.prevHash), Some(ev.sourceId)))
         && r.raw == c.dump(Event(ev.sourceId, resp.prevHash, ev.body))
         && resp.sequence == CountSince(Full(c, w'), from)
         && w'.prevHash == ChainHash(c, r) && w'.seen == w.seen + {ev.sourceId}
         && (ev.durable ==> RecordsOf(c, w'.files, 0) == Full(c, w') && w'.buffer == [])
  }

  lemma EventAnswered(c: Codec, w: Writer, date: int, ev: Inbound, from: int)
    requires Faithful(c) && Counted(c, w, from) && date >= w.today
    ensures var (w', resp) := Handle(c, w, date, ev);
      Counted(c, w', from) && Answered(c, w, date, ev, w', resp, from)
  {
    hide Inv, Faithful, Commit, RecordsOf, Full, CountSince, Clean, ChainHash;
    if Accepts(w, ev) {
      var r := CommitKeeps(c, w, date, ev);
      CommitClean(c, w, date, ev);
      CommitNumbers(c, w, date, ev);
      CountOneMore(Full(c, w), r, from);
      EventHash(c, w, date, ev, r);
    }
  }

  lemma CommitNumbers(c: Codec, w: Writer, date: int, ev: Inbound)
    ensures var w' := Commit(c, w, date, ev);
      && w'.sequence == w.sequence + 1 && w'.seen == w.seen + {ev.sourceId}
      && w'.prevHash == c.digest(c.dump(Event(ev.sourceId, w.prevHash, ev.body)))
      && (ev.durable ==> w'.buffer == [])
  {
    hide AppendLine, AppendAll;
  }

  lemma EventHash(c: Codec, w: Writer, date: int, ev: Inbound, r: Record)
    requires Faithful(c) && r.raw == c.dump(Event(ev.sourceId, w.prevHash, ev.body))
    ensures ChainHash(c, r) == c.digest(r.raw)
  {
    LoadDump(c, Event(ev.sourceId, w.prevHash, ev.body));
  }

  // ---------------------------------------------------------------- whole runs

  /** The day of the last start. */
  function StartedOn(day: int, ops: seq<Op>): int
    decreases |ops|
  {
    if |ops| == 0 then day else StartedOn(if ops[0].Restart? then ops[0].date else day, ops[1..])
  }

  lemma StepCounts(c: Codec, w: Writer, op: Op, day: int)
    requires Faithful(c) && Counted(c, w, day - 1) && day <= w.today && StepForward(w.today, op)
    ensures Step(c, w, op).Some?
    ensures var w', day' := Step(c, w, op).value, if op.Restart? then op.date else day;
      Counted(c, w', day' - 1) && day' <= w'.today
  {
    hide Inv, Faithful, RecordsOf, CrashDisk, Start, Flush, Handle, CountSince, Full, Clean;
    StepKeeps(c, w, op);
    StepKeepsClean(c, w, op);
    match op
    case Submit(date, ev) => EventAnswered(c, w, date, ev, day - 1);
    case Tick =>
      FlushKeeps(c, w);
      FlushCounts(w);
    case Restart(written, created, date) =>
      CrashDiskValid(c, w, written, created, date);
      CrashDiskClean(c, w, written, created, date);
      var files := CrashDisk(w, written, created);
      StartCounts(c, files, date);
      StartInv(c, files, date);
      StartToday(c, files, date);
      StartIsFull(c, files, date);
  }

  lemma FlushCounts(w: Writer)
    ensures Flush(w).sequence == w.sequence && Flush(w).today == w.today
  {
  }

  lemma StartIsFull(c: Codec, files: seq<LogFile>, today: int)
    requires Start(c, files, today).Some?
    ensures Full(c, Start(c, files, today).value) == RecordsOf(c, files, 0)
  {
    hide Recover, RecordsOf;
    assert AppendAll(files, []) == files;
  }

  lemma {:induction false} RunCounts(c: Codec, w: Writer, ops: seq<Op>, day: int)
    requires Faithful(c) && Counted(c, w, day - 1) && day <= w.today && DatesForward(w.today, ops)
    ensures Run(c, w, ops).Some?
    ensures Counted(c, Run(c, w, ops).value, StartedOn(day, ops) - 1)
    decreases |ops|
  {
    hide Faithful, Inv, Counted, Step, StepForward;
    if |ops| > 0 {
      StepCounts(c, w, ops[0], day);
      var w' := Step(c, w, ops[0]).value;
      CountedToday(c, w, day - 1);
      StepKeeps(c, w, ops[0]);
      EarlierStart(DayAfter(w.today, ops[0]), w'.today, ops[1..]);
      RunCounts(c, w', ops[1..], if ops[0].Restart? then ops[0].date else day);
    }
  }

  lemma CountedToday(c: Codec, w: Writer, from: int)
    requires Counted(c, w, from)
    ensures Inv(c, w) && Clean(w.files)
  {
    hide Inv, Clean;
  }

  lemma {:induction false} RunMore(c: Codec, w: Writer, ops: seq<Op>, op: Op)
    ensures Run(c, w, ops).Some? ==> Run(c, w, ops + [op]) == Step(c, Run(c, w, ops).value, op)
    decreases |ops|
  {
    hide Step;
    if |ops| > 0 {
      assert (ops + [op])[0] == ops[0] && (ops + [op])[1..] == ops[1..] + [op];
      if Step(c, w, ops[0]).Some? {
        RunMore(c, Step(c, w, ops[0]).value, ops[1..], op);
      }
    } else {
      assert (ops + [op])[1..] == [];
    }
  }

  /** The periodic flush brings everything accepted to disk and changes nothing else. */
  lemma TickWrites(c: Codec, w: Writer)
    requires Inv(c, w)
    ensures Step(c, w, Tick).Some?
    ensures var w' := Step(c, w, Tick).value;
      RecordsOf(c, w'.files, 0) == Full(c, w) && w' == w.(files := w'.files, buffer := [])
  {
    FlushKeeps(c, w);
    hide Inv, RecordsOf, Full;
  }

  /** Over every run from a clean, valid directory, crashes and restarts included: an event is answered
      with Error or Duplicate and changes nothing, or adds one record at the end of the log, and the
      acknowledgement carries that record's own link and its place among the records dated from the
      day before the last start on. */
  lemma AcksTellTheTruth(c: Codec, files: seq<LogFile>, today: int, ops: seq<Op>, date: int, ev: Inbound)
    requires Faithful(c) && Tidy(files) && Clean(files) && UpTo(files, today) && ChainValid(c, RecordsOf(c, files, 0))
    requires DatesForward(today, ops)
    ensures Start(c, files, today).Some?
    ensures Run(c, Start(c, files, today).value, ops).Some?
    ensures var w := Run(c, Start(c, files, today).value, ops).value;
      date >= w.today ==>
        var (w', resp) := Handle(c, w, date, ev);
        && Run(c, Start(c, files, today).value, ops + [Submit(date, ev)]) == Some(w')
        && Answered(c, w, date, ev, w', resp, StartedOn(today, ops) - 1)
  {
    hide Faithful, Inv, RecordsOf, Start, Answered, CountSince, Full, Clean, Tidy, UpTo, ChainValid, Handle, Run;
    StartCounts(c, files, today);
    CleanIsRecoverable(c, files, today);
    StartInv(c, files, today);
    StartToday(c, files, today);
    StartIsFull(c, files, today);
    var w0 := Start(c, files, today).value;
    RunCounts(c, w0, ops, today);
    var w := Run(c, w0, ops).value;
    if date >= w.today {
      EventAnswered(c, w, date, ev, StartedOn(today, ops) - 1);
      SubmitLast(c, w0, ops, date, ev);
    }
  }

  lemma SubmitLast(c: Codec, w: Writer, ops: seq<Op>, date: int, ev: Inbound)
    requires Run(c, w, ops).Some?
    ensures Run(c, w, ops + [Submit(date, ev)]) == Some(Handle(c, Run(c, w, ops).value, date, ev).0)
  {
    RunMore(c, w, ops, Submit(date, ev));
    hide Run, Handle;
  }
}
