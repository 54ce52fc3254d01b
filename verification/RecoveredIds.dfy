/** Which source ids a restarted writer remembers, on any directory, and when those are the ids of
    the records. */
module RecoveredIds {
  import opened Bytes
  import opened Codec
  import opened AuditRecords
  import opened AuditClassify
  import opened AuditRepair
  import opened TextView
  import opened TextPieces
  import opened StartupGate
  import opened WriterModel
  import opened WriterRecovery
  import opened RecoveryAnchor
  import opened WriterRuns

  // ---------------------------------------------------------------- ids in text lines

  /** The line is a JSON object with this source id. */
  predicate ShowsId(c: Codec, line: Line, id: string) {
    match Load(c, line)
    case Object(_, sourceId) => id == (if sourceId.Some? then sourceId.value else "")
    case _ => false
  }

  ghost predicate Shows(c: Codec, lines: seq<Line>, id: string) {
    exists i :: 0 <= i < |lines| && ShowsId(c, lines[i], id)
  }

  /** A text line of that day shows the id. */
  ghost predicate ShownOn(c: Codec, files: seq<LogFile>, day: int, id: string) {
    Shows(c, DayText(files, day), id)
  }

  lemma ShowsMore(c: Codec, a: seq<Line>, b: seq<Line>, id: string)
    ensures Shows(c, a + b, id) <==> Shows(c, a, id) || Shows(c, b, id)
  {
    hide ShowsId;
    var all := a + b;
    if i :| 0 <= i < |all| && ShowsId(c, all[i], id) {
      if i < |a| {
        assert ShowsId(c, a[i], id);
      } else {
        assert ShowsId(c, b[i - |a|], id);
      }
    }
    if i :| 0 <= i < |a| && ShowsId(c, a[i], id) {
      assert ShowsId(c, all[i], id);
    }
    if i :| 0 <= i < |b| && ShowsId(c, b[i], id) {
      assert ShowsId(c, all[|a| + i], id);
    }
  }

  lemma ShowsOne(c: Codec, line: Line, id: string)
    ensures Shows(c, [line], id) <==> ShowsId(c, line, id)
  {
    hide ShowsId;
    assert [line][0] == line;
  }

  lemma {:induction false} RecoverLinesSeen(c: Codec, acc: Recovered, lines: seq<Line>, id: string)
    requires RecoverLines(c, acc, lines).Some?
    ensures id in RecoverLines(c, acc, lines).value.seen <==> id in acc.seen || Shows(c, lines, id)
    decreases |lines|
  {
    hide Load;
    if |lines| > 0 {
      var next := RecoverLine(c, acc, lines[0]).value;
      RecoverLinesSeen(c, next, lines[1..], id);
      assert id in next.seen <==> id in acc.seen || ShowsId(c, lines[0], id);
      hide ShowsId;
      assert lines == [lines[0]] + lines[1..];
      ShowsOne(c, lines[0], id);
      ShowsMore(c, [lines[0]], lines[1..], id);
    }
  }

  /** Empty lines show nothing. */
  lemma ShowsFiltered(c: Codec, lines: seq<Line>, id: string)
    ensures Shows(c, Filter(SkipEmpty, lines), id) <==> Shows(c, lines, id)
  {
    hide Load, Filter, Keeps;
    if i :| 0 <= i < |Filter(SkipEmpty, lines)| && ShowsId(c, Filter(SkipEmpty, lines)[i], id) {
      FilterIn(SkipEmpty, lines, i);
    }
    if i :| 0 <= i < |lines| && ShowsId(c, lines[i], id) {
      SkippedIsMalformed(c, SkipEmpty, lines[i]);
      FilterMember(SkipEmpty, lines, i);
    }
  }

  lemma RecoverDaySeen(c: Codec, acc: Recovered, files: seq<LogFile>, day: int, id: string)
    requires RecoverDay(c, acc, files, day).Some?
    ensures id in RecoverDay(c, acc, files, day).value.seen <==> id in acc.seen || ShownOn(c, files, day, id)
  {
    hide Load, TextLines, Filter, RecoverLines, Decodes, ShowsId;
    if DataOf(files, day).Some? {
      var lines := DayText(files, day);
      RecoverLinesSeen(c, acc, Filter(SkipEmpty, lines), id);
      ShowsFiltered(c, lines, id);
    }
  }

  /** On any directory a started writer remembers exactly the ids that text lines of the last two
      days show. */
  lemma StartSeen(c: Codec, files: seq<LogFile>, today: int, id: string)
    requires Start(c, files, today).Some?
    ensures id in Start(c, files, today).value.seen <==>
      ShownOn(c, files, today - 1, id) || ShownOn(c, files, today, id)
  {
    hide RecoverDay, ShownOn;
    var acc := Recovered(Genesis(c), 0, {});
    RecoverDaySeen(c, acc, files, today - 1, id);
    RecoverDaySeen(c, RecoverDay(c, acc, files, today - 1).value, files, today, id);
  }

  // ---------------------------------------------------------------- ids in records

  ghost predicate RecordOn(recs: seq<Record>, day: int, id: string) {
    exists i :: 0 <= i < |recs| && recs[i].file == day && SourceId(recs[i]) == id
  }

  /** From the day before `base` on, text lines show the id exactly on the days on which a record has
      it. */
  ghost predicate Candid(c: Codec, files: seq<LogFile>, id: string, base: int) {
    forall d :: d >= base - 1 ==> (ShownOn(c, files, d, id) <==> RecordOn(RecordsOf(c, files, 0), d, id))
  }

  lemma NoneAfter(c: Codec, files: seq<LogFile>, day: int, d: int, id: string)
    requires UpTo(files, day) && d > day
    ensures !ShownOn(c, files, d, id) && !RecordOn(RecordsOf(c, files, 0), d, id)
  {
    hide RecordsOf, DayText, SourceId;
    NoTextLater(files, day, d);
    RecordsUpTo(c, files, 0, day);
  }

  lemma RecordOnMore(recs: seq<Record>, r: Record, d: int, id: string)
    ensures RecordOn(recs + [r], d, id) <==> RecordOn(recs, d, id) || (r.file == d && SourceId(r) == id)
  {
    hide SourceId;
    var all := recs + [r];
    assert all[|recs|] == r;
    if i :| 0 <= i < |recs| && recs[i].file == d && SourceId(recs[i]) == id {
      assert all[i] == recs[i];
    }
  }

  lemma ObjectShows(c: Codec, r: Record, id: string)
    requires Load(c, r.raw).Object? && r.parsed == Parsed(c, r.raw)
    ensures ShowsId(c, r.raw, id) <==> SourceId(r) == id
  {
    hide Load;
  }

  lemma AppendCandid(c: Codec, files: seq<LogFile>, day: int, line: Line, id: string, base: int)
    requires Tidy(files) && UpTo(files, day) && Plain(line) && Load(c, line).Object?
    requires Candid(c, files, id, base)
    ensures Candid(c, AppendLine(files, day, line), id, base)
  {
    hide RecordsOf, DayText, AppendLine, Tidy, Load, Blank, Shows, RecordOn, ShowsId, SourceId;
    var after := AppendLine(files, day, line);
    var r := AppendAtEnd(c, files, day, line);
    ObjectShows(c, r, id);
    forall d | d >= base - 1 ensures ShownOn(c, after, d, id) <==> RecordOn(RecordsOf(c, after, 0), d, id) {
      assert ShownOn(c, files, d, id) <==> RecordOn(RecordsOf(c, files, 0), d, id);
      if d > day {
        NoneAfter(c, after, day, d, id);
      } else {
        DayTextAppend(files, day, line, d);
        RecordOnMore(RecordsOf(c, files, 0), r, d, id);
        ShowsMore(c, DayText(files, d), [line], id);
        ShowsOne(c, line, id);
        assert DayText(files, d) + [] == DayText(files, d);
      }
    }
  }

  lemma OpenCandid(c: Codec, files: seq<LogFile>, day: int, id: string, base: int)
    requires Tidy(files) && UpTo(files, day) && Candid(c, files, id, base)
    ensures Candid(c, Open(files, day), id, base)
  {
    hide RecordsOf, DayText, Open, Tidy, Shows, RecordOn;
    var after := Open(files, day);
    OpenAtEnd(c, files, day);
    forall d | d >= base - 1 ensures ShownOn(c, after, d, id) <==> RecordOn(RecordsOf(c, after, 0), d, id) {
      assert ShownOn(c, files, d, id) <==> RecordOn(RecordsOf(c, files, 0), d, id);
      if d > day {
        NoneAfter(c, after, day, d, id);
      } else {
        DayTextOpen(files, day, d);
      }
    }
  }

  lemma {:induction false} AppendAllCandid(c: Codec, files: seq<LogFile>, p: seq<Pending>, day: int, id: string, base: int)
    requires Tidy(files) && UpTo(files, day) && PlainLines(p, day) && Candid(c, files, id, base)
    requires AllParsed(RecordsOf(c, AppendAll(files, p), 0))
    ensures Candid(c, AppendAll(files, p), id, base)
    decreases |p|
  {
    hide AppendLine, Tidy, UpTo, RecordsOf, Plain, Candid, Load;
    if |p| > 0 {
      var line := p[0].line;
      var next := AppendLine(files, day, line);
      var r := AppendAtEnd(c, files, day, line);
      AppendAllAtEnd(c, next, p[1..], day);
      var n := |RecordsOf(c, files, 0)|;
      assert RecordsOf(c, AppendAll(files, p), 0)[n] == RecordsOf(c, next, 0)[n] == r;
      AppendCandid(c, files, day, line, id, base);
      AppendAllCandid(c, next, p[1..], day, id, base);
    }
  }

  // ---------------------------------------------------------------- the writer keeps it

  lemma FlushCandid(c: Codec, w: Writer, id: string, base: int)
    requires Inv(c, w) && Candid(c, w.files, id, base)
    ensures Candid(c, Flush(w).files, id, base)
  {
    hide Tidy, UpTo, RecordsOf, Plain, ChainValid, Tip, NoRecordOn, Recoverable, AllParsed, Candid;
    ChainIsParsed(c, Full(c, w));
    AppendAllCandid(c, w.files, w.buffer, w.today, id, base);
  }

  lemma CommitCandid(c: Codec, w: Writer, date: int, ev: Inbound, id: string, base: int)
    requires Faithful(c) && Inv(c, w) && date >= w.today && Candid(c, w.files, id, base)
    ensures Candid(c, Commit(c, w, date, ev).files, id, base)
  {
    hide Tidy, UpTo, RecordsOf, Faithful, Recoverable, Load, Candid, ChainValid, Tip, NoRecordOn, AppendLine, AppendAll;
    var w1 := RollOver(w, date);
    RollOverKeeps(c, w, date);
    if date != w.today {
      FlushCandid(c, w, id, base);
    }
    FlushKeeps(c, w1);
    FlushCandid(c, w1, id, base);
    var line := EventLine(c, w1, ev);
    assert Plain(line) && Load(c, line).Object? by { LoadDump(c, Event(ev.sourceId, w1.prevHash, ev.body)); }
    if ev.durable {
      AppendCandid(c, Flush(w1).files, date, line, id, base);
    }
  }

  lemma CrashCandid(c: Codec, w: Writer, written: nat, created: Option<int>, date: int, id: string, base: int)
    requires Inv(c, w) && StepForward(w.today, Restart(written, created, date)) && Candid(c, w.files, id, base)
    ensures Candid(c, CrashDisk(w, written, created), id, base)
  {
    hide Tidy, RecordsOf, AppendAll, Recoverable, Open, Candid, AllParsed, Links, Tip, NoRecordOn;
    var k := Written(w, written);
    var files := AppendAll(w.files, w.buffer[..k]);
    PartlyWritten(c, w, k);
    PlainPart(w.buffer, w.today, k);
    ChainIsParsed(c, RecordsOf(c, files, 0));
    AppendAllCandid(c, w.files, w.buffer[..k], w.today, id, base);
    if created.Some? {
      UpToLater(files, w.today, created.value);
      OpenCandid(c, files, created.value, id, base);
    }
  }

  /** A restart on such a directory remembers the id exactly when a record of the last two days has
      it. */
  lemma StartCandid(c: Codec, files: seq<LogFile>, today: int, id: string, base: int)
    requires Candid(c, files, id, base) && base <= today && UpTo(files, today)
    requires Start(c, files, today).Some?
    ensures id in Start(c, files, today).value.seen <==>
      exists i :: 0 <= i < |RecordsOf(c, files, 0)| && RecordsOf(c, files, 0)[i].file >= today - 1
        && SourceId(RecordsOf(c, files, 0)[i]) == id
  {
    hide RecordsOf, Start, ShownOn, SourceId;
    StartSeen(c, files, today, id);
    var recs := RecordsOf(c, files, 0);
    RecordsUpTo(c, files, 0, today);
    assert ShownOn(c, files, today, id) <==> RecordOn(recs, today, id);
    assert ShownOn(c, files, today - 1, id) <==> RecordOn(recs, today - 1, id);
    LastTwoDays(recs, today, id);
  }

  lemma LastTwoDays(recs: seq<Record>, today: int, id: string)
    requires forall i :: 0 <= i < |recs| ==> recs[i].file <= today
    ensures RecordOn(recs, today - 1, id) || RecordOn(recs, today, id) <==>
      exists i :: 0 <= i < |recs| && recs[i].file >= today - 1 && SourceId(recs[i]) == id
  {
    hide SourceId;
  }
}
