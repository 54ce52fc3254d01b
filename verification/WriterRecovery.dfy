/** What appending and recovering do to the records on disk. */
module WriterRecovery {
  import opened Bytes
  import opened Codec
  import opened AuditRecords
  import opened AuditClassify
  import opened AuditRepair
  import opened TextView
  import opened TextPieces
  import opened StartupGate
  import opened OtherVerifiers
  import opened WriterModel

  // ---------------------------------------------------------------- tidy directories

  ghost predicate UpTo(files: seq<LogFile>, day: int) {
    forall i :: 0 <= i < |files| ==> files[i].date <= day
  }

  /** In date order, the last file newline-terminated. */
  ghost predicate Tidy(files: seq<LogFile>) {
    Sorted(files) && (|files| > 0 ==> Terminated(files[|files| - 1].data))
  }

  /** Carriage returns only before line feeds, as in every file that the writer made. */
  ghost predicate Clean(files: seq<LogFile>) {
    forall i :: 0 <= i < |files| ==> CrClean(files[i].data)
  }

  /** A line as the writer produces it. */
  predicate Plain(line: Line) {
    NoLineBreak(line) && !Blank(line)
  }

  ghost predicate NoRecordOn(recs: seq<Record>, day: int) {
    forall i :: 0 <= i < |recs| ==> recs[i].file != day
  }

  /** The hash the next record of an unbroken chain must carry. */
  function Tip(c: Codec, recs: seq<Record>): Hash {
    Anchor(c, recs, |recs|)
  }

  // ---------------------------------------------------------------- appending at the end

  lemma {:induction false} InsertAtEnd(files: seq<LogFile>, f: LogFile)
    requires forall i :: 0 <= i < |files| ==> files[i].date < f.date
    ensures Insert(files, f) == files + [f]
    decreases |files|
  {
    if |files| > 0 {
      InsertAtEnd(files[1..], f);
      assert files == [files[0]] + files[1..];
    }
  }

  lemma {:induction false} ExtendAtEnd(files: seq<LogFile>, f: LogFile, text: seq<byte>)
    requires forall i :: 0 <= i < |files| ==> files[i].date < f.date
    ensures Extend(files + [f], f.date, text) == files + [f.(data := f.data + text)]
    decreases |files|
  {
    var all := files + [f];
    if |files| == 0 {
      assert all[1..] == [];
    } else {
      assert all[0] == files[0] && all[1..] == files[1..] + [f];
      ExtendAtEnd(files[1..], f, text);
      assert files == [files[0]] + files[1..];
    }
  }

  /** Opening the day's file at the end of the directory: the files before it and the file. */
  lemma OpenSplits(files: seq<LogFile>, day: int) returns (front: seq<LogFile>, f: LogFile)
    requires Tidy(files) && UpTo(files, day)
    ensures Open(files, day) == front + [f] && f.date == day
    ensures forall i :: 0 <= i < |front| ==> front[i].date < day
    ensures Tidy(front + [f]) && UpTo(front + [f], day) && Terminated(f.data)
    ensures files == front + [f] || (files == front && f.data == [])
  {
    var m := |files|;
    if m > 0 && files[m - 1].date == day {
      front, f := files[..m - 1], files[m - 1];
      assert HasFile(files, day);
      assert files == front + [f];
    } else {
      front, f := files, LogFile(day, []);
      assert !HasFile(files, day);
      InsertAtEnd(files, f);
    }
  }

  lemma EmptyIsClean()
    ensures CrClean([])
  {
  }

  lemma CleanAppend(data: seq<byte>, line: Line)
    requires CrClean(data) && Terminated(data) && NoLineBreak(line)
    ensures CrClean(data + (line + [LF]))
  {
    var d := data + (line + [LF]);
    assert forall i :: |data| <= i < |data| + |line| ==> d[i] == line[i - |data|];
    forall i | 0 <= i < |d| && d[i] == CR ensures i + 1 == |d| || d[i + 1] == LF {
      if i < |data| {
        assert data[i] == CR;
      }
    }
  }

  lemma CleanParts(a: seq<LogFile>, b: seq<LogFile>)
    ensures Clean(a + b) <==> Clean(a) && Clean(b)
  {
    hide CrClean;
    assert forall i :: 0 <= i < |a| ==> (a + b)[i] == a[i];
    assert forall i :: 0 <= i < |b| ==> (a + b)[|a| + i] == b[i];
  }

  lemma CleanOne(f: LogFile)
    ensures Clean([f]) <==> CrClean(f.data)
  {
    hide CrClean;
    assert [f][0] == f;
  }

  /** Opening or appending what the writer appends keeps a directory clean. */
  lemma AppendKeepsClean(files: seq<LogFile>, day: int, line: Line)
    requires Tidy(files) && UpTo(files, day) && Clean(files) && NoLineBreak(line)
    ensures Clean(Open(files, day)) && Clean(AppendLine(files, day, line))
  {
    hide CrClean, Clean;
    var front, f := OpenSplits(files, day);
    var g := f.(data := f.data + (line + [LF]));
    ExtendAtEnd(front, f, line + [LF]);
    EmptyIsClean();
    CleanParts(front, [f]);
    CleanParts(front, [g]);
    CleanOne(f);
    CleanOne(g);
    CleanAppend(f.data, line);
  }

  /** What appending a line on the newest day does to the files. */
  lemma AppendedFiles(files: seq<LogFile>, day: int, line: Line) returns (front: seq<LogFile>, f: LogFile, g: LogFile)
    requires Tidy(files) && UpTo(files, day)
    ensures AppendLine(files, day, line) == front + [g] && g == f.(data := f.data + (line + [LF])) && f.date == day
    ensures Terminated(f.data) && forall i :: 0 <= i < |front| ==> front[i].date < day
    ensures files == front + [f] || (files == front && f.data == [])
    ensures Tidy(front + [g]) && UpTo(front + [g], day)
  {
    front, f := OpenSplits(files, day);
    g := f.(data := f.data + (line + [LF]));
    ExtendAtEnd(front, f, line + [LF]);
    var a, b := front + [f], front + [g];
    assert forall i :: 0 <= i < |a| ==> a[i].date == b[i].date;
  }

  /** Appending a line on the newest day adds one record at the end. */
  lemma AppendAtEnd(c: Codec, files: seq<LogFile>, day: int, line: Line) returns (r: Record)
    requires Tidy(files) && UpTo(files, day) && Plain(line)
    ensures Tidy(AppendLine(files, day, line)) && UpTo(AppendLine(files, day, line), day)
    ensures RecordsOf(c, AppendLine(files, day, line), 0) == RecordsOf(c, files, 0) + [r]
    ensures r.raw == line && r.file == day && r.parsed == Parsed(c, line)
  {
    hide Parsed, RecordsFrom, Blank, Tidy, AppendLine;
    var front, f, g := AppendedFiles(files, day, line);
    var before := RecordsOf(c, front, 0);
    var n := |before|;
    RecordsOfConcat(c, front, [f], 0);
    RecordsOfConcat(c, front, [g], 0);
    OneFile(c, f, n);
    OneFile(c, g, n);
    assert LF !in line;
    assert f.data + line + [LF] == g.data;
    RecordsAppendLine(c, f, line, n);
    r := Record(n + |FileRecords(c, f, n)|, f.date, |f.data|, |f.data| + |line| + 1, line, Parsed(c, line));
    Regroup(before, FileRecords(c, f, n), [r]);
    EmptyFileHasNoRecords(c, f, n);
    if files == front {
      assert before + FileRecords(c, f, n) == before;
    }
  }

  lemma EmptyFileHasNoRecords(c: Codec, f: LogFile, index: nat)
    ensures f.data == [] ==> FileRecords(c, f, index) == []
  {
  }

  /** Creating the day's file adds no record. */
  lemma OpenAtEnd(c: Codec, files: seq<LogFile>, day: int)
    requires Tidy(files) && UpTo(files, day)
    ensures Tidy(Open(files, day)) && UpTo(Open(files, day), day)
    ensures RecordsOf(c, Open(files, day), 0) == RecordsOf(c, files, 0)
  {
    hide RecordsFrom;
    var front, f := OpenSplits(files, day);
    if files == front {
      RecordsOfConcat(c, front, [f], 0);
      OneFile(c, f, |RecordsOf(c, front, 0)|);
      EmptyFileHasNoRecords(c, f, |RecordsOf(c, front, 0)|);
    }
  }

  /** Records of a directory up to a day are dated up to that day. */
  lemma {:induction false} RecordsUpTo(c: Codec, files: seq<LogFile>, index: nat, day: int)
    requires UpTo(files, day)
    ensures forall i :: 0 <= i < |RecordsOf(c, files, index)| ==> RecordsOf(c, files, index)[i].file <= day
    decreases |files|
  {
    hide RecordsFrom;
    if |files| > 0 {
      var first := FileRecords(c, files[0], index);
      var rest := RecordsOf(c, files[1..], index + |first|);
      FileOfRecords(c, files[0], index);
      RecordsUpTo(c, files[1..], index + |first|, day);
      var recs := RecordsOf(c, files, index);
      assert recs == first + rest;
      assert forall i :: |first| <= i < |recs| ==> recs[i] == rest[i - |first|];
    }
  }

  // ---------------------------------------------------------------- one day's recovery

  function SourceId(r: Record): string {
    if r.parsed.Some? && r.parsed.value.sourceId.Some? then r.parsed.value.sourceId.value else ""
  }

  /** Recovery from records: the last one's hash, their number and their source ids. */
  function RecoverRecords(c: Codec, acc: Recovered, recs: seq<Record>): Recovered
    decreases |recs|
  {
    if |recs| == 0 then acc
    else RecoverRecords(c, Recovered(ChainHash(c, recs[0]), acc.sequence + 1, acc.seen + {SourceId(recs[0])}), recs[1..])
  }

  /** White-space lines make no difference to recovery. */
  lemma {:induction false} RecoverSkipsBlank(c: Codec, acc: Recovered, lines: seq<Line>)
    ensures RecoverLines(c, acc, Filter(SkipEmpty, lines)) == RecoverLines(c, acc, Filter(SkipStrBlank, lines))
    decreases |lines|
  {
    if |lines| > 0 {
      var l, rest := lines[0], lines[1..];
      assert lines == [l] + rest;
      RecoverStep(c, acc, l, Filter(SkipEmpty, rest));
      RecoverStep(c, acc, l, Filter(SkipStrBlank, rest));
      hide RecoverLine, RecoverLines, StrBlank;
      FilterCons(SkipEmpty, l, rest);
      FilterCons(SkipStrBlank, l, rest);
      if |l| == 0 {
        RecoverSkipsBlank(c, acc, rest);
      } else if StrBlank(l) {
        RecoverBlank(c, acc, l);
        RecoverSkipsBlank(c, acc, rest);
      } else if RecoverLine(c, acc, l).Some? {
        RecoverSkipsBlank(c, RecoverLine(c, acc, l).value, rest);
      }
      if |l| == 0 { EmptyStrBlank(l); }
    }
  }

  lemma EmptyStrBlank(l: Line)
    ensures |l| == 0 ==> StrBlank(l)
  {
  }

  lemma RecoverBlank(c: Codec, acc: Recovered, l: Line)
    requires StrBlank(l)
    ensures RecoverLine(c, acc, l) == Some(acc)
  {
  }

  lemma RecoverStep(c: Codec, acc: Recovered, l: Line, rest: seq<Line>)
    ensures RecoverLines(c, acc, [l] + rest) ==
      match RecoverLine(c, acc, l) case None => None case Some(acc') => RecoverLines(c, acc', rest)
    ensures [] + rest == rest
  {
    hide RecoverLine;
    assert ([l] + rest)[1..] == rest;
  }

  lemma {:induction false} RecoverFromRecords(c: Codec, acc: Recovered, recs: seq<Record>)
    requires AllParsed(recs)
    requires forall i :: 0 <= i < |recs| ==> recs[i].parsed == Parsed(c, recs[i].raw)
    ensures RecoverLines(c, acc, ChopAll(Raws(recs))) == Some(RecoverRecords(c, acc, recs))
    decreases |recs|
  {
    hide Load, ChopCR;
    if |recs| > 0 {
      var rest := recs[1..];
      LoadChop(c, recs[0].raw);
      assert ChopAll(Raws(recs)) == [ChopCR(recs[0].raw)] + ChopAll(Raws(rest));
      RecoverStep(c, acc, ChopCR(recs[0].raw), ChopAll(Raws(rest)));
      var acc' := Recovered(ChainHash(c, recs[0]), acc.sequence + 1, acc.seen + {SourceId(recs[0])});
      assert RecoverLine(c, acc, ChopCR(recs[0].raw)) == Some(acc');
      RecoverFromRecords(c, acc', rest);
    }
  }

  /** Recovering a file whose records are all JSON objects is recovering its records. */
  lemma RecoverFile(c: Codec, acc: Recovered, f: LogFile, index: nat)
    requires CrClean(f.data) && AllParsed(FileRecords(c, f, index))
    ensures Decodes(c, f.data)
    ensures RecoverLines(c, acc, Filter(SkipEmpty, TextLines(f.data))) ==
      Some(RecoverRecords(c, acc, FileRecords(c, f, index)))
  {
    hide CrClean, Decodes, RecordsFrom, StrBlank, Blank, RecoverLines, ChopCR, Parsed, RecoverRecords;
    var recs := FileRecords(c, f, index);
    ObjectsAreVisible(c, f, index);
    RecoverSkipsBlank(c, acc, TextLines(f.data));
    TextLinesAreChopped(f.data);
    var lines := Lines(f.data);
    forall i | 0 <= i < |lines| ensures Keeps(SkipStrBlank, ChopCR(lines[i])) == Keeps(SkipBlank, lines[i]) {
      StrBlankOfChop(lines[i]);
    }
    FilterChop(SkipStrBlank, SkipBlank, lines);
    RecordsAreLines(c, f, index);
    RecordsWellPlaced(c, f, 0, index);
    forall i | 0 <= i < |recs| ensures recs[i].parsed == Parsed(c, recs[i].raw) {
      assert WellPlaced(c, f, recs[i]);
    }
    RecoverFromRecords(c, acc, recs);
  }

  /** What recovery from records amounts to. */
  lemma {:induction false} RecoverRecordsMeaning(c: Codec, acc: Recovered, recs: seq<Record>)
    ensures var r := RecoverRecords(c, acc, recs);
      && r.prevHash == (if |recs| == 0 then acc.prevHash else ChainHash(c, recs[|recs| - 1]))
      && r.sequence == acc.sequence + |recs|
      && forall s :: s in r.seen <==> s in acc.seen || exists i :: 0 <= i < |recs| && SourceId(recs[i]) == s
    decreases |recs|
  {
    hide ChainHash, SourceId;
    if |recs| > 0 {
      var rest := recs[1..];
      var acc' := Recovered(ChainHash(c, recs[0]), acc.sequence + 1, acc.seen + {SourceId(recs[0])});
      RecoverRecordsMeaning(c, acc', rest);
      var r := RecoverRecords(c, acc', rest);
      assert RecoverRecords(c, acc, recs) == r;
      forall s
        ensures s in r.seen <==> s in acc.seen || exists i :: 0 <= i < |recs| && SourceId(recs[i]) == s
      {
        if s in acc'.seen && s !in acc.seen {
          assert SourceId(recs[0]) == s;
        }
        if i :| 0 <= i < |rest| && SourceId(rest[i]) == s {
          assert SourceId(recs[i + 1]) == s;
        }
        if i :| 0 <= i < |recs| && SourceId(recs[i]) == s {
          if i > 0 {
            assert SourceId(rest[i - 1]) == s;
          }
        }
      }
    }
  }

  // ---------------------------------------------------------------- two days' recovery

  lemma {:induction false} DataOfSkip(a: seq<LogFile>, b: seq<LogFile>, day: int)
    requires forall i :: 0 <= i < |a| ==> a[i].date != day
    ensures DataOf(a + b, day) == DataOf(b, day)
    decreases |a|
  {
    if |a| == 0 {
      assert a + b == b;
    } else {
      assert (a + b)[0] == a[0] && (a + b)[1..] == a[1..] + b;
      DataOfSkip(a[1..], b, day);
    }
  }

  lemma DataOfOther(b: seq<LogFile>, day: int)
    requires |b| <= 1 && forall i :: 0 <= i < |b| ==> b[i].date != day
    ensures DataOf(b, day) == None
  {
    if |b| == 1 {
      assert b[1..] == [];
    }
  }

  /** A directory up to a day, split before that day. */
  lemma SplitDay(files: seq<LogFile>, day: int) returns (earlier: seq<LogFile>, on: seq<LogFile>)
    requires Sorted(files) && UpTo(files, day)
    ensures files == earlier + on && |on| <= 1 && Sorted(earlier) && UpTo(earlier, day - 1)
    ensures |on| == 1 ==> on[0].date == day
    ensures DataOf(files, day) == if |on| == 1 then Some(on[0].data) else None
    ensures forall d :: d < day ==> DataOf(files, d) == DataOf(earlier, d)
  {
    var m := |files|;
    if m > 0 && files[m - 1].date == day {
      earlier, on := files[..m - 1], [files[m - 1]];
    } else {
      earlier, on := files, [];
    }
    assert files == earlier + on;
    DataOfSkip(earlier, on, day);
    forall d | d < day ensures DataOf(files, d) == DataOf(earlier, d) {
      DataOfBefore(earlier, on, d);
    }
  }

  lemma {:induction false} DataOfBefore(a: seq<LogFile>, b: seq<LogFile>, day: int)
    requires |b| <= 1 && forall i :: 0 <= i < |b| ==> b[i].date != day
    ensures DataOf(a + b, day) == DataOf(a, day)
    decreases |a|
  {
    if |a| == 0 {
      assert a + b == b;
      DataOfOther(b, day);
    } else {
      assert (a + b)[0] == a[0] && (a + b)[1..] == a[1..] + b;
      DataOfBefore(a[1..], b, day);
    }
  }

  ghost predicate SeenIs(seen: set<string>, recs: seq<Record>, from: int) {
    forall s :: s in seen <==> exists i :: 0 <= i < |recs| && recs[i].file >= from && SourceId(recs[i]) == s
  }

  /** One day of recovery: the day's records, if the directory has a file for it. */
  lemma RecoverOneDay(c: Codec, acc: Recovered, files: seq<LogFile>, on: seq<LogFile>, day: int, index: nat)
    requires |on| <= 1 && DataOf(files, day) == if |on| == 1 then Some(on[0].data) else None
    requires |on| == 1 ==> CrClean(on[0].data)
    requires AllParsed(RecordsOf(c, on, index))
    ensures RecoverDay(c, acc, files, day) == Some(RecoverRecords(c, acc, RecordsOf(c, on, index)))
  {
    hide CrClean, Decodes, RecordsFrom, RecoverLines, TextLines, Filter, RecoverRecords;
    if |on| == 1 {
      assert on == [on[0]];
      OneFile(c, on[0], index);
      RecoverFile(c, acc, on[0], index);
    } else {
      NothingToRecover(c, acc, on, index);
    }
  }

  lemma NothingToRecover(c: Codec, acc: Recovered, on: seq<LogFile>, index: nat)
    requires |on| == 0
    ensures RecoverRecords(c, acc, RecordsOf(c, on, index)) == acc
  {
  }

  lemma RecordsOnDay(c: Codec, on: seq<LogFile>, day: int, index: nat)
    requires |on| <= 1 && (|on| == 1 ==> on[0].date == day)
    ensures forall i :: 0 <= i < |RecordsOf(c, on, index)| ==> RecordsOf(c, on, index)[i].file == day
  {
    hide RecordsFrom;
    if |on| == 1 {
      assert on == [on[0]];
      OneFile(c, on[0], index);
      FileOfRecords(c, on[0], index);
    }
  }

  /** The records of a directory: those up to the day before yesterday, yesterday's, today's. */
  lemma LastDays(c: Codec, files: seq<LogFile>, today: int)
    returns (r0: seq<Record>, yesterdays: seq<LogFile>, todays: seq<LogFile>)
    requires Tidy(files) && UpTo(files, today)
    ensures |yesterdays| <= 1 && |todays| <= 1
    ensures DataOf(files, today - 1) == if |yesterdays| == 1 then Some(yesterdays[0].data) else None
    ensures DataOf(files, today) == if |todays| == 1 then Some(todays[0].data) else None
    ensures |yesterdays| == 1 ==> yesterdays[0] in files
    ensures |todays| == 1 ==> todays[0] in files
    ensures var r1 := RecordsOf(c, yesterdays, |r0|);
      var r2 := RecordsOf(c, todays, |r0| + |r1|);
      && RecordsOf(c, files, 0) == (r0 + r1) + r2
      && (forall i :: 0 <= i < |r0| ==> r0[i].file <= today - 2)
      && (forall i :: 0 <= i < |r1| ==> r1[i].file == today - 1)
      && (forall i :: 0 <= i < |r2| ==> r2[i].file == today)
  {
    hide RecordsFrom;
    var upToYesterday, earlier;
    upToYesterday, todays := SplitDay(files, today);
    earlier, yesterdays := SplitDay(upToYesterday, today - 1);
    RecordsOfConcat(c, upToYesterday, todays, 0);
    RecordsOfConcat(c, earlier, yesterdays, 0);
    r0 := RecordsOf(c, earlier, 0);
    var r1 := RecordsOf(c, yesterdays, |r0|);
    RecordsUpTo(c, earlier, 0, today - 2);
    RecordsOnDay(c, yesterdays, today - 1, |r0|);
    RecordsOnDay(c, todays, today, |r0| + |r1|);
    if |yesterdays| == 1 {
      assert yesterdays[0] in upToYesterday;
    }
  }

  lemma AllParsedParts(recs: seq<Record>, r0: seq<Record>, r1: seq<Record>, r2: seq<Record>)
    requires recs == (r0 + r1) + r2 && AllParsed(recs)
    ensures AllParsed(r1) && AllParsed(r2)
  {
    assert forall i :: 0 <= i < |r1| ==> r1[i] == recs[|r0| + i];
    assert forall i :: 0 <= i < |r2| ==> r2[i] == recs[|r0| + |r1| + i];
  }

  /** Starting on a clean, valid directory: recovery does not raise; the anchor is the tip
      of the log, or genesis when the last two days have no record; the source ids of exactly the
      last two days are remembered. */
  lemma StartRecovers(c: Codec, files: seq<LogFile>, today: int)
    requires Tidy(files) && Clean(files) && UpTo(files, today) && ChainValid(c, RecordsOf(c, files, 0))
    ensures Start(c, files, today).Some?
    ensures var w := Start(c, files, today).value;
      var recs := RecordsOf(c, files, 0);
      && w.files == files && w.today == today && w.buffer == []
      && SeenIs(w.seen, recs, today - 1)
      && (w.prevHash == Tip(c, recs)
          || (w.prevHash == Genesis(c) && forall i :: 0 <= i < |recs| ==> recs[i].file < today - 1))
  {
    hide RecordsOf, ChainHash, Genesis, Links, RecoverRecords, RecoverDay, Tip, AllParsed, Tidy, DataOf, SeenIs, CrClean;
    var recs := RecordsOf(c, files, 0);
    var r0, yesterdays, todays := LastDays(c, files, today);
    var r1 := RecordsOf(c, yesterdays, |r0|);
    var r2 := RecordsOf(c, todays, |r0| + |r1|);
    ChainIsParsed(c, recs);
    AllParsedParts(recs, r0, r1, r2);
    var acc := Recovered(Genesis(c), 0, {});
    RecoverOneDay(c, acc, files, yesterdays, today - 1, |r0|);
    var acc1 := RecoverRecords(c, acc, r1);
    RecoverOneDay(c, acc1, files, todays, today, |r0| + |r1|);
    RecoverRecordsMeaning(c, acc, r1);
    RecoverRecordsMeaning(c, acc1, r2);
    SeenOfDays(recs, r0, r1, r2, today, RecoverRecords(c, acc1, r2).seen);
    TipOfDays(c, r0, r1, r2);
    if |r1| == 0 && |r2| == 0 {
      assert recs == r0;
    }
  }

  lemma TipOfDays(c: Codec, r0: seq<Record>, r1: seq<Record>, r2: seq<Record>)
    ensures |r2| > 0 ==> Tip(c, (r0 + r1) + r2) == ChainHash(c, r2[|r2| - 1])
    ensures |r2| == 0 && |r1| > 0 ==> Tip(c, (r0 + r1) + r2) == ChainHash(c, r1[|r1| - 1])
  {
    hide ChainHash, Genesis;
  }

  lemma SeenOfDays(recs: seq<Record>, r0: seq<Record>, r1: seq<Record>, r2: seq<Record>, today: int, seen: set<string>)
    requires recs == (r0 + r1) + r2
    requires forall i :: 0 <= i < |r0| ==> r0[i].file <= today - 2
    requires forall i :: 0 <= i < |r1| ==> r1[i].file == today - 1
    requires forall i :: 0 <= i < |r2| ==> r2[i].file == today
    requires forall s :: s in seen <==>
      (exists i :: 0 <= i < |r1| && SourceId(r1[i]) == s) || (exists i :: 0 <= i < |r2| && SourceId(r2[i]) == s)
    ensures SeenIs(seen, recs, today - 1)
  {
    hide SourceId;
    assert forall i :: 0 <= i < |r0| ==> recs[i] == r0[i];
    forall s
      ensures s in seen <==> exists i :: 0 <= i < |recs| && recs[i].file >= today - 1 && SourceId(recs[i]) == s
    {
      if i :| 0 <= i < |r1| && SourceId(r1[i]) == s {
        assert recs[|r0| + i] == r1[i];
      }
      if i :| 0 <= i < |r2| && SourceId(r2[i]) == s {
        assert recs[|r0| + |r1| + i] == r2[i];
      }
      if i :| 0 <= i < |recs| && recs[i].file >= today - 1 && SourceId(recs[i]) == s {
        assert i >= |r0|;
        if i < |r0| + |r1| {
          assert recs[i] == r1[i - |r0|];
        } else {
          assert recs[i] == r2[i - |r0| - |r1|];
        }
      }
    }
  }
}
