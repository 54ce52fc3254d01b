/** Where a restarted writer anchors, for any directory: read off the text lines of the last two
    days, whatever carriage returns the records hold. */
module RecoveryAnchor {
  import opened Bytes
  import opened Codec
  import opened AuditRecords
  import opened AuditClassify
  import opened AuditRepair
  import opened TextView
  import opened TextPieces
  import opened StartupGate
  import opened WriterModel
  import opened WriterRecovery

  // ---------------------------------------------------------------- recovery from text lines

  /** The text lines of a day's file; none when there is no file. */
  function DayText(files: seq<LogFile>, day: int): seq<Line> {
    match DataOf(files, day)
    case None => []
    case Some(data) => TextLines(data)
  }

  /** No line makes recovery raise. */
  predicate Readable(c: Codec, lines: seq<Line>) {
    forall i :: 0 <= i < |lines| ==> Load(c, lines[i]) != Undecodable && Load(c, lines[i]) != NonObject
  }

  /** The digest of the last line that is a JSON object, or `h` without one. */
  function LastHash(c: Codec, lines: seq<Line>, h: Hash): Hash
    decreases |lines|
  {
    if |lines| == 0 then h
    else LastHash(c, lines[1..], if Load(c, lines[0]).Object? then c.digest(lines[0]) else h)
  }

  lemma {:induction false} LastHashConcat(c: Codec, a: seq<Line>, b: seq<Line>, h: Hash)
    ensures LastHash(c, a + b, h) == LastHash(c, b, LastHash(c, a, h))
    decreases |a|
  {
    hide Load;
    if |a| == 0 {
      assert a + b == b;
    } else {
      assert (a + b)[0] == a[0] && (a + b)[1..] == a[1..] + b;
      LastHashConcat(c, a[1..], b, if Load(c, a[0]).Object? then c.digest(a[0]) else h);
    }
  }

  lemma LastHashOne(c: Codec, l: Line, h: Hash)
    ensures LastHash(c, [l], h) == if Load(c, l).Object? then c.digest(l) else h
  {
    hide Load;
    assert [l][1..] == [];
  }

  /** Lines that a reader skips are no objects. */
  lemma {:induction false} LastHashFilter(c: Codec, skip: Skip, lines: seq<Line>, h: Hash)
    requires skip == SkipEmpty || skip == SkipStrBlank
    ensures LastHash(c, Filter(skip, lines), h) == LastHash(c, lines, h)
    decreases |lines|
  {
    hide Filter;
    if |lines| > 0 {
      var l, rest := lines[0], lines[1..];
      assert lines == [l] + rest;
      FilterCons(skip, l, rest);
      SkippedIsMalformed(c, skip, l);
      var h' := if Load(c, l).Object? then c.digest(l) else h;
      LastHashFilter(c, skip, rest, h');
      if Keeps(skip, l) {
        assert ([l] + Filter(skip, rest))[1..] == Filter(skip, rest);
      } else {
        assert [] + Filter(skip, rest) == Filter(skip, rest);
      }
    } else {
      assert lines == [];
      NothingFiltered(skip);
    }
  }

  lemma NothingFiltered(skip: Skip)
    ensures Filter(skip, []) == []
  {
  }

  lemma SkippedIsMalformed(c: Codec, skip: Skip, l: Line)
    requires skip == SkipEmpty || skip == SkipStrBlank
    ensures !Keeps(skip, l) ==> Load(c, l) == Malformed
  {
    EmptyStrBlank(l);
  }

  lemma {:induction false} RecoverLinesMeaning(c: Codec, acc: Recovered, lines: seq<Line>)
    ensures RecoverLines(c, acc, lines).Some? <==> forall i :: 0 <= i < |lines| ==> Load(c, lines[i]) != NonObject
    ensures RecoverLines(c, acc, lines).Some? ==>
      RecoverLines(c, acc, lines).value.prevHash == LastHash(c, lines, acc.prevHash)
    decreases |lines|
  {
    hide Load;
    if |lines| > 0 {
      var rest := lines[1..];
      var next := RecoverLine(c, acc, lines[0]);
      if next.Some? {
        RecoverLinesMeaning(c, next.value, rest);
        assert forall i :: 0 <= i < |rest| ==> rest[i] == lines[i + 1];
        assert forall i :: 0 < i < |lines| ==> lines[i] == rest[i - 1];
      }
    }
  }

  /** What is left out of a filtered list could not have raised. */
  lemma FilterReadable(c: Codec, lines: seq<Line>)
    ensures (forall i :: 0 <= i < |Filter(SkipEmpty, lines)| ==> Load(c, Filter(SkipEmpty, lines)[i]) != NonObject)
      <==> (forall i :: 0 <= i < |lines| ==> Load(c, lines[i]) != NonObject)
  {
    hide Load, Filter, Keeps;
    forall i | 0 <= i < |Filter(SkipEmpty, lines)| ensures Filter(SkipEmpty, lines)[i] in lines {
      FilterIn(SkipEmpty, lines, i);
    }
    forall i | 0 <= i < |lines| && Load(c, lines[i]) == NonObject ensures lines[i] in Filter(SkipEmpty, lines) {
      SkippedIsMalformed(c, SkipEmpty, lines[i]);
      FilterMember(SkipEmpty, lines, i);
    }
  }

  lemma RecoverDayMeaning(c: Codec, acc: Recovered, files: seq<LogFile>, day: int)
    ensures var lines := DayText(files, day);
      var r := RecoverDay(c, acc, files, day);
      && (r.Some? <==> Readable(c, lines))
      && (r.Some? ==> r.value.prevHash == LastHash(c, lines, acc.prevHash))
  {
    hide Load, TextLines, Filter, RecoverLines, LastHash;
    var lines := DayText(files, day);
    FilterReadable(c, lines);
    RecoverLinesMeaning(c, acc, Filter(SkipEmpty, lines));
    LastHashFilter(c, SkipEmpty, lines, acc.prevHash);
    NoLinesNoHash(c, acc.prevHash);
  }

  lemma NoLinesNoHash(c: Codec, h: Hash)
    ensures LastHash(c, [], h) == h
  {
  }

  /** The anchor that a start on `today` would recover. */
  function AnchorOn(c: Codec, files: seq<LogFile>, today: int): Hash {
    LastHash(c, DayText(files, today), LastHash(c, DayText(files, today - 1), Genesis(c)))
  }

  predicate ReadableOn(c: Codec, files: seq<LogFile>, today: int) {
    Readable(c, DayText(files, today - 1)) && Readable(c, DayText(files, today))
  }

  /** A start succeeds exactly when no text line of the last two days raises, and anchors at the
      last text line there that is a JSON object. */
  lemma StartMeaning(c: Codec, files: seq<LogFile>, today: int)
    ensures Start(c, files, today).Some? <==> ReadableOn(c, files, today)
    ensures Start(c, files, today).Some? ==>
      var w := Start(c, files, today).value;
      w.prevHash == AnchorOn(c, files, today) && w.files == files && w.today == today && w.buffer == []
  {
    hide Load, DayText, LastHash, RecoverDay, Readable;
    var acc := Recovered(Genesis(c), 0, {});
    RecoverDayMeaning(c, acc, files, today - 1);
    var day := RecoverDay(c, acc, files, today - 1);
    if day.Some? {
      RecoverDayMeaning(c, day.value, files, today);
    }
  }

  // ---------------------------------------------------------------- recoverable directories

  /** A start on `day` succeeds and anchors where the next event can go: at the tip of the log, or
      at genesis when the day has no record yet. */
  ghost predicate Recoverable(c: Codec, files: seq<LogFile>, day: int) {
    && ReadableOn(c, files, day)
    && (AnchorOn(c, files, day) == Tip(c, RecordsOf(c, files, 0))
        || (AnchorOn(c, files, day) == Genesis(c) && NoRecordOn(RecordsOf(c, files, 0), day)))
  }

  lemma CleanIsRecoverable(c: Codec, files: seq<LogFile>, day: int)
    requires Tidy(files) && Clean(files) && UpTo(files, day) && ChainValid(c, RecordsOf(c, files, 0))
    ensures Recoverable(c, files, day)
  {
    hide RecordsOf, Links, Start, SeenIs, Tip, Genesis, AnchorOn, ReadableOn, Tidy, Clean;
    StartRecovers(c, files, day);
    StartMeaning(c, files, day);
  }

  /** A directory stays recoverable on later days. */
  lemma RecoverableLater(c: Codec, files: seq<LogFile>, day: int, later: int)
    requires Recoverable(c, files, day) && UpTo(files, day) && day <= later
    ensures Recoverable(c, files, later)
  {
    hide RecordsOf, Tip, Genesis, Readable, TextLines;
    if day < later {
      NoTextLater(files, day, later);
      RecordsUpTo(c, files, 0, day);
      NoLinesNoHash(c, Genesis(c));
      NothingToRead(c);
      if later == day + 1 {
        LastHashChoice(c, DayText(files, day), LastHash(c, DayText(files, day - 1), Genesis(c)), Genesis(c));
      } else {
        NoTextLater(files, day, later - 1);
      }
      NoLinesNoHash(c, AnchorOn(c, files, later));
      hide LastHash;
    }
  }

  lemma NothingToRead(c: Codec)
    ensures Readable(c, [])
  {
  }

  lemma {:induction false} NoTextLater(files: seq<LogFile>, day: int, later: int)
    requires UpTo(files, day) && day < later
    ensures DataOf(files, later) == None && DayText(files, later) == []
    decreases |files|
  {
    if |files| > 0 {
      assert files[0].date <= day;
      assert forall i :: 0 <= i < |files[1..]| ==> files[1..][i] == files[i + 1];
      NoTextLater(files[1..], day, later);
    }
  }

  /** Without an object among the lines the hash is the given one, else it does not depend on it. */
  lemma {:induction false} LastHashChoice(c: Codec, lines: seq<Line>, h: Hash, g: Hash)
    ensures LastHash(c, lines, g) == g || LastHash(c, lines, g) == LastHash(c, lines, h)
    decreases |lines|
  {
    hide Load;
    if |lines| > 0 {
      if !Load(c, lines[0]).Object? {
        LastHashChoice(c, lines[1..], h, g);
      }
    }
  }

  // ---------------------------------------------------------------- appending

  lemma {:induction false} LinesAppend(data: seq<byte>, rest: seq<byte>)
    requires Terminated(data)
    ensures Lines(data + rest) == Lines(data) + Lines(rest)
    decreases |data|
  {
    hide NextLF;
    if |data| == 0 {
      assert data + rest == rest;
    } else {
      var n := NextLF(data, 0);
      TerminatedHasLF(data, 0);
      NextLFExtends(data, rest, 0);
      var tail := data[n + 1..];
      assert (data + rest)[..n] == data[..n] && (data + rest)[n + 1..] == tail + rest;
      assert Terminated(tail);
      LinesAppend(tail, rest);
      Regroup([data[..n]], Lines(tail), Lines(rest));
    }
  }

  /** A plain line appended to a terminated file is one more text line. */
  lemma TextAppend(data: seq<byte>, line: Line)
    requires Terminated(data) && NoLineBreak(line)
    ensures TextLines(data + (line + [LF])) == TextLines(data) + [line]
  {
    hide Lines, TextLines, Pieces;
    LinesAppend(data, line + [LF]);
    assert line + [LF] == line + ([LF] + []);
    LinesOfFirst(line, []);
    NoLines();
    assert [line] + [] == [line];
    TextLinesArePieces(data);
    TextLinesArePieces(data + (line + [LF]));
    AllPiecesConcat(Lines(data), [line]);
    OneLinePieces(line);
    PlainPieces(line);
  }

  lemma PlainPieces(line: Line)
    requires NoLineBreak(line)
    ensures Pieces(line) == [line]
  {
    hide CrSplit;
    assert CR !in line;
    WholePiece(line);
  }

  /** The text of the files after an append on the newest day. */
  lemma DayTextAppend(files: seq<LogFile>, day: int, line: Line, d: int)
    requires Tidy(files) && UpTo(files, day) && NoLineBreak(line) && d <= day
    ensures DayText(AppendLine(files, day, line), d) == DayText(files, d) + if d == day then [line] else []
  {
    hide TextLines, AppendLine, Tidy;
    var front, f, g := AppendedFiles(files, day, line);
    DataOfLast(front, g, d);
    DataOfLast(front, f, d);
    DayAbsent(front, day);
    TextAppend(f.data, line);
    NoText();
    assert DayText(files, d) + [] == DayText(files, d);
    if files == front && d == day {
      assert [] + [line] == [line];
    }
  }

  lemma DataOfLast(front: seq<LogFile>, f: LogFile, d: int)
    requires forall i :: 0 <= i < |front| ==> front[i].date < f.date
    ensures DataOf(front + [f], d) == if d == f.date then Some(f.data) else DataOf(front, d)
  {
    assert [f][1..] == [];
    if d == f.date {
      DataOfSkip(front, [f], d);
    } else {
      DataOfBefore(front, [f], d);
    }
  }

  lemma {:induction false} DayAbsent(front: seq<LogFile>, day: int)
    requires forall i :: 0 <= i < |front| ==> front[i].date < day
    ensures DataOf(front, day) == None
    decreases |front|
  {
    if |front| > 0 {
      assert forall i :: 0 <= i < |front[1..]| ==> front[1..][i] == front[i + 1];
      DayAbsent(front[1..], day);
    }
  }

  lemma DayTextOpen(files: seq<LogFile>, day: int, d: int)
    requires Tidy(files) && UpTo(files, day) && d <= day
    ensures DayText(Open(files, day), d) == DayText(files, d)
  {
    hide TextLines, Tidy, Open;
    var front, f := OpenSplits(files, day);
    DataOfLast(front, f, d);
    DayAbsent(front, day);
    NoText();
  }

  /** Opening the day's file keeps a directory recoverable. */
  lemma OpenRecoverable(c: Codec, files: seq<LogFile>, day: int)
    requires Tidy(files) && UpTo(files, day) && Recoverable(c, files, day)
    ensures Recoverable(c, Open(files, day), day)
  {
    hide RecordsOf, Tip, Genesis, DayText, Open, Tidy, Readable, LastHash;
    DayTextOpen(files, day, day);
    DayTextOpen(files, day, day - 1);
    OpenAtEnd(c, files, day);
  }

  /** So does appending a line that is a JSON object: the anchor is then that line. */
  lemma AppendRecoverable(c: Codec, files: seq<LogFile>, day: int, line: Line)
    requires Tidy(files) && UpTo(files, day) && Recoverable(c, files, day)
    requires Plain(line) && Load(c, line).Object?
    ensures Recoverable(c, AppendLine(files, day, line), day)
  {
    hide RecordsOf, Genesis, DayText, AppendLine, Tidy, LastHash, Load, Blank;
    DayTextAppend(files, day, line, day);
    DayTextAppend(files, day, line, day - 1);
    var todays, h := DayText(files, day), LastHash(c, DayText(files, day - 1), Genesis(c));
    assert DayText(files, day - 1) + [] == DayText(files, day - 1);
    LastHashConcat(c, todays, [line], h);
    LastHashOne(c, line, LastHash(c, todays, h));
    var r := AppendAtEnd(c, files, day, line);
    assert ChopCR(line) == line;
    LastRecordTip(c, RecordsOf(c, files, 0), r);
  }

  lemma LastRecordTip(c: Codec, recs: seq<Record>, r: Record)
    ensures Tip(c, recs + [r]) == c.digest(ChopCR(r.raw))
  {
  }

  // ---------------------------------------------------------------- when a directory is recoverable

  lemma {:induction false} TextHasNoCR(lines: seq<Line>, i: nat)
    requires i < |AllPieces(lines)|
    ensures CR !in AllPieces(lines)[i]
    decreases |lines|
  {
    hide CrSplit;
    PiecesHaveNoCR(ChopCR(lines[0]));
    if i >= |Pieces(lines[0])| {
      TextHasNoCR(lines[1..], i - |Pieces(lines[0])|);
    }
  }

  /** Every anchor is the digest of a line without carriage return. */
  lemma {:induction false} AnchorIsPlain(c: Codec, lines: seq<Line>, h: Hash, g: Line) returns (l: Line)
    requires (forall i :: 0 <= i < |lines| ==> CR !in lines[i]) && CR !in g && h == c.digest(g)
    ensures CR !in l && LastHash(c, lines, h) == c.digest(l)
    ensures l == g || Load(c, l).Object?
    ensures (forall i :: 0 <= i < |lines| ==> !Load(c, lines[i]).Object?) ==> l == g
    ensures !(forall i :: 0 <= i < |lines| ==> !Load(c, lines[i]).Object?) ==> Load(c, l).Object?
    decreases |lines|
  {
    hide Load;
    if |lines| == 0 {
      l := g;
    } else {
      var rest := lines[1..];
      assert forall i :: 0 <= i < |rest| ==> rest[i] == lines[i + 1];
      assert forall i :: 0 < i < |lines| ==> lines[i] == rest[i - 1];
      if Load(c, lines[0]).Object? {
        l := AnchorIsPlain(c, rest, c.digest(lines[0]), lines[0]);
      } else {
        l := AnchorIsPlain(c, rest, h, g);
      }
    }
  }

  lemma DayHasNoCR(files: seq<LogFile>, day: int)
    ensures forall i :: 0 <= i < |DayText(files, day)| ==> CR !in DayText(files, day)[i]
  {
    hide TextLines, AllPieces, Lines;
    match DataOf(files, day)
    case None =>
    case Some(data) =>
      TextLinesArePieces(data);
      forall i | 0 <= i < |DayText(files, day)| ensures CR !in DayText(files, day)[i] {
        TextHasNoCR(Lines(data), i);
      }
  }

  /** What one day's file adds to the anchor, read off its records: nothing without records; the
      hash of the last record when that has no carriage return inside. */
  lemma DayAnchor(c: Codec, files: seq<LogFile>, on: seq<LogFile>, day: int, index: nat, h: Hash)
    requires |on| <= 1 && DataOf(files, day) == if |on| == 1 then Some(on[0].data) else None
    requires AllParsed(RecordsOf(c, on, index))
    ensures var recs := RecordsOf(c, on, index);
      && (recs == [] ==> LastHash(c, DayText(files, day), h) == h)
      && (recs != [] && CR !in ChopCR(recs[|recs| - 1].raw) ==>
            LastHash(c, DayText(files, day), h) == ChainHash(c, recs[|recs| - 1]))
  {
    hide TextLines, LastHash, RecordsFrom, AllVisible, Load, ChopCR, Filter;
    if |on| == 1 {
      assert on == [on[0]];
      OneFile(c, on[0], index);
      var f, recs := on[0], FileRecords(c, on[0], index);
      TextShowsRecords(c, f, index);
      LastHashFilter(c, SkipStrBlank, TextLines(f.data), h);
      NoLinesNoHash(c, h);
      if recs == [] {
        NothingVisible();
        assert Raws(recs) == [];
      } else if CR !in ChopCR(recs[|recs| - 1].raw) {
        RecordsWellPlaced(c, f, 0, index);
        assert WellPlaced(c, f, recs[|recs| - 1]);
        LastVisible(c, recs, h);
      }
    } else {
      NoLinesNoHash(c, h);
      assert RecordsOf(c, on, index) == [];
    }
  }

  lemma LastVisible(c: Codec, recs: seq<Record>, h: Hash)
    requires |recs| > 0 && recs[|recs| - 1].parsed == Parsed(c, recs[|recs| - 1].raw) && recs[|recs| - 1].parsed.Some?
    requires CR !in ChopCR(recs[|recs| - 1].raw)
    ensures LastHash(c, AllVisible(Raws(recs)), h) == ChainHash(c, recs[|recs| - 1])
  {
    hide LastHash, ChopCR, StrBlank, TrimCR, Visible;
    var n := |recs| - 1;
    var raw := recs[n].raw;
    assert Load(c, raw).Object? && !StrBlank(raw);
    LoadChop(c, raw);
    WholeIsVisible(raw);
    assert Raws(recs) == Raws(recs[..n]) + [raw];
    AllVisibleConcat(Raws(recs[..n]), [raw]);
    OneVisible(raw);
    LastHashConcat(c, AllVisible(Raws(recs[..n])), [ChopCR(raw)], h);
    LastHashOne(c, ChopCR(raw), LastHash(c, AllVisible(Raws(recs[..n])), h));
  }

  lemma OneVisible(raw: Line)
    ensures AllVisible([raw]) == Visible(raw)
  {
    hide Visible;
    assert [raw][1..] == [];
    assert Visible(raw) + [] == Visible(raw);
  }

  /** No line of the day is a JSON object to a text reader. */
  predicate Quiet(c: Codec, lines: seq<Line>) {
    forall i :: 0 <= i < |lines| ==> !Load(c, lines[i]).Object?
  }

  /** The records of the day before `today` and of `today`. */
  ghost predicate Recent(recs: seq<Record>, today: int) {
    |recs| > 0 && recs[|recs| - 1].file >= today - 1
  }

  lemma SetRecent(recs: seq<Record>, r0: seq<Record>, r1: seq<Record>, r2: seq<Record>, today: int)
    requires recs == (r0 + r1) + r2
    requires forall i :: 0 <= i < |r0| ==> r0[i].file <= today - 2
    requires forall i :: 0 <= i < |r1| ==> r1[i].file == today - 1
    requires forall i :: 0 <= i < |r2| ==> r2[i].file == today
    ensures Recent(recs, today) <==> r1 != [] || r2 != []
    ensures r2 != [] ==> recs[|recs| - 1] == r2[|r2| - 1]
    ensures r2 == [] && r1 != [] ==> recs[|recs| - 1] == r1[|r1| - 1]
    ensures NoRecordOn(recs, today) <==> r2 == []
  {
    if r2 != [] {
      assert recs[|recs| - 1] == r2[|r2| - 1];
      assert recs[|recs| - 1].file == today;
    } else if r1 != [] {
      assert recs[|recs| - 1] == r1[|r1| - 1];
    }
  }

  /** Every start on a valid log anchors at the tip exactly when the last record of the last two
      days has no carriage return inside; without a record there it anchors at genesis. */
  lemma AnchorIsTip(c: Codec, files: seq<LogFile>, today: int)
    requires CollisionFree(c) && Parsed(c, GENESIS_STRING).None?
    requires Tidy(files) && UpTo(files, today) && ChainValid(c, RecordsOf(c, files, 0))
    ensures var recs := RecordsOf(c, files, 0);
      var h := AnchorOn(c, files, today);
      && (!Recent(recs, today) ==> h == Genesis(c) && NoRecordOn(recs, today))
      && (Recent(recs, today) ==> (h == Tip(c, recs) <==> CR !in ChopCR(recs[|recs| - 1].raw)))
      && (Recent(recs, today) && h != Tip(c, recs) && NoRecordOn(recs, today) ==>
            (h == Genesis(c) <==> Quiet(c, DayText(files, today - 1))))
  {
    hide RecordsOf, Links, DayText, LastHash, Load, ChopCR, Tidy, DataOf, CollisionFree, AllParsed;
    var recs := RecordsOf(c, files, 0);
    var r0, yesterdays, todays := LastDays(c, files, today);
    var r1 := RecordsOf(c, yesterdays, |r0|);
    var r2 := RecordsOf(c, todays, |r0| + |r1|);
    ChainIsParsed(c, recs);
    AllParsedParts(recs, r0, r1, r2);
    SetRecent(recs, r0, r1, r2, today);
    var g := Genesis(c);
    var y := LastHash(c, DayText(files, today - 1), g);
    DayAnchor(c, files, yesterdays, today - 1, |r0|, g);
    DayAnchor(c, files, todays, today, |r0| + |r1|, y);
    DayHasNoCR(files, today - 1);
    DayHasNoCR(files, today);
    assert CR !in GENESIS_STRING;
    var l := AnchorIsPlain(c, DayText(files, today - 1), g, GENESIS_STRING);
    var k := AnchorIsPlain(c, DayText(files, today), y, l);
    if Recent(recs, today) {
      TipIsLast(c, recs);
      DigestsEqual(c, k, ChopCR(recs[|recs| - 1].raw));
      DigestsEqual(c, l, GENESIS_STRING);
      GenesisIsNoObject(c);
    }
  }

  lemma TipIsLast(c: Codec, recs: seq<Record>)
    ensures |recs| > 0 ==> Tip(c, recs) == c.digest(ChopCR(recs[|recs| - 1].raw))
  {
  }

  lemma DigestsEqual(c: Codec, a: Line, b: Line)
    requires CollisionFree(c)
    ensures c.digest(a) == c.digest(b) <==> a == b
  {
  }

  lemma GenesisIsNoObject(c: Codec)
    requires Parsed(c, GENESIS_STRING).None?
    ensures !Load(c, GENESIS_STRING).Object?
  {
  }

  /** When exactly a valid log is recoverable: recovery does not raise, and the last record of the
      last two days has no carriage return inside, or there is none; or it is yesterday's, and
      yesterday's text has nothing to anchor at. */
  lemma RecoverableIff(c: Codec, files: seq<LogFile>, today: int)
    requires CollisionFree(c) && Parsed(c, GENESIS_STRING).None?
    requires Tidy(files) && UpTo(files, today) && ChainValid(c, RecordsOf(c, files, 0))
    ensures var recs := RecordsOf(c, files, 0);
      Recoverable(c, files, today) <==>
      && ReadableOn(c, files, today)
      && (Recent(recs, today) ==>
            || CR !in ChopCR(recs[|recs| - 1].raw)
            || (NoRecordOn(recs, today) && Quiet(c, DayText(files, today - 1))))
  {
    hide RecordsOf, Links, DayText, Load, ChopCR, Tidy, CollisionFree, AnchorOn, ReadableOn, Quiet, Genesis, Tip;
    AnchorIsTip(c, files, today);
  }
}
