/** Editing or removing one physical line of a log file, down to the bytes. */
module TamperBytes {
  import opened Bytes
  import opened Codec
  import opened AuditRecords
  import opened AuditClassify
  import opened AuditRepair
  import opened AuditTamper
  import opened TextView
  import opened TextPieces
  import opened WriterRecovery
  import opened RecoveryAnchor

  // ---------------------------------------------------------------- alike up to numbers

  /** The same line in a file of the same date; index and byte range may differ. */
  predicate AlikeAt(a: Record, b: Record) {
    a.file == b.file && a.raw == b.raw && a.parsed == b.parsed
  }

  ghost predicate Alike(a: seq<Record>, b: seq<Record>) {
    |a| == |b| && forall i :: 0 <= i < |a| ==> AlikeAt(a[i], b[i])
  }

  lemma AlikeConcat(a: seq<Record>, b: seq<Record>, a': seq<Record>, b': seq<Record>)
    requires Alike(a, b) && Alike(a', b')
    ensures Alike(a + a', b + b')
  {
    hide AlikeAt;
  }

  lemma AlikeLinks(c: Codec, a: seq<Record>, b: seq<Record>, i: nat)
    requires Alike(a, b) && i < |a|
    ensures Links(c, a, i) == Links(c, b, i)
    ensures i > 0 ==> CoherentAt(c, a, i) == CoherentAt(c, b, i)
  {
    hide Genesis, ChopCR;
    assert AlikeAt(a[i], b[i]);
    if i > 0 {
      assert AlikeAt(a[i - 1], b[i - 1]);
    }
  }

  /** Such logs break at the same record and get the same status. */
  lemma AlikeVerdict(c: Codec, a: seq<Record>, b: seq<Record>)
    requires Alike(a, b)
    ensures Classify(c, a).status == Classify(c, b).status
    ensures Classify(c, a).firstInvalid == Classify(c, b).firstInvalid
  {
    hide ChainHash, Genesis, Links, CoherentAt, SuffixBytes, CountGenesis;
    forall i | 0 <= i < |a|
      ensures Links(c, a, i) == Links(c, b, i)
      ensures i > 0 ==> CoherentAt(c, a, i) == CoherentAt(c, b, i)
    {
      AlikeLinks(c, a, b, i);
    }
    var f, g := FirstBreak(c, a), FirstBreak(c, b);
    assert f == g;
    if f >= 0 {
      assert HasCoherentContinuation(c, a, f) == HasCoherentContinuation(c, b, f);
    }
  }

  // ---------------------------------------------------------------- records of lines

  /** The record of a line, its numbers left open. */
  function Of(c: Codec, date: int, raw: Line): Record {
    Record(0, date, 0, 0, raw, Parsed(c, raw))
  }

  function AllOf(c: Codec, date: int, lines: seq<Line>): (r: seq<Record>)
    ensures |r| == |lines| && forall i :: 0 <= i < |r| ==> r[i] == Of(c, date, lines[i])
  {
    seq(|lines|, i requires 0 <= i < |lines| => Of(c, date, lines[i]))
  }

  lemma FileAlike(c: Codec, f: LogFile, index: nat)
    ensures Alike(FileRecords(c, f, index), AllOf(c, f.date, Filter(SkipBlank, Lines(f.data))))
  {
    hide RecordsFrom, Lines, Filter, Parsed, Blank;
    RecordsAreLines(c, f, index);
    RecordsWellPlaced(c, f, 0, index);
    var recs := FileRecords(c, f, index);
    forall i | 0 <= i < |recs| ensures AlikeAt(recs[i], AllOf(c, f.date, Raws(recs))[i]) {
      assert WellPlaced(c, f, recs[i]);
    }
  }

  /** The records of a directory around one of its files. */
  lemma AroundFile(c: Codec, files: seq<LogFile>, j: nat)
    requires j < |files|
    ensures var front := RecordsOf(c, files[..j], 0);
      var own := FileRecords(c, files[j], |front|);
      RecordsOf(c, files, 0) == front + (own + RecordsOf(c, files[j + 1..], |front| + |own|))
  {
    hide RecordsFrom;
    var front := RecordsOf(c, files[..j], 0);
    SplitBefore(files, j);
    RecordsOfConcat(c, files[..j], files[j..], 0);
  }

  /** Records of the same files, numbered from elsewhere. */
  lemma {:induction false} Renumbered(c: Codec, files: seq<LogFile>, m: nat, n: nat)
    ensures Alike(RecordsOf(c, files, m), RecordsOf(c, files, n))
    decreases |files|
  {
    hide RecordsFrom, AlikeAt, Alike, Filter, Lines;
    if |files| > 0 {
      var a, b := FileRecords(c, files[0], m), FileRecords(c, files[0], n);
      FileAlike(c, files[0], m);
      FileAlike(c, files[0], n);
      AlikeEachOther(a, b, AllOf(c, files[0].date, Filter(SkipBlank, Lines(files[0].data))));
      Renumbered(c, files[1..], m + |a|, n + |b|);
      AlikeConcat(a, b, RecordsOf(c, files[1..], m + |a|), RecordsOf(c, files[1..], n + |b|));
    } else {
      NothingAlike();
    }
  }

  lemma AlikeEachOther(a: seq<Record>, b: seq<Record>, d: seq<Record>)
    requires Alike(a, d) && Alike(b, d)
    ensures Alike(a, b) && |a| == |b|
  {
    forall i | 0 <= i < |a| ensures AlikeAt(a[i], b[i]) {
      assert AlikeAt(a[i], d[i]) && AlikeAt(b[i], d[i]);
    }
  }

  lemma NothingAlike()
    ensures Alike([], [])
  {
  }

  // ---------------------------------------------------------------- one physical line

  /** The bytes `p line nl rest`: `line` is a physical line that is not blank, between others. */
  ghost predicate LineAt(data: seq<byte>, p: seq<byte>, line: Line, nl: seq<byte>, rest: seq<byte>) {
    && data == p + (line + (nl + rest)) && Terminated(p) && LF !in line && !Blank(line)
    && (nl == [LF] || (nl == [] && rest == []))
  }

  lemma LinesAround(data: seq<byte>, p: seq<byte>, line: Line, nl: seq<byte>, rest: seq<byte>)
    requires LineAt(data, p, line, nl, rest)
    ensures Lines(data) == Lines(p) + ([line] + Lines(rest))
  {
    hide Lines, Blank;
    LinesAppend(p, line + (nl + rest));
    NotEmpty(line);
    if nl == [LF] {
      LinesOfFirst(line, rest);
    } else {
      assert line + (nl + rest) == line;
      LinesOfLast(line);
      NoLines();
      assert [line] + [] == [line];
    }
  }

  lemma NotEmpty(line: Line)
    requires !Blank(line)
    ensures |line| > 0
  {
  }

  /** The records before and behind the line. */
  lemma RecordsAround(c: Codec, f: LogFile, index: nat, p: seq<byte>, line: Line, nl: seq<byte>, rest: seq<byte>)
    requires LineAt(f.data, p, line, nl, rest)
    ensures Alike(FileRecords(c, f, index),
      AllOf(c, f.date, Filter(SkipBlank, Lines(p))) + ([Of(c, f.date, line)] + AllOf(c, f.date, Filter(SkipBlank, Lines(rest)))))
  {
    hide RecordsFrom, Lines, Filter, Alike, Blank, Parsed;
    FileAlike(c, f, index);
    LinesAround(f.data, p, line, nl, rest);
    FilterConcat(SkipBlank, Lines(p), [line] + Lines(rest));
    FilterCons(SkipBlank, line, Lines(rest));
    var a, b := Filter(SkipBlank, Lines(p)), Filter(SkipBlank, Lines(rest));
    assert AllOf(c, f.date, a + ([line] + b)) == AllOf(c, f.date, a) + ([Of(c, f.date, line)] + AllOf(c, f.date, b));
  }

  lemma RecordsWithout(c: Codec, f: LogFile, index: nat, p: seq<byte>, rest: seq<byte>)
    requires f.data == p + rest && Terminated(p)
    ensures Alike(FileRecords(c, f, index),
      AllOf(c, f.date, Filter(SkipBlank, Lines(p))) + AllOf(c, f.date, Filter(SkipBlank, Lines(rest))))
  {
    hide RecordsFrom, Lines, Filter, Alike, Blank, Parsed;
    FileAlike(c, f, index);
    LinesAppend(p, rest);
    FilterConcat(SkipBlank, Lines(p), Lines(rest));
    var a, b := Filter(SkipBlank, Lines(p)), Filter(SkipBlank, Lines(rest));
    assert AllOf(c, f.date, a + b) == AllOf(c, f.date, a) + AllOf(c, f.date, b);
  }

  /** How many records lie before byte `|p|` of file `j`. */
  function Position(c: Codec, files: seq<LogFile>, j: nat, p: seq<byte>): nat
    requires j < |files|
  {
    |RecordsOf(c, files[..j], 0)| + |Filter(SkipBlank, Lines(p))|
  }

  /** The log in terms of its lines: records before, the line's record, records behind. */
  lemma LogAround(c: Codec, files: seq<LogFile>, j: nat, p: seq<byte>, line: Line, nl: seq<byte>, rest: seq<byte>)
    requires j < |files| && LineAt(files[j].data, p, line, nl, rest)
    ensures var before, behind := Before(c, files, j, p), Behind(c, files, j, rest);
      && |before| == Position(c, files, j, p)
      && Alike(RecordsOf(c, files, 0), before + ([Of(c, files[j].date, line)] + behind))
  {
    hide RecordsOf, FileRecords, Lines, Filter, Alike, Blank, Parsed, AllOf;
    var front := RecordsOf(c, files[..j], 0);
    var own := FileRecords(c, files[j], |front|);
    var back := RecordsOf(c, files[j + 1..], |front| + |own|);
    var a, x := Own(c, files, j, p), Of(c, files[j].date, line);
    var b := Own(c, files, j, rest);
    AroundFile(c, files, j);
    RecordsAround(c, files[j], |front|, p, line, nl, rest);
    Renumbered(c, files[j + 1..], |front| + |own|, 0);
    AlikeSelf(front);
    AlikeConcat(own, a + ([x] + b), back, RecordsOf(c, files[j + 1..], 0));
    AlikeConcat(front, front, own + back, (a + ([x] + b)) + RecordsOf(c, files[j + 1..], 0));
    Reassociate(front, a, x, b, RecordsOf(c, files[j + 1..], 0));
    OwnLength(c, files, j, p);
  }

  function Own(c: Codec, files: seq<LogFile>, j: nat, data: seq<byte>): seq<Record>
    requires j < |files|
  {
    AllOf(c, files[j].date, Filter(SkipBlank, Lines(data)))
  }

  lemma OwnLength(c: Codec, files: seq<LogFile>, j: nat, data: seq<byte>)
    requires j < |files|
    ensures |Own(c, files, j, data)| == |Filter(SkipBlank, Lines(data))|
  {
  }

  function Before(c: Codec, files: seq<LogFile>, j: nat, p: seq<byte>): seq<Record>
    requires j < |files|
  {
    RecordsOf(c, files[..j], 0) + Own(c, files, j, p)
  }

  function Behind(c: Codec, files: seq<LogFile>, j: nat, rest: seq<byte>): seq<Record>
    requires j < |files|
  {
    Own(c, files, j, rest) + RecordsOf(c, files[j + 1..], 0)
  }

  lemma AlikeSelf(a: seq<Record>)
    ensures Alike(a, a)
  {
  }

  lemma Reassociate<T>(f: seq<T>, a: seq<T>, x: T, b: seq<T>, d: seq<T>)
    ensures f + ((a + ([x] + b)) + d) == (f + a) + ([x] + (b + d))
  {
  }

  lemma Reassociate2<T>(f: seq<T>, a: seq<T>, b: seq<T>, d: seq<T>)
    ensures f + ((a + b) + d) == (f + a) + (b + d)
  {
  }

  /** The same without the line. */
  lemma LogWithout(c: Codec, files: seq<LogFile>, j: nat, p: seq<byte>, rest: seq<byte>)
    requires j < |files| && files[j].data == p + rest && Terminated(p)
    ensures Alike(RecordsOf(c, files, 0), Before(c, files, j, p) + Behind(c, files, j, rest))
  {
    hide RecordsOf, FileRecords, Lines, Filter, Alike, Blank, Parsed, AllOf;
    var front := RecordsOf(c, files[..j], 0);
    var own := FileRecords(c, files[j], |front|);
    var back := RecordsOf(c, files[j + 1..], |front| + |own|);
    var a, b := Own(c, files, j, p), Own(c, files, j, rest);
    AroundFile(c, files, j);
    RecordsWithout(c, files[j], |front|, p, rest);
    Renumbered(c, files[j + 1..], |front| + |own|, 0);
    AlikeSelf(front);
    AlikeConcat(own, a + b, back, RecordsOf(c, files[j + 1..], 0));
    AlikeConcat(front, front, own + back, (a + b) + RecordsOf(c, files[j + 1..], 0));
    Reassociate2(front, a, b, RecordsOf(c, files[j + 1..], 0));
  }

  // ---------------------------------------------------------------- editing and removing bytes

  function WithData(files: seq<LogFile>, j: nat, data: seq<byte>): (r: seq<LogFile>)
    requires j < |files|
    ensures |r| == |files| && r[j] == files[j].(data := data) && r[..j] == files[..j] && r[j + 1..] == files[j + 1..]
  {
    files[j := files[j].(data := data)]
  }

  /** Replacing one line of a file by another replaces exactly its record. */
  lemma EditOnDisk(c: Codec, files: seq<LogFile>, j: nat, p: seq<byte>, line: Line, nl: seq<byte>, rest: seq<byte>, edit: Line)
    requires j < |files| && LineAt(files[j].data, p, line, nl, rest) && LF !in edit && !Blank(edit)
    ensures var i, recs := Position(c, files, j, p), RecordsOf(c, files, 0);
      && i < |recs| && AlikeAt(recs[i], Of(c, files[j].date, line))
      && Alike(recs[i := Of(c, files[j].date, edit)], RecordsOf(c, WithData(files, j, p + (edit + (nl + rest))), 0))
  {
    hide RecordsOf, Blank, Parsed, AllOf, Lines, Filter;
    var edited := WithData(files, j, p + (edit + (nl + rest)));
    LogAround(c, files, j, p, line, nl, rest);
    LogAround(c, edited, j, p, edit, nl, rest);
    ReplacedAt(RecordsOf(c, files, 0), Before(c, files, j, p), Of(c, files[j].date, line), Behind(c, files, j, rest),
               Of(c, files[j].date, edit), RecordsOf(c, edited, 0));
  }

  lemma ReplacedAt(recs: seq<Record>, a: seq<Record>, x: Record, b: seq<Record>, y: Record, edited: seq<Record>)
    requires Alike(recs, a + ([x] + b)) && Alike(edited, a + ([y] + b))
    ensures |a| < |recs| && AlikeAt(recs[|a|], x) && Alike(recs[|a| := y], edited)
  {
    var l, m := a + ([x] + b), a + ([y] + b);
    assert AlikeAt(recs[|a|], l[|a|]);
    forall i | 0 <= i < |recs| ensures AlikeAt(recs[|a| := y][i], edited[i]) {
      assert AlikeAt(recs[i], l[i]) && AlikeAt(edited[i], m[i]);
    }
  }

  /** Removing one line of a file removes exactly its record. */
  lemma RemovalOnDisk(c: Codec, files: seq<LogFile>, j: nat, p: seq<byte>, line: Line, nl: seq<byte>, rest: seq<byte>)
    requires j < |files| && LineAt(files[j].data, p, line, nl, rest)
    ensures var i, recs := Position(c, files, j, p), RecordsOf(c, files, 0);
      && i < |recs| && AlikeAt(recs[i], Of(c, files[j].date, line))
      && Alike(Without(recs, i), RecordsOf(c, WithData(files, j, p + rest), 0))
  {
    hide RecordsOf, Blank, Parsed, AllOf, Lines, Filter;
    LogAround(c, files, j, p, line, nl, rest);
    LogWithout(c, WithData(files, j, p + rest), j, p, rest);
    RemovedAt(RecordsOf(c, files, 0), Before(c, files, j, p), Of(c, files[j].date, line), Behind(c, files, j, rest),
              RecordsOf(c, WithData(files, j, p + rest), 0));
  }

  lemma RemovedAt(recs: seq<Record>, a: seq<Record>, x: Record, b: seq<Record>, removed: seq<Record>)
    requires Alike(recs, a + ([x] + b)) && Alike(removed, a + b)
    ensures |a| < |recs| && AlikeAt(recs[|a|], x) && Alike(Without(recs, |a|), removed)
  {
    var l, m := a + ([x] + b), a + b;
    assert AlikeAt(recs[|a|], l[|a|]);
    forall i | 0 <= i < |removed| ensures AlikeAt(Without(recs, |a|)[i], removed[i]) {
      assert AlikeAt(removed[i], m[i]);
      if i < |a| {
        assert AlikeAt(recs[i], l[i]);
      } else {
        assert AlikeAt(recs[i + 1], l[i + 1]);
      }
    }
  }

  // ---------------------------------------------------------------- verdicts on the files

  /** A line of a valid log is replaced by another JSON object with the same link and another hash. */
  lemma EditedLogVerdict(c: Codec, files: seq<LogFile>, j: nat, p: seq<byte>, line: Line, nl: seq<byte>, rest: seq<byte>, edit: Line)
    requires VerifyFiles(c, files).status == Valid
    requires j < |files| && LineAt(files[j].data, p, line, nl, rest) && LF !in edit && !Blank(edit)
    requires Parsed(c, edit).Some? && Parsed(c, line).Some?
    requires Parsed(c, edit).value.prevHash == Parsed(c, line).value.prevHash
    requires c.digest(ChopCR(edit)) != c.digest(ChopCR(line)) && c.digest(ChopCR(line)) != Genesis(c)
    ensures var i, recs := Position(c, files, j, p), RecordsOf(c, files, 0);
      var rep := VerifyFiles(c, WithData(files, j, p + (edit + (nl + rest))));
      && i < |recs| && recs[i].raw == line
      && if i + 1 == |recs| || Carries(recs[i + 1], Genesis(c)) then
           rep.status == Valid
         else
           rep.firstInvalid == Some(i + 1) && rep.status == if i + 2 < |recs| then Interior else BrokenTail
  {
    hide RecordsOf, Blank, Parsed, AllOf, Lines, Filter, Links, Genesis, ChopCR;
    var i, recs := Position(c, files, j, p), RecordsOf(c, files, 0);
    var r := Of(c, files[j].date, edit);
    EditOnDisk(c, files, j, p, line, nl, rest, edit);
    EditVerdict(c, recs, i, r);
    AlikeVerdict(c, recs[i := r], RecordsOf(c, WithData(files, j, p + (edit + (nl + rest))), 0));
  }

  /** A line of a valid log is removed; its hash is neither that of its predecessor nor genesis. */
  lemma RemovedLogVerdict(c: Codec, files: seq<LogFile>, j: nat, p: seq<byte>, line: Line, nl: seq<byte>, rest: seq<byte>)
    requires VerifyFiles(c, files).status == Valid
    requires j < |files| && LineAt(files[j].data, p, line, nl, rest)
    requires var i, recs := Position(c, files, j, p), RecordsOf(c, files, 0);
      && i < |recs| && c.digest(ChopCR(line)) != Anchor(c, recs, i) && c.digest(ChopCR(line)) != Genesis(c)
      && (i + 1 < |recs| && i > 0 && Carries(recs[i + 1], Genesis(c)) ==> recs[i + 1].file != recs[i - 1].file)
    ensures var i, recs := Position(c, files, j, p), RecordsOf(c, files, 0);
      var rep := VerifyFiles(c, WithData(files, j, p + rest));
      && recs[i].raw == line
      && if i + 1 == |recs| || Carries(recs[i + 1], Genesis(c)) then
           rep.status == if |recs| == 1 then Empty else Valid
         else
           rep.firstInvalid == Some(i) && rep.status == if i == 0 || i + 2 < |recs| then Interior else BrokenTail
  {
    hide RecordsOf, Blank, Parsed, AllOf, Lines, Filter, Links, Genesis, ChopCR;
    var i, recs := Position(c, files, j, p), RecordsOf(c, files, 0);
    RemovalOnDisk(c, files, j, p, line, nl, rest);
    RemovalVerdict(c, recs, i);
    AlikeVerdict(c, Without(recs, i), RecordsOf(c, WithData(files, j, p + rest), 0));
  }
}
