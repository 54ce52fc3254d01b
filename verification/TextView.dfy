/** Reading the same files in text mode: universal newlines, and how the lines then seen relate
    to the physical lines that the byte-exact verifier sees. */
module TextView {
  import opened Bytes
  import opened Codec
  import opened AuditRecords
  import opened AuditClassify

  /** Universal newlines: CR LF and lone CR both read as a line feed. */
  function Universal(data: seq<byte>): seq<byte>
    decreases |data|
  {
    if |data| == 0 then []
    else if data[0] == CR then
      [LF] + Universal(if |data| > 1 && data[1] == LF then data[2..] else data[1..])
    else [data[0]] + Universal(data[1..])
  }

  /** The lines that iterating over a text file yields, newlines stripped. */
  function TextLines(data: seq<byte>): seq<Line> {
    Lines(Universal(data))
  }

  function ChopAll(lines: seq<Line>): (r: seq<Line>)
    ensures |r| == |lines| && forall i :: 0 <= i < |lines| ==> r[i] == ChopCR(lines[i])
  {
    seq(|lines|, i requires 0 <= i < |lines| => ChopCR(lines[i]))
  }

  /** Which lines a reader skips: those that `bytes.strip()` or `str.strip()` empties, or only
      the empty ones. */
  datatype Skip = SkipBlank | SkipStrBlank | SkipEmpty

  predicate Keeps(skip: Skip, line: Line) {
    match skip
    case SkipBlank => !Blank(line)
    case SkipStrBlank => !StrBlank(line)
    case SkipEmpty => |line| > 0
  }

  function Filter(skip: Skip, lines: seq<Line>): seq<Line>
    decreases |lines|
  {
    if |lines| == 0 then []
    else (if Keeps(skip, lines[0]) then [lines[0]] else []) + Filter(skip, lines[1..])
  }

  function Raws(recs: seq<Record>): (r: seq<Line>)
    ensures |r| == |recs| && forall i :: 0 <= i < |recs| ==> r[i] == recs[i].raw
  {
    seq(|recs|, i requires 0 <= i < |recs| => recs[i].raw)
  }

  // ---------------------------------------------------------------- physical lines and records

  lemma {:induction false} NextLFShift(data: seq<byte>, start: nat, from: nat)
    requires start <= from <= |data|
    ensures NextLF(data[start..], from - start) == NextLF(data, from) - start
    decreases |data| - from
  {
    if from < |data| && data[from] != LF {
      NextLFShift(data, start, from + 1);
    }
  }

  lemma RecordAtRaw(c: Codec, f: LogFile, start: nat, index: nat)
    requires start < |f.data|
    ensures var l := f.data[start..NextLF(f.data, start)];
      Raws(RecordAt(c, f, start, index)) == if Keeps(SkipBlank, l) then [l] else []
  {
    hide Blank, Parsed;
  }

  lemma LinesFrom(data: seq<byte>, start: nat)
    requires start < |data|
    ensures Lines(data[start..]) == [data[start..NextLF(data, start)]] + Lines(data[LineEnd(data, start)..])
  {
    NextLFShift(data, start, start);
    var rest := data[start..];
    assert rest[..NextLF(rest, 0)] == data[start..NextLF(data, start)];
    assert rest[LineEnd(rest, 0)..] == data[LineEnd(data, start)..];
  }

  /** The records of a file are its physical lines that are not blank. */
  lemma {:induction false} RecordLines(c: Codec, f: LogFile, start: nat, index: nat)
    requires start <= |f.data|
    ensures Raws(RecordsFrom(c, f, start, index)) == Filter(SkipBlank, Lines(f.data[start..]))
    decreases |f.data| - start
  {
    hide Keeps, RecordAt, LineEnd, NextLF, Lines;
    if start < |f.data| {
      var l := f.data[start..NextLF(f.data, start)];
      var end := LineEnd(f.data, start);
      var here := RecordAt(c, f, start, index);
      var rest := RecordsFrom(c, f, end, index + |here|);
      LinesFrom(f.data, start);
      RecordAtRaw(c, f, start, index);
      RecordLines(c, f, end, index + |here|);
      RawsConcat(here, rest);
      FilterCons(SkipBlank, l, Lines(f.data[end..]));
    } else {
      assert f.data[start..] == [];
      NoLines();
    }
  }

  lemma NoLines()
    ensures Lines([]) == []
  {
  }

  lemma RawsConcat(a: seq<Record>, b: seq<Record>)
    ensures Raws(a + b) == Raws(a) + Raws(b)
  {
  }

  lemma FilterCons(skip: Skip, x: Line, rest: seq<Line>)
    ensures Filter(skip, [x] + rest) == (if Keeps(skip, x) then [x] else []) + Filter(skip, rest)
  {
    assert ([x] + rest)[1..] == rest;
  }

  lemma RecordsAreLines(c: Codec, f: LogFile, index: nat)
    ensures Raws(FileRecords(c, f, index)) == Filter(SkipBlank, Lines(f.data))
  {
    RecordLines(c, f, 0, index);
    assert f.data[0..] == f.data;
  }

  // ---------------------------------------------------------------- universal newlines

  /** Text without carriage returns is read as it is. */
  lemma {:induction false} UniversalPlain(p: seq<byte>, rest: seq<byte>)
    requires CR !in p
    ensures Universal(p + rest) == p + Universal(rest)
    decreases |p|
  {
    if |p| == 0 {
      assert p + rest == rest;
    } else {
      assert p[0] in p;
      assert (p + rest)[0] == p[0] && (p + rest)[1..] == p[1..] + rest;
      UniversalPlain(p[1..], rest);
      Regroup([p[0]], p[1..], Universal(rest));
      assert [p[0]] + p[1..] == p;
    }
  }

  lemma CROnlyLast(data: seq<byte>, i: nat)
    requires CrClean(data) && i < NextLF(data, 0)
    ensures data[i] == CR ==> i + 1 == NextLF(data, 0)
  {
    if i + 1 < NextLF(data, 0) {
      assert data[i + 1] != LF;
    }
  }

  /** In a file whose carriage returns all end lines, a line holds none but the last byte. */
  lemma FirstLineBody(data: seq<byte>)
    requires CrClean(data)
    ensures var body := ChopCR(data[..NextLF(data, 0)]);
      LF !in body && CR !in body && body <= data
  {
    var nl := NextLF(data, 0);
    var l := data[..nl];
    var body := ChopCR(l);
    forall i | 0 <= i < |body| ensures body[i] != CR && body[i] != LF {
      assert body[i] == l[i] == data[i];
      CROnlyLast(data, i);
    }
  }

  /** A terminated first line read in text mode is that line without its carriage return. */
  lemma UniversalFirstLine(data: seq<byte>)
    requires CrClean(data) && NextLF(data, 0) < |data|
    ensures Universal(data) ==
      ChopCR(data[..NextLF(data, 0)]) + ([LF] + Universal(data[NextLF(data, 0) + 1..]))
  {
    hide Universal, NextLF, CrClean;
    FirstLineBody(data);
    var nl := NextLF(data, 0);
    var body := ChopCR(data[..nl]);
    var tail := data[|body|..];
    assert data == body + tail;
    UniversalPlain(body, tail);
    assert tail == (if |body| < nl then [CR, LF] else [LF]) + data[nl + 1..];
    UniversalNewline(data[nl + 1..]);
  }

  lemma UniversalNewline(rest: seq<byte>)
    ensures Universal([CR, LF] + rest) == [LF] + Universal(rest)
    ensures Universal([LF] + rest) == [LF] + Universal(rest)
  {
    assert ([CR, LF] + rest)[2..] == rest;
    assert ([LF] + rest)[1..] == rest;
  }

  /** A final partial line likewise; its carriage return reads as the newline it lacks. */
  lemma UniversalLastLine(data: seq<byte>)
    requires CrClean(data) && |data| > 0 && NextLF(data, 0) == |data|
    ensures Universal(data) == if data[|data| - 1] == CR then ChopCR(data) + ([LF] + []) else data
  {
    assert data[..NextLF(data, 0)] == data;
    FirstLineBody(data);
    var body := ChopCR(data);
    UniversalPlain(body, data[|body|..]);
    assert data == body + data[|body|..];
    if |body| < |data| {
      assert data[|body|..] == [CR];
      assert [CR][1..] == [];
    }
  }

  lemma LinesOfFirst(body: Line, rest: seq<byte>)
    requires LF !in body
    ensures Lines(body + ([LF] + rest)) == [body] + Lines(rest)
  {
    var d := body + ([LF] + rest);
    assert d[|body|] == LF;
    assert forall i :: 0 <= i < |body| ==> d[i] == body[i];
    assert NextLF(d, 0) == |body|;
    assert d[..|body|] == body && d[|body| + 1..] == rest;
  }

  lemma LinesOfLast(body: Line)
    requires LF !in body && |body| > 0
    ensures Lines(body) == [body]
  {
    assert NextLF(body, 0) == |body|;
    assert body[..|body|] == body && Lines(body[|body|..]) == [];
  }

  lemma CrCleanSuffix(data: seq<byte>, k: nat)
    requires CrClean(data) && k <= |data|
    ensures CrClean(data[k..])
  {
    var d := data[k..];
    forall i | 0 <= i < |d| && d[i] == CR ensures i + 1 == |d| || d[i + 1] == LF {
      assert data[k + i] == CR;
    }
  }

  /** Text mode sees the physical lines, each without its carriage return. */
  lemma {:induction false} TextLinesAreChopped(data: seq<byte>)
    requires CrClean(data)
    ensures TextLines(data) == ChopAll(Lines(data))
    decreases |data|
  {
    hide ChopCR, NextLF, CrClean, Universal;
    if |data| > 0 && NextLF(data, 0) < |data| {
      var l := data[..NextLF(data, 0)];
      var rest := data[NextLF(data, 0) + 1..];
      FirstLineBody(data);
      UniversalFirstLine(data);
      CrCleanSuffix(data, NextLF(data, 0) + 1);
      TextLinesAreChopped(rest);
      assert Lines(data) == [l] + Lines(rest);
      LinesOfFirst(ChopCR(l), Universal(rest));
    } else if |data| > 0 {
      LastTextLine(data);
    } else {
      EmptyText();
    }
  }

  lemma LastTextLine(data: seq<byte>)
    requires CrClean(data) && |data| > 0 && NextLF(data, 0) == |data|
    ensures TextLines(data) == ChopAll(Lines(data))
  {
    hide NextLF, CrClean, Universal;
    assert data[..NextLF(data, 0)] == data;
    FirstLineBody(data);
    UniversalLastLine(data);
    assert LF !in data by { assert forall i :: 0 <= i < |data| ==> data[i] != LF; }
    LinesOfLast(data);
    if data[|data| - 1] == CR {
      LinesOfFirst(ChopCR(data), []);
      NoLines();
    }
  }

  lemma EmptyText()
    ensures TextLines([]) == [] && Lines([]) == []
  {
  }

  /** Filtering commutes with chopping when the filters agree on these lines. */
  lemma {:induction false} FilterChop(chopped: Skip, raw: Skip, lines: seq<Line>)
    requires forall i :: 0 <= i < |lines| ==> Keeps(chopped, ChopCR(lines[i])) == Keeps(raw, lines[i])
    ensures Filter(chopped, ChopAll(lines)) == ChopAll(Filter(raw, lines))
    decreases |lines|
  {
    hide ChopCR, Keeps;
    if |lines| > 0 {
      var rest := lines[1..];
      assert forall i :: 0 <= i < |rest| ==> rest[i] == lines[i + 1];
      FilterChop(chopped, raw, rest);
      assert ChopAll(lines) == [ChopCR(lines[0])] + ChopAll(rest);
      FilterCons(chopped, ChopCR(lines[0]), ChopAll(rest));
    }
  }
}
