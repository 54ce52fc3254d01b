/** The standalone script on any log, whatever carriage returns the lines hold: exactly when it says
    that the chain is intact, and when that agrees with the segment-aware verifier. */
module ScriptPieces {
  import opened Bytes
  import opened Codec
  import opened AuditRecords
  import opened AuditClassify
  import opened TextView
  import opened TextPieces
  import opened StartupGate
  import opened GateWindow
  import opened OtherVerifiers
  import opened AuditRepair
  import opened RecoveryAnchor

  // ---------------------------------------------------------------- the lines that the script sees

  /** The pieces of a physical line that a reader skipping empty lines keeps. */
  function Kept(raw: Line): seq<Line> {
    Filter(SkipEmpty, Pieces(raw))
  }

  function AllKept(lines: seq<Line>): seq<Line>
    decreases |lines|
  {
    if |lines| == 0 then [] else Kept(lines[0]) + AllKept(lines[1..])
  }

  /** The physical lines of all files. */
  function AllLines(files: seq<LogFile>): seq<Line>
    decreases |files|
  {
    if |files| == 0 then [] else Lines(files[0].data) + AllLines(files[1..])
  }

  lemma {:induction false} KeptPieces(lines: seq<Line>)
    ensures Filter(SkipEmpty, AllPieces(lines)) == AllKept(lines)
    decreases |lines|
  {
    hide Pieces;
    if |lines| > 0 {
      KeptPieces(lines[1..]);
      FilterConcat(SkipEmpty, Pieces(lines[0]), AllPieces(lines[1..]));
    }
  }

  lemma {:induction false} AllKeptConcat(a: seq<Line>, b: seq<Line>)
    ensures AllKept(a + b) == AllKept(a) + AllKept(b)
    decreases |a|
  {
    hide Kept;
    if |a| == 0 {
      assert a + b == b;
    } else {
      assert (a + b)[0] == a[0] && (a + b)[1..] == a[1..] + b;
      AllKeptConcat(a[1..], b);
      Regroup(Kept(a[0]), AllKept(a[1..]), AllKept(b));
    }
  }

  /** What the script looks at are the pieces of the physical lines. */
  lemma {:induction false} ScriptLinesArePieces(files: seq<LogFile>)
    ensures ScriptLines(files) == AllKept(AllLines(files))
    decreases |files|
  {
    hide TextLines, Filter, Lines, AllKept, AllPieces;
    if |files| > 0 {
      var lines := Lines(files[0].data);
      TextLinesArePieces(files[0].data);
      KeptPieces(lines);
      AllKeptConcat(lines, AllLines(files[1..]));
      ScriptLinesArePieces(files[1..]);
    } else {
      NothingKept();
    }
  }

  lemma NothingKept()
    ensures AllKept([]) == []
  {
  }

  ghost predicate AllDecode(c: Codec, files: seq<LogFile>) {
    forall i :: 0 <= i < |files| ==> Decodes(c, files[i].data)
  }

  /** One chain from genesis. */
  ghost predicate Chained(c: Codec, lines: seq<Line>) {
    forall k :: 0 <= k < |lines| ==> LineLinks(c, lines, k)
  }

  /** On any files the script says Intact exactly when all decode and the pieces of their physical
      lines that are not empty form one chain from genesis. */
  lemma ScriptIntactIff(c: Codec, files: seq<LogFile>)
    ensures ScriptVerdict(c, files) == Intact <==> AllDecode(c, files) && Chained(c, AllKept(AllLines(files)))
  {
    hide Decodes, LineLinks, ScanFrom, ScanFiles, ScriptLines, AllKept;
    var start := ScanState(Some(Genesis(c)), true);
    ScriptLinesArePieces(files);
    ScanAccepts(c, ScriptLines(files), 0);
    if ScanFiles(c, start, files).Some? {
      ScanFilesDecodes(c, start, files);
    }
    if AllDecode(c, files) {
      ScanFilesIsFlat(c, start, files);
    }
  }

  // ---------------------------------------------------------------- records and pieces

  /** No blank line shows the script anything. */
  ghost predicate BlanksHidden(lines: seq<Line>) {
    forall i :: 0 <= i < |lines| && Blank(lines[i]) ==> Kept(lines[i]) == []
  }

  /** Then it sees the pieces of the records. */
  lemma {:induction false} KeptOfRecords(lines: seq<Line>)
    requires BlanksHidden(lines)
    ensures AllKept(lines) == AllKept(Filter(SkipBlank, lines))
    decreases |lines|
  {
    hide Kept, Blank;
    if |lines| > 0 {
      var rest := lines[1..];
      assert forall i :: 0 <= i < |rest| ==> rest[i] == lines[i + 1];
      KeptOfRecords(rest);
      var kept := Filter(SkipBlank, rest);
      if Blank(lines[0]) {
        assert [] + kept == kept;
        assert [] + AllKept(rest) == AllKept(rest);
      } else {
        assert ([lines[0]] + kept)[1..] == kept;
      }
    }
  }

  lemma {:induction false} RawsAreLines(c: Codec, files: seq<LogFile>, index: nat)
    ensures Raws(RecordsOf(c, files, index)) == Filter(SkipBlank, AllLines(files))
    decreases |files|
  {
    hide RecordsFrom, Lines, Filter;
    if |files| > 0 {
      var first := FileRecords(c, files[0], index);
      RecordsAreLines(c, files[0], index);
      RawsAreLines(c, files[1..], index + |first|);
      RawsConcat(first, RecordsOf(c, files[1..], index + |first|));
      FilterConcat(SkipBlank, Lines(files[0].data), AllLines(files[1..]));
    } else {
      NothingFiltered();
    }
  }

  lemma NothingFiltered()
    ensures Filter(SkipBlank, []) == []
  {
  }

  lemma {:induction false} KeptMember(lines: seq<Line>, i: nat, j: nat)
    requires i < |lines| && j < |Kept(lines[i])|
    ensures Kept(lines[i])[j] in AllKept(lines)
    decreases |lines|
  {
    hide Kept;
    if i > 0 {
      KeptMember(lines[1..], i - 1, j);
    }
  }

  // ---------------------------------------------------------------- one piece reads like its line

  lemma {:induction false} OnlyCarriageReturns(s: Line)
    requires Filter(SkipEmpty, CrSplit(s)) == []
    ensures forall i :: 0 <= i < |s| ==> s[i] == CR
    decreases |s|
  {
    var n := NextCR(s);
    if n < |s| {
      FilterCons(SkipEmpty, s[..n], CrSplit(s[n + 1..]));
      OnlyCarriageReturns(s[n + 1..]);
      assert forall i :: n < i < |s| ==> s[i] == s[n + 1..][i - n - 1];
    } else {
      FilterCons(SkipEmpty, s, []);
      assert [s] + [] == [s];
    }
  }

  lemma {:induction false} LoadTrailing(c: Codec, p: Line, q: Line)
    requires forall i :: 0 <= i < |q| ==> q[i] == CR
    ensures Load(c, p + q) == Load(c, p)
    decreases |q|
  {
    hide Load;
    if |q| == 0 {
      assert p + q == p;
    } else {
      var init := q[..|q| - 1];
      LoadTrailing(c, p, init);
      LoadChop(c, p + q);
      assert (p + q)[..|p + q| - 1] == p + init;
    }
  }

  lemma {:induction false} LoadOfPiece(c: Codec, s: Line)
    requires |Filter(SkipEmpty, CrSplit(s))| == 1
    ensures Load(c, Filter(SkipEmpty, CrSplit(s))[0]) == Load(c, s)
    decreases |s|
  {
    hide Load, Filter;
    var n := NextCR(s);
    if n == |s| {
      NoCRWhole(s);
      FilterCons(SkipEmpty, s, []);
      assert [s] + [] == [s];
      NoneKept();
    } else {
      var p, q := s[..n], s[n + 1..];
      FilterCons(SkipEmpty, p, CrSplit(q));
      Around(s, n);
      if n == 0 {
        LoadOfPiece(c, q);
        LoadLeading(c, q);
        assert [] + Filter(SkipEmpty, CrSplit(q)) == Filter(SkipEmpty, CrSplit(q));
        assert p + ([CR] + q) == [CR] + q;
      } else {
        assert Filter(SkipEmpty, CrSplit(s)) == [p] + Filter(SkipEmpty, CrSplit(q));
        OnlyCarriageReturns(q);
        LoadTrailing(c, p, [CR] + q);
      }
    }
  }

  lemma NoneKept()
    ensures Filter(SkipEmpty, []) == []
  {
  }

  lemma LoadOfOnePiece(c: Codec, raw: Line)
    requires |Kept(raw)| == 1
    ensures Load(c, Kept(raw)[0]) == Load(c, raw)
  {
    hide Load, Filter, CrSplit, ChopCR;
    LoadOfPiece(c, ChopCR(raw));
    LoadChop(c, raw);
  }

  /** The one piece is the line itself exactly when the line has no carriage return inside. */
  lemma PieceIsWhole(raw: Line)
    requires |Kept(raw)| == 1
    ensures Kept(raw)[0] == ChopCR(raw) <==> CR !in ChopCR(raw)
  {
    hide CrSplit, Filter, ChopCR;
    var s := ChopCR(raw);
    FilterIn(SkipEmpty, CrSplit(s), 0);
    PiecesHaveNoCR(s);
    if CR !in s {
      WholePiece(s);
    }
  }

  // ---------------------------------------------------------------- the condition

  /** Every record shows as one line, and every record with a successor has no carriage return inside. */
  ghost predicate OnePieceEach(recs: seq<Record>) {
    forall i :: 0 <= i < |recs| ==>
      |Kept(recs[i].raw)| == 1 && (i + 1 < |recs| ==> CR !in ChopCR(recs[i].raw))
  }

  lemma {:induction false} OnePieceLines(lines: seq<Line>)
    requires forall i :: 0 <= i < |lines| ==> |Kept(lines[i])| == 1
    ensures |AllKept(lines)| == |lines|
    ensures forall i :: 0 <= i < |lines| ==> AllKept(lines)[i] == Kept(lines[i])[0]
    decreases |lines|
  {
    hide Kept;
    if |lines| > 0 {
      OnePieceLines(lines[1..]);
    }
  }

  /** A record whose predecessor is seen whole links as its line does. */
  lemma PieceLinks(c: Codec, recs: seq<Record>, i: nat)
    requires i < |recs| && recs[i].parsed == Parsed(c, recs[i].raw)
    requires forall k :: 0 <= k < |recs| ==> |Kept(recs[k].raw)| == 1
    requires i > 0 ==> CR !in ChopCR(recs[i - 1].raw)
    ensures i < |AllKept(Raws(recs))|
    ensures LineLinks(c, AllKept(Raws(recs)), i) == Carries(recs[i], Anchor(c, recs, i))
  {
    hide Load, Genesis, ChopCR, Kept, AllKept;
    OnePieceLines(Raws(recs));
    LoadOfOnePiece(c, recs[i].raw);
    if i > 0 {
      PieceIsWhole(recs[i - 1].raw);
    }
  }

  lemma AllPieceLinks(c: Codec, recs: seq<Record>)
    requires forall i :: 0 <= i < |recs| ==> recs[i].parsed == Parsed(c, recs[i].raw)
    requires OnePieceEach(recs)
    ensures Chained(c, AllKept(Raws(recs))) <==> SingleSegment(c, recs)
  {
    hide Carries, LineLinks, Kept, AllKept;
    OnePieceLines(Raws(recs));
    forall i | 0 <= i < |recs|
      ensures LineLinks(c, AllKept(Raws(recs)), i) == Carries(recs[i], Anchor(c, recs, i))
    {
      PieceLinks(c, recs, i);
    }
  }

  // ---------------------------------------------------------------- what a chain of pieces says

  lemma {:induction false} NoBlankPiece(pieces: seq<Line>)
    requires forall i :: 0 <= i < |Filter(SkipEmpty, pieces)| ==> !StrBlank(Filter(SkipEmpty, pieces)[i])
    ensures Filter(SkipStrBlank, pieces) == Filter(SkipEmpty, pieces)
    decreases |pieces|
  {
    hide StrBlank;
    if |pieces| > 0 {
      var all, rest := Filter(SkipEmpty, pieces), Filter(SkipEmpty, pieces[1..]);
      if |pieces[0]| > 0 {
        assert all[0] == pieces[0];
        assert forall i :: 0 <= i < |rest| ==> rest[i] == all[i + 1];
      } else {
        EmptyIsStrBlank(pieces[0]);
        assert all == [] + rest == rest;
      }
      NoBlankPiece(pieces[1..]);
    }
  }

  lemma EmptyIsStrBlank(l: Line)
    ensures |l| == 0 ==> StrBlank(l)
  {
  }

  lemma ChainedPiece(c: Codec, lines: seq<Line>, i: nat, j: nat)
    requires Chained(c, AllKept(lines)) && i < |lines| && j < |Kept(lines[i])|
    ensures Load(c, Kept(lines[i])[j]).Object? && !StrBlank(Kept(lines[i])[j])
  {
    hide Kept, AllKept, StrBlank, TrimCR, Genesis;
    KeptMember(lines, i, j);
    var all := AllKept(lines);
    var k :| 0 <= k < |all| && all[k] == Kept(lines[i])[j];
    assert LineLinks(c, all, k);
  }

  /** In a chain a line keeps what is not white space. */
  lemma ChainedVisible(c: Codec, lines: seq<Line>, i: nat)
    requires Chained(c, AllKept(lines)) && i < |lines|
    ensures Kept(lines[i]) == Visible(lines[i])
  {
    hide AllKept, StrBlank, Chained, CrSplit, Load;
    var kept := Filter(SkipEmpty, Pieces(lines[i]));
    assert kept == Kept(lines[i]);
    forall j | 0 <= j < |kept| ensures !StrBlank(kept[j]) {
      ChainedPiece(c, lines, i, j);
    }
    NoBlankPiece(Pieces(lines[i]));
  }

  lemma ChainedHidesBlanks(c: Codec, lines: seq<Line>)
    requires Chained(c, AllKept(lines))
    ensures BlanksHidden(lines)
  {
    hide AllKept, Kept, Blank, Visible, Chained;
    forall i | 0 <= i < |lines| && Blank(lines[i]) ensures Kept(lines[i]) == [] {
      ChainedVisible(c, lines, i);
      BlankIsInvisible(lines[i]);
    }
  }

  /** In a chain a record that is an object shows as one line. */
  lemma ChainedObject(c: Codec, recs: seq<Record>, i: nat)
    requires SplitsLikeJson(c) && Chained(c, AllKept(Raws(recs)))
    requires i < |recs| && recs[i].parsed.Some? && recs[i].parsed == Parsed(c, recs[i].raw)
    ensures |Kept(recs[i].raw)| == 1
  {
    hide AllKept, Kept, Visible, Chained, Load;
    var raw := recs[i].raw;
    ChainedVisible(c, Raws(recs), i);
    ParsedShow(c, recs, i);
    assert SplitsAt(c, raw);
    if |Kept(raw)| > 1 {
      ChainedPiece(c, Raws(recs), i, |Kept(raw)| - 1);
    }
  }

  lemma GenesisIsNoObject(c: Codec)
    requires Parsed(c, GENESIS_STRING).None?
    ensures !Load(c, GENESIS_STRING).Object?
  {
    hide Load;
  }

  /** In a chain a record that another record follows is seen whole. */
  lemma ChainedWhole(c: Codec, recs: seq<Record>, i: nat)
    requires CollisionFree(c) && Parsed(c, GENESIS_STRING).None?
    requires Chained(c, AllKept(Raws(recs))) && forall k :: 0 <= k < |recs| ==> |Kept(recs[k].raw)| == 1
    requires i + 1 < |recs| && Links(c, recs, i + 1) && recs[i + 1].parsed == Parsed(c, recs[i + 1].raw)
    ensures CR !in ChopCR(recs[i].raw)
  {
    hide AllKept, Kept, Load, Parsed, ChopCR, Links, CollisionFree, Carries;
    var lines := AllKept(Raws(recs));
    OnePieceLines(Raws(recs));
    assert LineLinks(c, lines, i) && LineLinks(c, lines, i + 1);
    LoadOfOnePiece(c, recs[i + 1].raw);
    PrevHashOf(c, recs, i + 1);
    GenesisIsNoObject(c);
    DigestsAgree(c, lines[i], GENESIS_STRING);
    DigestsAgree(c, lines[i], ChopCR(recs[i].raw));
    PieceIsWhole(recs[i].raw);
  }

  lemma ChainedValid(c: Codec, recs: seq<Record>)
    requires CollisionFree(c) && SplitsLikeJson(c) && Parsed(c, GENESIS_STRING).None?
    requires Chained(c, AllKept(Raws(recs))) && ChainValid(c, recs)
    requires forall i :: 0 <= i < |recs| ==> recs[i].parsed == Parsed(c, recs[i].raw)
    ensures OnePieceEach(recs) && SingleSegment(c, recs)
  {
    hide AllKept, Kept, Load, Parsed, ChopCR, Links, CollisionFree, Carries, SplitsLikeJson, Chained, SingleSegment, AllParsed;
    ChainIsParsed(c, recs);
    forall i | 0 <= i < |recs| ensures |Kept(recs[i].raw)| == 1 {
      ParsedAt(recs, i);
      ChainedObject(c, recs, i);
    }
    forall i | 0 <= i < |recs| && i + 1 < |recs| ensures CR !in ChopCR(recs[i].raw) {
      ChainedWhole(c, recs, i);
    }
    AllPieceLinks(c, recs);
  }

  // ---------------------------------------------------------------- script and verifier

  ghost predicate Accepted(c: Codec, files: seq<LogFile>) {
    VerifyFiles(c, files).status == Valid || VerifyFiles(c, files).status == Empty
  }

  /** Script and verifier both accept exactly the logs that are one segment from genesis on, in which
      every record shows as one line, is seen whole when another follows, and blank lines show
      nothing.  So a valid log is accepted by the script exactly when it is one segment of that kind. */
  lemma BothAcceptIff(c: Codec, files: seq<LogFile>)
    requires CollisionFree(c) && SplitsLikeJson(c) && Parsed(c, GENESIS_STRING).None?
    ensures var recs := RecordsOf(c, files, 0);
      ScriptVerdict(c, files) == Intact && Accepted(c, files) <==>
      SingleSegment(c, recs) && OnePieceEach(recs) && BlanksHidden(AllLines(files))
  {
    hide CollisionFree, SplitsLikeJson, Parsed, RecordsOf, Decodes, AllKept, AllLines, Links, Chained, SingleSegment, OnePieceEach, BlanksHidden, ScanFiles, Raws, Filter, AllParsed;
    var recs, lines := RecordsOf(c, files, 0), AllLines(files);
    ScriptIntactIff(c, files);
    RawsAreLines(c, files, 0);
    RecordsAreParsed(c, files, 0);
    if ScriptVerdict(c, files) == Intact && Accepted(c, files) {
      ChainedHidesBlanks(c, lines);
      KeptOfRecords(lines);
      ChainedValid(c, recs);
    }
    if SingleSegment(c, recs) && OnePieceEach(recs) && BlanksHidden(lines) {
      KeptOfRecords(lines);
      AllPieceLinks(c, recs);
      SingleSegmentIsValid(c, recs);
      ChainIsParsed(c, recs);
      ValidFilesDecode(c, files, 0);
    }
  }

  /** When the script says Intact the log is valid or empty exactly when every record shows as one
      line and every record with a successor has no carriage return inside. */
  lemma IntactAcceptedIff(c: Codec, files: seq<LogFile>)
    requires CollisionFree(c) && SplitsLikeJson(c) && Parsed(c, GENESIS_STRING).None?
    requires ScriptVerdict(c, files) == Intact
    ensures Accepted(c, files) <==> OnePieceEach(RecordsOf(c, files, 0))
  {
    hide CollisionFree, SplitsLikeJson, Parsed, RecordsOf, Decodes, AllKept, AllLines, Links, Chained, SingleSegment, OnePieceEach, BlanksHidden, ScanFiles, Raws, Filter, AllParsed;
    var recs, lines := RecordsOf(c, files, 0), AllLines(files);
    BothAcceptIff(c, files);
    ScriptIntactIff(c, files);
    ChainedHidesBlanks(c, lines);
    if OnePieceEach(recs) {
      RawsAreLines(c, files, 0);
      RecordsAreParsed(c, files, 0);
      KeptOfRecords(lines);
      AllPieceLinks(c, recs);
    }
  }

  // ---------------------------------------------------------------- clean logs

  lemma CleanLine(data: seq<byte>, i: nat)
    requires CrClean(data) && i < |Lines(data)|
    ensures CR !in ChopCR(Lines(data)[i])
    ensures Kept(Lines(data)[i]) == if |ChopCR(Lines(data)[i])| > 0 then [ChopCR(Lines(data)[i])] else []
  {
    hide CrClean, Lines, TextLines, AllPieces, ChopCR, CrSplit;
    var lines := Lines(data);
    TextLinesAreChopped(data);
    TextLinesArePieces(data);
    TextHasNoCR(lines, i);
    var s := ChopCR(lines[i]);
    assert AllPieces(lines)[i] == s;
    WholePiece(s);
    FilterCons(SkipEmpty, s, []);
    assert [s] + [] == [s];
    NoneKept();
  }

  lemma {:induction false} LineOfFile(files: seq<LogFile>, k: nat) returns (j: nat, i: nat)
    requires k < |AllLines(files)|
    ensures j < |files| && i < |Lines(files[j].data)| && AllLines(files)[k] == Lines(files[j].data)[i]
    decreases |files|
  {
    hide Lines;
    var n := |Lines(files[0].data)|;
    if k < n {
      j, i := 0, k;
    } else {
      j, i := LineOfFile(files[1..], k - n);
      j := j + 1;
    }
  }

  /** With carriage returns only before newlines every record shows as one line and is seen whole, so
      that nothing but the segments and the blank lines decide. */
  lemma CleanShowsWhole(c: Codec, files: seq<LogFile>)
    requires forall i :: 0 <= i < |files| ==> CrClean(files[i].data)
    ensures OnePieceEach(RecordsOf(c, files, 0))
    ensures (forall i :: 0 <= i < |files| ==> NoPaddedBlank(files[i].data)) ==> BlanksHidden(AllLines(files))
  {
    hide CrClean, Lines, Blank, Kept, ChopCR, RecordsOf, Filter;
    var recs, lines := RecordsOf(c, files, 0), AllLines(files);
    RawsAreLines(c, files, 0);
    forall i | 0 <= i < |recs| ensures |Kept(recs[i].raw)| == 1 && CR !in ChopCR(recs[i].raw) {
      FilterIn(SkipBlank, lines, i);
      var k :| 0 <= k < |lines| && lines[k] == recs[i].raw;
      var j, l := LineOfFile(files, k);
      CleanLine(files[j].data, l);
      BlankChop(recs[i].raw);
      if |ChopCR(recs[i].raw)| == 0 { EmptyIsBlank(ChopCR(recs[i].raw)); }
    }
    if forall i :: 0 <= i < |files| ==> NoPaddedBlank(files[i].data) {
      forall k | 0 <= k < |lines| && Blank(lines[k]) ensures Kept(lines[k]) == [] {
        var j, l := LineOfFile(files, k);
        CleanLine(files[j].data, l);
      }
    }
  }
}
