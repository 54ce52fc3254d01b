/** The startup gate on any log: exactly when a valid log passes, and what passing says about a log
    that the window covers, whatever carriage returns the records hold. */
module GateWindow {
  import opened Bytes
  import opened Codec
  import opened AuditRecords
  import opened AuditClassify
  import opened AuditRepair
  import opened TextView
  import opened TextPieces
  import opened StartupGate

  // ---------------------------------------------------------------- JSON broken at carriage returns

  /** A line broken at the carriage returns inside it. Its pieces decode when it does. Of an object
      the only piece that is not white space reads like the whole; of several the last is no object,
      because it closes a brace that it does not open. */
  predicate SplitsAt(c: Codec, raw: Line) {
    var shown := Visible(raw);
    && (Load(c, raw) != Undecodable ==>
          forall i :: 0 <= i < |Pieces(raw)| ==> Load(c, Pieces(raw)[i]) != Undecodable)
    && (Load(c, raw).Object? && |shown| == 1 ==> Load(c, shown[0]) == Load(c, raw))
    && (Load(c, raw).Object? && |shown| > 1 ==> !Load(c, shown[|shown| - 1]).Object?)
  }

  ghost predicate SplitsLikeJson(c: Codec) {
    forall raw: Line :: SplitsAt(c, raw)
  }

  // ---------------------------------------------------------------- what the gate sees of records

  function Flag(lines: seq<Line>, first: bool): (r: seq<TextRecord>)
    ensures |r| == |lines| && forall i :: 0 <= i < |r| ==> r[i] == TextRecord(lines[i], first && i == 0)
  {
    seq(|lines|, i requires 0 <= i < |lines| => TextRecord(lines[i], first && i == 0))
  }

  /** The lines that the gate sees of these records. */
  function Shown(recs: seq<Record>): seq<TextRecord>
    decreases |recs|
  {
    if |recs| == 0 then []
    else
      var n := |recs| - 1;
      Shown(recs[..n]) + Flag(Visible(recs[n].raw), SegmentStart(recs, n))
  }

  ghost predicate AllShow(recs: seq<Record>) {
    forall i :: 0 <= i < |recs| ==> |Visible(recs[i].raw)| > 0
  }

  lemma ShownOne(recs: seq<Record>, n: nat)
    requires n < |recs|
    ensures Shown(recs[..n + 1]) == Shown(recs[..n]) + Flag(Visible(recs[n].raw), SegmentStart(recs, n))
  {
    hide Visible;
    assert recs[..n + 1][..n] == recs[..n];
    assert SegmentStart(recs[..n + 1], n) == SegmentStart(recs, n);
  }

  lemma FlaggedConcat(a: seq<Line>, b: seq<Line>)
    ensures Flagged(a + b) == Flagged(a) + Flag(b, |a| == 0)
  {
  }

  /** The records of one file. */
  lemma {:induction false} FileShown(recs: seq<Record>, n: nat)
    requires n <= |recs| && AllShow(recs) && forall i :: 0 <= i < |recs| ==> recs[i].file == recs[0].file
    ensures Flagged(AllVisible(Raws(recs[..n]))) == Shown(recs[..n])
    ensures |AllVisible(Raws(recs[..n]))| > 0 <==> n > 0
    decreases n
  {
    hide Visible, AllVisible, Shown;
    if n > 0 {
      FileShown(recs, n - 1);
      ShownOne(recs, n - 1);
      var raw := recs[n - 1].raw;
      assert Raws(recs[..n]) == Raws(recs[..n - 1]) + [raw];
      AllVisibleConcat(Raws(recs[..n - 1]), [raw]);
      OneShown(raw);
      FlaggedConcat(AllVisible(Raws(recs[..n - 1])), Visible(raw));
    } else {
      assert Raws(recs[..0]) == [];
      assert recs[..0] == [];
      NothingShown();
    }
  }

  lemma OneShown(raw: Line)
    ensures AllVisible([raw]) == Visible(raw)
  {
    hide Visible;
    assert [raw][1..] == [];
    assert Visible(raw) + [] == Visible(raw);
  }

  lemma NothingShown()
    ensures AllVisible([]) == [] && Shown([]) == []
  {
  }

  /** Records of other files behind. */
  lemma {:induction false} ShownConcat(a: seq<Record>, b: seq<Record>, n: nat)
    requires n <= |b| && (|a| > 0 && |b| > 0 ==> a[|a| - 1].file != b[0].file)
    ensures Shown(a + b[..n]) == Shown(a) + Shown(b[..n])
    decreases n
  {
    hide Visible, Shown;
    NothingShown();
    if n == 0 {
      assert a + b[..0] == a && b[..0] == [];
      assert Shown(a) + [] == Shown(a);
    } else {
      ShownConcat(a, b, n - 1);
      var all := a + b;
      assert all[..|a| + n] == a + b[..n] && all[..|a| + n - 1] == a + b[..n - 1];
      ShownOne(all, |a| + n - 1);
      ShownOne(b, n - 1);
      assert SegmentStart(all, |a| + n - 1) == SegmentStart(b, n - 1);
      Regroup(Shown(a), Shown(b[..n - 1]), Flag(Visible(b[n - 1].raw), SegmentStart(b, n - 1)));
    }
  }

  /** What the gate sees of the files is what it sees of the records, when all of them show. */
  lemma {:induction false} GateSeesRecords(c: Codec, files: seq<LogFile>, index: nat)
    requires Sorted(files) && AllShow(RecordsOf(c, files, index))
    ensures GateAll(files) == Shown(RecordsOf(c, files, index))
    decreases |files|
  {
    hide RecordsFrom, Visible, AllVisible, Shown, TextLines, Filter;
    if |files| > 0 {
      var first := FileRecords(c, files[0], index);
      var rest := RecordsOf(c, files[1..], index + |first|);
      var recs := RecordsOf(c, files, index);
      assert recs == first + rest;
      assert forall i :: 0 <= i < |first| ==> first[i] == recs[i];
      assert forall i :: 0 <= i < |rest| ==> rest[i] == recs[|first| + i];
      FileOfRecords(c, files[0], index);
      FileShown(first, |first|);
      assert first[..|first|] == first && rest[..|rest|] == rest;
      TextShowsRecords(c, files[0], index);
      GateSeesRecords(c, files[1..], index + |first|);
      RecordDates(c, files[1..], index + |first|, files[0].date);
      ShownConcat(first, rest, |rest|);
    } else {
      NothingShown();
    }
  }

  lemma ParsedShow(c: Codec, recs: seq<Record>, i: nat)
    requires i < |recs| && recs[i].parsed.Some? && recs[i].parsed == Parsed(c, recs[i].raw)
    ensures |Visible(recs[i].raw)| > 0 && Load(c, recs[i].raw).Object?
  {
    hide StrBlank, TrimCR, Visible;
    SomethingVisible(recs[i].raw);
  }

  // ---------------------------------------------------------------- decoding

  lemma {:induction false} PieceOf(lines: seq<Line>, k: nat) returns (i: nat, j: nat)
    requires k < |AllPieces(lines)|
    ensures i < |lines| && j < |Pieces(lines[i])| && AllPieces(lines)[k] == Pieces(lines[i])[j]
    decreases |lines|
  {
    hide Pieces;
    var n := |Pieces(lines[0])|;
    if k < n {
      i, j := 0, k;
    } else {
      i, j := PieceOf(lines[1..], k - n);
      i := i + 1;
    }
  }

  lemma {:induction false} NotKept(skip: Skip, lines: seq<Line>, i: nat)
    requires Filter(skip, lines) == [] && i < |lines|
    ensures !Keeps(skip, lines[i])
    decreases |lines|
  {
    hide Keeps;
    if i > 0 {
      NotKept(skip, lines[1..], i - 1);
    }
  }

  /** A file whose records are all JSON objects decodes. */
  lemma ObjectsDecode(c: Codec, f: LogFile, index: nat)
    requires SplitsLikeJson(c) && AllParsed(FileRecords(c, f, index))
    ensures Decodes(c, f.data)
  {
    hide RecordsFrom, Blank, StrBlank, TextLines, Filter, CrSplit, TrimCR, Lines;
    var lines, recs := Lines(f.data), FileRecords(c, f, index);
    TextLinesArePieces(f.data);
    RecordsAreLines(c, f, index);
    RecordsWellPlaced(c, f, 0, index);
    forall k | 0 <= k < |TextLines(f.data)| ensures Load(c, TextLines(f.data)[k]) != Undecodable {
      var i, j := PieceOf(lines, k);
      if Blank(lines[i]) {
        BlankIsInvisible(lines[i]);
        NotKept(SkipStrBlank, Pieces(lines[i]), j);
      } else {
        FilterMember(SkipBlank, lines, i);
        var m :| 0 <= m < |recs| && recs[m].raw == lines[i];
        assert WellPlaced(c, f, recs[m]);
        assert SplitsAt(c, lines[i]);
      }
    }
  }

  lemma {:induction false} ValidFilesDecode(c: Codec, files: seq<LogFile>, index: nat)
    requires SplitsLikeJson(c) && AllParsed(RecordsOf(c, files, index))
    ensures forall i :: 0 <= i < |files| ==> Decodes(c, files[i].data)
    decreases |files|
  {
    hide Decodes, RecordsFrom, SplitsLikeJson;
    if |files| > 0 {
      var first := FileRecords(c, files[0], index);
      var rest := RecordsOf(c, files[1..], index + |first|);
      var recs := RecordsOf(c, files, index);
      assert recs == first + rest;
      assert forall i :: 0 <= i < |first| ==> first[i] == recs[i];
      assert forall i :: 0 <= i < |rest| ==> rest[i] == recs[|first| + i];
      ObjectsDecode(c, files[0], index);
      ValidFilesDecode(c, files[1..], index + |first|);
      assert forall i :: 0 < i < |files| ==> files[i] == files[1..][i - 1];
    }
  }

  // ---------------------------------------------------------------- passing, line by line

  /** Line `q` continues the line before it. */
  ghost predicate PairOk(c: Codec, w: seq<TextRecord>, q: nat)
    requires 0 < q < |w|
  {
    && Load(c, w[q].text).Object?
    && var prevHash := Load(c, w[q].text).prevHash;
      (w[q].first && prevHash == Some(Genesis(c))) || prevHash == Some(c.digest(w[q - 1].text))
  }

  lemma {:induction false} TailIff(c: Codec, w: seq<TextRecord>, i: nat)
    requires 0 < i
    ensures TailFrom(c, w, i) == Passed <==> forall q :: i <= q < |w| ==> PairOk(c, w, q)
    decreases |w| - i
  {
    hide Load, Genesis;
    if i < |w| {
      TailIff(c, w, i + 1);
      assert TailFrom(c, w, i) == Passed <==> PairOk(c, w, i) && TailFrom(c, w, i + 1) == Passed;
    }
  }

  /** The same in terms of the whole log, when the window starts at line `k`. */
  ghost predicate PairsFrom(c: Codec, all: seq<TextRecord>, k: nat) {
    forall q :: k < q < |all| ==> PairOk(c, all, q)
  }

  lemma WindowPairs(c: Codec, all: seq<TextRecord>, k: nat)
    requires k <= |all|
    ensures TailFrom(c, all[k..], 1) == Passed <==> PairsFrom(c, all, k)
  {
    hide Load, Genesis, TailFrom;
    var w := all[k..];
    TailIff(c, w, 1);
    if forall q :: 1 <= q < |w| ==> PairOk(c, w, q) {
      forall q | k < q < |all| ensures PairOk(c, all, q) {
        assert PairOk(c, w, q - k);
      }
    }
    if PairsFrom(c, all, k) {
      forall q | 1 <= q < |w| ensures PairOk(c, w, q) {
        assert PairOk(c, all, k + q);
      }
    }
  }

  /** Record `i` is seen as one line, behind a record that is seen whole; or it opens a segment. */
  ghost predicate SeenToFollow(c: Codec, recs: seq<Record>, i: nat)
    requires i < |recs|
  {
    && i > 0 && |Visible(recs[i].raw)| == 1
    && ((SegmentStart(recs, i) && Carries(recs[i], Genesis(c))) || CR !in ChopCR(recs[i - 1].raw))
  }

  /** So is every record with a line behind line `k`. */
  ghost predicate SeenFrom(c: Codec, recs: seq<Record>, k: nat) {
    forall i :: 0 <= i < |recs| && |Shown(recs[..i + 1])| >= k + 2 ==> SeenToFollow(c, recs, i)
  }

  lemma LastLine(recs: seq<Record>, n: nat)
    requires 0 < n <= |recs| && |Visible(recs[n - 1].raw)| > 0
    ensures var shown, v := Shown(recs[..n]), Visible(recs[n - 1].raw);
      |shown| >= |v| && shown[|shown| - 1].text == v[|v| - 1]
  {
    hide Visible, Shown;
    ShownOne(recs, n - 1);
  }

  /** The last visible piece of a line is the whole line exactly when it has no carriage return
      inside. */
  lemma LastPieceWhole(raw: Line)
    requires !StrBlank(raw)
    ensures |Visible(raw)| > 0
    ensures Visible(raw)[|Visible(raw)| - 1] == ChopCR(raw) <==> CR !in ChopCR(raw)
  {
    hide StrBlank, Visible;
    SomethingVisible(raw);
    VisibleHasNoCR(raw, |Visible(raw)| - 1);
    if CR !in ChopCR(raw) {
      WholeIsVisible(raw);
    }
  }

  /** One record of a valid log: its lines behind line `k` continue what is before them exactly when
      it is seen to follow. */
  lemma RecordSeen(c: Codec, recs: seq<Record>, n: nat, k: nat)
    requires CollisionFree(c) && SplitsLikeJson(c) && n < |recs|
    requires Links(c, recs, n) && recs[n].parsed == Parsed(c, recs[n].raw)
    requires n > 0 ==> recs[n - 1].parsed.Some? && recs[n - 1].parsed == Parsed(c, recs[n - 1].raw)
    ensures var all, from := Shown(recs[..n + 1]), |Shown(recs[..n])|;
      (forall q :: from <= q < |all| && k < q ==> PairOk(c, all, q)) <==> (|all| >= k + 2 ==> SeenToFollow(c, recs, n))
  {
    hide Shown, Visible, StrBlank, Genesis, CollisionFree, TrimCR, ChopCR;
    var before, all := Shown(recs[..n]), Shown(recs[..n + 1]);
    var raw := recs[n].raw;
    var v := Visible(raw);
    ShownOne(recs, n);
    assert recs[n].parsed.Some?;
    ParsedShow(c, recs, n);
    assert SplitsAt(c, raw);
    if |all| >= k + 2 {
      var last := |all| - 1;
      assert all[last].text == v[|v| - 1];
      if |v| > 1 {
        assert !PairOk(c, all, last);
      } else {
        assert |before| == last > k;
        NoneShown(recs);
        ParsedShow(c, recs, n - 1);
        LastLine(recs, n);
        LastPieceWhole(recs[n - 1].raw);
        var u := Visible(recs[n - 1].raw);
        assert all[last - 1] == before[last - 1];
        DigestsAgree(c, u[|u| - 1], ChopCR(recs[n - 1].raw));
        PrevHashOf(c, recs, n);
        assert Load(c, all[last].text) == Load(c, raw);
        assert all[last].first == SegmentStart(recs, n);
        assert PairOk(c, all, last) <==> SeenToFollow(c, recs, n);
      }
    }
  }

  lemma NoneShown(recs: seq<Record>)
    ensures Shown(recs[..0]) == []
  {
  }

  lemma DigestsAgree(c: Codec, a: Line, b: Line)
    requires CollisionFree(c)
    ensures c.digest(a) == c.digest(b) <==> a == b
  {
  }

  lemma PrevHashOf(c: Codec, recs: seq<Record>, n: nat)
    requires 0 < n < |recs| && Links(c, recs, n) && recs[n].parsed == Parsed(c, recs[n].raw)
    ensures Load(c, recs[n].raw).Object?
    ensures var prevHash := Load(c, recs[n].raw).prevHash;
      && (prevHash == Some(Genesis(c)) <==> Carries(recs[n], Genesis(c)))
      && (!(SegmentStart(recs, n) && Carries(recs[n], Genesis(c))) ==>
            prevHash == Some(c.digest(ChopCR(recs[n - 1].raw))))
  {
    hide Load, Genesis;
  }

  lemma {:induction false} RecordsSeen(c: Codec, recs: seq<Record>, n: nat, k: nat)
    requires CollisionFree(c) && SplitsLikeJson(c) && n <= |recs| && ChainValid(c, recs)
    requires forall i :: 0 <= i < |recs| ==> recs[i].parsed == Parsed(c, recs[i].raw)
    ensures PairsFrom(c, Shown(recs[..n]), k) <==>
      forall i :: 0 <= i < n && |Shown(recs[..i + 1])| >= k + 2 ==> SeenToFollow(c, recs, i)
    decreases n
  {
    hide Shown, Visible, CollisionFree, SplitsLikeJson, Links, Parsed, SeenToFollow, PairOk, AllParsed;
    if n > 0 {
      var m := n - 1;
      RecordsSeen(c, recs, m, k);
      ChainIsParsed(c, recs);
      ParsedAt(recs, m);
      if m > 0 { ParsedAt(recs, m - 1); }
      assert Links(c, recs, m);
      RecordSeen(c, recs, m, k);
      var before, all := Shown(recs[..m]), Shown(recs[..n]);
      ShownOne(recs, m);
      forall q | k < q < |before| ensures PairOk(c, all, q) <==> PairOk(c, before, q) {
        SamePair(c, before, all, q);
      }
    } else {
      NothingShown();
    }
  }

  lemma ParsedAt(recs: seq<Record>, i: nat)
    requires AllParsed(recs) && i < |recs|
    ensures recs[i].parsed.Some?
  {
  }

  lemma SamePair(c: Codec, before: seq<TextRecord>, all: seq<TextRecord>, q: nat)
    requires before <= all && 0 < q < |before|
    ensures PairOk(c, all, q) <==> PairOk(c, before, q)
  {
    hide Load, Genesis;
  }

  // ---------------------------------------------------------------- the gate

  /** How many lines the gate checks: the last `n` of the log, or all. */
  function WindowSize(c: Codec, files: seq<LogFile>, n: int): nat {
    match Gather(c, files, n, [])
    case None => 0
    case Some(lines) => |Window(lines, n)|
  }

  lemma WindowIsTail(c: Codec, files: seq<LogFile>, n: int)
    requires Gather(c, files, n, []).Some?
    ensures var size := WindowSize(c, files, n);
      size <= |GateAll(files)| && Window(Gather(c, files, n, []).value, n) == GateAll(files)[|GateAll(files)| - size..]
    ensures n >= 1 ==> WindowSize(c, files, n) == if |GateAll(files)| < n then |GateAll(files)| else n
  {
    hide GateAll, Gather;
    var p := GatherIsSuffix(c, files, n, []);
    var w := Gather(c, files, n, []).value;
    assert GateAll(files) + [] == GateAll(files);
    var k := WindowIsSuffix(p, w, n);
  }

  lemma {:induction false} RecordsAreParsed(c: Codec, files: seq<LogFile>, index: nat)
    ensures forall i :: 0 <= i < |RecordsOf(c, files, index)| ==>
      RecordsOf(c, files, index)[i].parsed == Parsed(c, RecordsOf(c, files, index)[i].raw)
    decreases |files|
  {
    hide RecordsFrom, Parsed;
    if |files| > 0 {
      var first := FileRecords(c, files[0], index);
      var rest := RecordsOf(c, files[1..], index + |first|);
      RecordsAreParsed(c, files[1..], index + |first|);
      RecordsWellPlaced(c, files[0], 0, index);
      forall i | 0 <= i < |first| ensures first[i].parsed == Parsed(c, first[i].raw) {
        assert WellPlaced(c, files[0], first[i]);
      }
      var recs := RecordsOf(c, files, index);
      assert recs == first + rest;
    }
  }

  /** A valid log passes the gate exactly when every record with a line in the window behind its
      first line is seen as one line and follows a record without inner carriage return or opens a
      segment. */
  lemma ValidPassesIff(c: Codec, files: seq<LogFile>, n: int)
    requires CollisionFree(c) && SplitsLikeJson(c)
    requires Sorted(files) && VerifyFiles(c, files).status == Valid
    ensures WindowSize(c, files, n) <= |GateAll(files)|
    ensures Gate(c, files, n) == Passed <==>
      SeenFrom(c, RecordsOf(c, files, 0), |GateAll(files)| - WindowSize(c, files, n))
  {
    hide CollisionFree, SplitsLikeJson, RecordsOf, Shown, Visible, Links, Decodes, Gather, GateAll, Parsed, Load, PairOk;
    var recs := RecordsOf(c, files, 0);
    ChainIsParsed(c, recs);
    RecordsAreParsed(c, files, 0);
    ValidFilesDecode(c, files, 0);
    GatherDecodes(c, files, n, []);
    WindowIsTail(c, files, n);
    forall i | 0 <= i < |recs| ensures |Visible(recs[i].raw)| > 0 {
      ParsedShow(c, recs, i);
    }
    GateSeesRecords(c, files, 0);
    var k := |GateAll(files)| - WindowSize(c, files, n);
    WindowPairs(c, GateAll(files), k);
    assert recs[..|recs|] == recs;
    RecordsSeen(c, recs, |recs|, k);
  }

  /** A log without records passes. */
  lemma EmptyPasses(c: Codec, files: seq<LogFile>, n: int)
    requires SplitsLikeJson(c) && Sorted(files) && VerifyFiles(c, files).status == Empty
    ensures Gate(c, files, n) == Passed
  {
    hide SplitsLikeJson, RecordsOf, Shown, Visible, Decodes, Gather, GateAll, Load, PairOk, TailFrom;
    ValidFilesDecode(c, files, 0);
    GatherDecodes(c, files, n, []);
    WindowIsTail(c, files, n);
    GateSeesRecords(c, files, 0);
    NothingShown();
    WindowPairs(c, GateAll(files), 0);
  }

  /** Every record is a JSON object seen as one line, and follows a record without inner carriage
      return or opens a segment. */
  ghost predicate Regular(c: Codec, recs: seq<Record>) {
    forall i :: 0 <= i < |recs| ==>
      && recs[i].parsed.Some? && |Visible(recs[i].raw)| == 1
      && (i > 0 ==> SeenToFollow(c, recs, i))
  }

  lemma {:induction false} RegularLines(c: Codec, recs: seq<Record>, n: nat)
    requires Regular(c, recs) && n <= |recs|
    ensures |Shown(recs[..n])| == n
    ensures forall i :: 0 <= i < n ==>
      Shown(recs[..n])[i] == TextRecord(Visible(recs[i].raw)[0], SegmentStart(recs, i))
    decreases n
  {
    hide Shown, Visible, SeenToFollow;
    if n > 0 {
      RegularLines(c, recs, n - 1);
      ShownOne(recs, n - 1);
    } else {
      assert recs[..0] == [];
      NothingShown();
    }
  }

  /** When the window covers the log and the gate passes: the log is valid exactly when it opens at
      genesis and its records are regular. */
  lemma CoveringPassIff(c: Codec, files: seq<LogFile>, n: int)
    requires CollisionFree(c) && SplitsLikeJson(c) && Sorted(files) && RecordsOf(c, files, 0) != []
    requires Gate(c, files, n) == Passed && WindowSize(c, files, n) == |GateAll(files)|
    ensures var recs := RecordsOf(c, files, 0);
      VerifyFiles(c, files).status == Valid <==> Carries(recs[0], Genesis(c)) && Regular(c, recs)
  {
    hide CollisionFree, SplitsLikeJson, RecordsOf, Shown, Visible, Links, Gather, GateAll, Parsed, Load, PairOk, SeenToFollow, Carries;
    var recs := RecordsOf(c, files, 0);
    RecordsAreParsed(c, files, 0);
    if VerifyFiles(c, files).status == Valid {
      ValidPassesIff(c, files, n);
      ValidIsRegular(c, recs);
    }
    if Carries(recs[0], Genesis(c)) && Regular(c, recs) {
      assert AllShow(recs);
      GateSeesRecords(c, files, 0);
      WindowIsTail(c, files, n);
      assert GateAll(files)[0..] == GateAll(files);
      WindowPairs(c, GateAll(files), 0);
      RegularPassIsValid(c, recs);
    }
  }

  lemma ValidIsRegular(c: Codec, recs: seq<Record>)
    requires ChainValid(c, recs) && recs != [] && SeenFrom(c, recs, 0)
    requires forall i :: 0 <= i < |recs| ==> recs[i].parsed == Parsed(c, recs[i].raw)
    ensures Carries(recs[0], Genesis(c)) && Regular(c, recs)
  {
    hide Shown, Visible, Parsed, Genesis;
    ChainIsParsed(c, recs);
    assert Links(c, recs, 0);
    forall i | 0 <= i < |recs| ensures |Visible(recs[i].raw)| > 0 {
      ParsedShow(c, recs, i);
    }
    forall i | 0 <= i < |recs|
      ensures |Visible(recs[i].raw)| == 1 && (i > 0 ==> SeenToFollow(c, recs, i))
    {
      ShownAtLeast(recs, i + 1);
      ShownOne(recs, i);
      assert |Shown(recs[..i + 1])| >= 2 ==> SeenToFollow(c, recs, i);
    }
  }

  lemma {:induction false} ShownAtLeast(recs: seq<Record>, n: nat)
    requires n <= |recs| && forall i :: 0 <= i < |recs| ==> |Visible(recs[i].raw)| > 0
    ensures |Shown(recs[..n])| >= n
    decreases n
  {
    hide Shown, Visible;
    if n > 0 {
      ShownAtLeast(recs, n - 1);
      ShownOne(recs, n - 1);
    }
  }

  lemma {:induction false} RegularPassIsValid(c: Codec, recs: seq<Record>)
    requires SplitsLikeJson(c) && recs != [] && Carries(recs[0], Genesis(c)) && Regular(c, recs)
    requires PairsFrom(c, Shown(recs), 0)
    requires forall i :: 0 <= i < |recs| ==> recs[i].parsed == Parsed(c, recs[i].raw)
    ensures ChainValid(c, recs)
  {
    hide Shown, Visible, Genesis, SplitsLikeJson, Load, ChopCR;
    var w := Shown(recs);
    assert recs[..|recs|] == recs;
    RegularLines(c, recs, |recs|);
    forall i | 0 <= i < |recs| ensures Links(c, recs, i) {
      if i > 0 {
        assert PairOk(c, w, i);
        RegularLoads(c, recs, i);
        RegularLoads(c, recs, i - 1);
        assert SeenToFollow(c, recs, i);
      }
    }
  }

  lemma RegularLoads(c: Codec, recs: seq<Record>, i: nat)
    requires SplitsLikeJson(c) && i < |recs| && |Visible(recs[i].raw)| == 1
    requires recs[i].parsed.Some? && recs[i].parsed == Parsed(c, recs[i].raw)
    ensures Load(c, recs[i].raw).Object? && Load(c, Visible(recs[i].raw)[0]) == Load(c, recs[i].raw)
    ensures recs[i].parsed == Some(Members(Load(c, recs[i].raw).prevHash, Load(c, recs[i].raw).sourceId))
    ensures CR !in ChopCR(recs[i].raw) ==> Visible(recs[i].raw)[0] == ChopCR(recs[i].raw)
  {
    hide Visible, StrBlank, TrimCR, ChopCR;
    assert SplitsAt(c, recs[i].raw);
    if CR !in ChopCR(recs[i].raw) {
      WholeIsVisible(recs[i].raw);
    }
  }
}
