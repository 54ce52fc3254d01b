/** Concrete logs on which the readers of a log disagree, or which a repair cuts in an unexpected
    place, for a codec that meets every assumption made of hash and JSON. */
module Divergences {
  import opened Bytes
  import opened Codec
  import opened AuditRecords
  import opened AuditClassify
  import opened AuditRepair
  import opened TextView
  import opened TextPieces
  import opened StartupGate
  import opened GateWindow
  import opened OtherVerifiers
  import opened ScriptPieces
  import opened WriterModel
  import opened WriterRecovery
  import opened RecoveryAnchor
  import opened WriterRuns
  import opened CodecExists

  // ---------------------------------------------------------------- reading concrete files

  lemma OneLineFile(c: Codec, f: LogFile, start: nat, line: Line, rest: seq<byte>, index: nat)
    requires start <= |f.data| && f.data[start..] == line + [LF] + rest
    requires LF !in line && !Blank(line)
    ensures start + |line| + 1 <= |f.data|
    ensures f.data[start + |line| + 1..] == rest
    ensures RecordsFrom(c, f, start, index) ==
      [Record(index, f.date, start, start + |line| + 1, line, Parsed(c, line))]
      + RecordsFrom(c, f, start + |line| + 1, index + 1)
  {
    hide Blank, Parsed, NextLF, RecordsFrom, RecordAt, LineEnd;
    LineThere(f.data, start, line, rest);
    LineRecord(c, f, start, index);
    RecordsHere(c, f, start, index);
  }

  lemma LineRecord(c: Codec, f: LogFile, start: nat, index: nat)
    requires start < |f.data| && NextLF(f.data, start) < |f.data|
    ensures var nl := NextLF(f.data, start);
      var raw := f.data[start..nl];
      && LineEnd(f.data, start) == nl + 1
      && (!Blank(raw) ==>
            RecordAt(c, f, start, index) == [Record(index, f.date, start, nl + 1, raw, Parsed(c, raw))])
  {
    hide Blank, Parsed, NextLF;
  }

  lemma RecordsHere(c: Codec, f: LogFile, start: nat, index: nat)
    requires start < |f.data|
    ensures var here := RecordAt(c, f, start, index);
      RecordsFrom(c, f, start, index) == here + RecordsFrom(c, f, LineEnd(f.data, start), index + |here|)
  {
    hide RecordAt, LineEnd;
  }

  lemma LineThere(d: seq<byte>, start: nat, line: Line, rest: seq<byte>)
    requires start <= |d| && d[start..] == line + [LF] + rest && LF !in line
    ensures start + |line| < |d| && d[start + |line| + 1..] == rest
    ensures NextLF(d, start) == start + |line| && d[start..start + |line|] == line
  {
    hide NextLF;
    assert forall i :: 0 <= i < |line| ==> d[start + i] == d[start..][i] == line[i];
    assert d[start + |line|] == d[start..][|line|] == LF;
    assert d[start + |line| + 1..] == d[start..][|line| + 1..];
  }

  lemma NoMoreRecords(c: Codec, f: LogFile, start: nat, index: nat)
    requires start >= |f.data|
    ensures RecordsFrom(c, f, start, index) == []
  {
  }

  function LinesFile(lines: seq<Line>): seq<byte> {
    if |lines| == 0 then [] else lines[0] + [LF] + LinesFile(lines[1..])
  }

  /** A file made of these lines has one record per line. */
  lemma {:induction false} FileOfLines(c: Codec, f: LogFile, start: nat, lines: seq<Line>, index: nat)
    requires start <= |f.data| && f.data[start..] == LinesFile(lines)
    requires forall i :: 0 <= i < |lines| ==> LF !in lines[i] && !Blank(lines[i])
    ensures var recs := RecordsFrom(c, f, start, index);
      |recs| == |lines| && forall i :: 0 <= i < |recs| ==>
        recs[i].raw == lines[i] && recs[i].file == f.date && recs[i].parsed == Parsed(c, lines[i])
    decreases |lines|
  {
    hide Blank, Parsed, RecordsFrom;
    if |lines| == 0 {
      assert |f.data[start..]| == 0;
      NoMoreRecords(c, f, start, index);
    } else {
      OneLineFile(c, f, start, lines[0], LinesFile(lines[1..]), index);
      FileOfLines(c, f, start + |lines[0]| + 1, lines[1..], index + 1);
    }
  }

  lemma RecordsOfLines(c: Codec, f: LogFile, lines: seq<Line>)
    requires f.data == LinesFile(lines)
    requires forall i :: 0 <= i < |lines| ==> LF !in lines[i] && !Blank(lines[i])
    ensures var recs := RecordsOf(c, [f], 0);
      |recs| == |lines| && forall i :: 0 <= i < |recs| ==>
        recs[i].raw == lines[i] && recs[i].file == f.date && recs[i].parsed == Parsed(c, lines[i])
  {
    hide Blank, Parsed, RecordsFrom;
    assert f.data[0..] == f.data;
    FileOfLines(c, f, 0, lines, 0);
    OneFile(c, f, 0);
  }

  lemma {:induction false} LinesFileEnds(lines: seq<Line>)
    ensures Terminated(LinesFile(lines))
    decreases |lines|
  {
    if |lines| > 0 {
      LinesFileEnds(lines[1..]);
    }
  }

  // ---------------------------------------------------------------- sample lines

  /** The first event of a log, written as it stands and with a carriage return after its first
      byte. */
  ghost function Opening(): Event {
    Event("", Genesis(SampleCodec()), "")
  }

  ghost function Broken(e: Event): Line {
    [START, CR] + Dump(e)[1..]
  }

  const GARBAGE: Line := [52]

  lemma WholeLine(e: Event)
    ensures LF !in Dump(e) && !Blank(Dump(e)) && ChopCR(Dump(e)) == Dump(e)
    ensures Parsed(SampleCodec(), Dump(e)) == Some(Members(Some(e.prevHash), Some(e.sourceId)))
  {
    hide StrBlank, Parse;
    DumpBytes(e);
    ParseDump(e);
    LoadIsParse(Dump(e));
    assert Dump(e)[0] == START;
  }

  lemma BrokenLine(e: Event)
    ensures LF !in Broken(e) && !Blank(Broken(e)) && ChopCR(Broken(e)) == Broken(e) && CR in Broken(e)
    ensures Parsed(SampleCodec(), Broken(e)) == Some(Members(Some(e.prevHash), Some(e.sourceId)))
    ensures |Visible(Broken(e))| == 2
  {
    hide StrBlank, Parse, Visible, DropCR;
    var raw, rest := Broken(e), Dump(e)[1..];
    BrokenBytes(e);
    BrokenDrops(rest);
    assert [START] + rest == Dump(e) by { DumpBytes(e); }
    Inked(raw);
    ParseBroken(raw, e);
    LoadIsParse(raw);
    TwoPieces(raw, rest);
  }

  lemma BrokenBytes(e: Event)
    ensures var raw, rest := Broken(e), Dump(e)[1..];
      && raw == [START] + ([CR] + rest) && |rest| > 1 && ZERO <= rest[0] <= START && CR !in rest
      && LF !in raw && !Blank(raw) && ChopCR(raw) == raw && CR in raw
  {
    var raw := Broken(e);
    DumpBytes(e);
    assert raw[0] == START && raw[1] == CR;
    assert forall i :: 2 <= i < |raw| ==> raw[i] == Dump(e)[i - 1];
  }

  lemma BrokenDrops(rest: Line)
    requires CR !in rest
    ensures DropCR([START] + ([CR] + rest)) == [START] + rest
  {
    hide DropCR;
    DropConcat([START], [CR] + rest);
    DropConcat([CR], rest);
    DropOne(START);
    DropOne(CR);
    DropNothing(rest);
    assert [] + rest == rest;
  }

  lemma DropOne(b: byte)
    ensures DropCR([b]) == if b == CR then [] else [b]
  {
    assert [b][1..] == [];
  }

  lemma TwoPieces(raw: Line, rest: Line)
    requires raw == [START] + ([CR] + rest) && CR !in rest && |rest| > 0 && ZERO <= rest[0] <= START
    requires ChopCR(raw) == raw
    ensures |Visible(raw)| == 2
  {
    hide StrBlank;
    assert NextCR(raw) == 1;
    assert raw[..1] == [START] && raw[2..] == rest;
    WholePiece(rest);
    Inked(rest);
    Inked([START]);
    FilterCons(SkipStrBlank, [START], [rest]);
    FilterCons(SkipStrBlank, rest, []);
    assert [rest] + [] == [rest];
    assert Pieces(raw) == [[START]] + [rest];
    assert Filter(SkipStrBlank, []) == [];
  }

  lemma GarbageLine()
    ensures LF !in GARBAGE && !Blank(GARBAGE) && ChopCR(GARBAGE) == GARBAGE
    ensures Parsed(SampleCodec(), GARBAGE) == None
  {
    hide StrBlank;
    LoadIsParse(GARBAGE);
    assert CR !in GARBAGE;
    DropNothing(GARBAGE);
    forall e: Event ensures !IsDump(GARBAGE, e) {
      DumpBytes(e);
    }
  }

  // ---------------------------------------------------------------- a carriage return inside a record

  ghost function BrokenLog(today: int): seq<LogFile> {
    [LogFile(today, LinesFile([Broken(Opening())]))]
  }

  lemma BrokenLogIsValid(today: int)
    ensures Tidy(BrokenLog(today)) && UpTo(BrokenLog(today), today)
    ensures VerifyFiles(SampleCodec(), BrokenLog(today)).status == Valid
    ensures var recs := RecordsOf(SampleCodec(), BrokenLog(today), 0);
      |recs| == 1 && recs[0].raw == Broken(Opening()) && recs[0].file == today
  {
    hide Parsed, Broken, LinesFile, RecordsOf, ChainHash, Blank, Genesis, CountGenesis;
    var e, c := Opening(), SampleCodec();
    BrokenLine(e);
    RecordsOfLines(c, LogFile(today, LinesFile([Broken(e)])), [Broken(e)]);
    LinesFileEnds([Broken(e)]);
    assert Links(c, RecordsOf(c, BrokenLog(today), 0), 0);
  }

  /** Every window of two lines holds both pieces of that record. */
  lemma BrokenWindow(c: Codec, today: int, n: int)
    requires c == SampleCodec() && SplitsLikeJson(c) && n >= 2
    ensures var recs := RecordsOf(c, BrokenLog(today), 0);
      |recs| == 1 && |Shown(recs[..1])| == 2 && recs[0].raw == Broken(Opening())
    ensures WindowSize(c, BrokenLog(today), n) == |GateAll(BrokenLog(today))| == 2
  {
    hide Broken, LinesFile, RecordsOf, GateAll, Gather, Visible, Shown, Decodes, Parsed, SampleCodec, Blank, BrokenLog, SplitsLikeJson, WindowSize;
    var files := BrokenLog(today);
    BrokenLogIsValid(today);
    BrokenLine(Opening());
    var recs := RecordsOf(c, files, 0);
    ShownOne(recs, 0);
    NoneShown(recs);
    assert recs[..1] == recs;
    assert AllShow(recs);
    GateSeesRecords(c, files, 0);
    ChainIsParsed(c, recs);
    ValidFilesDecode(c, files, 0);
    GatherDecodes(c, files, n, []);
    WindowIsTail(c, files, n);
  }

  /** JSON allows a carriage return between tokens; text mode breaks such a record in two.  The
      verifier accepts the log, the gate rejects it in every window of two lines or more. */
  lemma LoneCarriageReturn(today: int, n: int) returns (c: Codec, files: seq<LogFile>)
    requires n >= 2
    ensures Faithful(c) && CollisionFree(c) && SplitsLikeJson(c)
    ensures Sorted(files) && VerifyFiles(c, files).status == Valid
    ensures Gate(c, files, n) != Passed
  {
    hide Broken, LinesFile, RecordsOf, Visible, Parsed, SampleCodec, Blank, BrokenLog, Gate, SplitsLikeJson, Faithful, CollisionFree, WindowSize, GateAll, Shown, Classify, Links;
    c := AssumptionsAreConsistent();
    files := BrokenLog(today);
    BrokenLogIsValid(today);
    BrokenWindow(c, today, n);
    ValidPassesIff(c, files, n);
    var recs := RecordsOf(c, files, 0);
    assert !SeenToFollow(c, recs, 0) by {
      BrokenLine(Opening());
    }
  }

  /** The same record misleads recovery: the writer starts, but anchors at genesis behind it, so no
      durable event that it then writes on that day leaves a valid log. */
  lemma LoneCarriageReturnMisleadsRecovery(today: int) returns (c: Codec, files: seq<LogFile>)
    ensures Faithful(c) && CollisionFree(c) && SplitsLikeJson(c)
    ensures Tidy(files) && UpTo(files, today) && VerifyFiles(c, files).status == Valid
    ensures Start(c, files, today).Some? && !Recoverable(c, files, today)
    ensures forall ev: Inbound {:trigger Handle(c, Start(c, files, today).value, today, ev)} ::
      ev.wellFormed && ev.durable && ev.sourceId !in Start(c, files, today).value.seen ==>
        VerifyFiles(c, Handle(c, Start(c, files, today).value, today, ev).0.files).status != Valid
  {
    hide Broken, LinesFile, RecordsOf, Visible, Parsed, SampleCodec, Start, Handle, Classify, DayText, Load, Recoverable, Faithful, CollisionFree, SplitsLikeJson, Tidy, Links, Blank;
    c := AssumptionsAreConsistent();
    files := BrokenLog(today);
    MisledStart(today);
    forall ev: Inbound | ev.wellFormed && ev.durable && ev.sourceId !in Start(c, files, today).value.seen
      ensures VerifyFiles(c, Handle(c, Start(c, files, today).value, today, ev).0.files).status != Valid
    {
      FirstEventAfterStart(c, files, today, ev);
    }
  }

  lemma MisledStart(today: int)
    ensures var c, files := SampleCodec(), BrokenLog(today);
      && Tidy(files) && UpTo(files, today) && VerifyFiles(c, files).status == Valid
      && ChainValid(c, RecordsOf(c, files, 0))
      && Start(c, files, today).Some? && !Recoverable(c, files, today)
  {
    hide Broken, LinesFile, RecordsOf, Visible, SampleCodec, Start, DayText, Load, Recoverable, Faithful, CollisionFree, SplitsLikeJson, Tidy, Links, Blank, BrokenLog;
    var c := AssumptionsAreConsistent();
    var files := BrokenLog(today);
    BrokenLogIsValid(today);
    BrokenLine(Opening());
    GenesisUnparsed();
    AlwaysReadable(DayText(files, today));
    AlwaysReadable(DayText(files, today - 1));
    StartMeaning(c, files, today);
    RecoverableIff(c, files, today);
  }

  lemma GenesisUnparsed()
    ensures Parsed(SampleCodec(), GENESIS_STRING) == None
  {
    hide StrBlank, Parse;
    LoadIsParse(GENESIS_STRING);
    var c := AssumptionsAreConsistent();
  }

  lemma AlwaysReadable(lines: seq<Line>)
    ensures Readable(SampleCodec(), lines)
  {
    hide Load;
    forall i | 0 <= i < |lines| ensures Load(SampleCodec(), lines[i]) != Undecodable && Load(SampleCodec(), lines[i]) != NonObject {
      LoadIsParse(lines[i]);
    }
  }

  /** A repair can leave such a log behind: it restores exactly these files from a torn write. */
  lemma RepairedLogMisleadsRecovery(today: int) returns (c: Codec, files: seq<LogFile>)
    ensures Faithful(c) && CollisionFree(c) && SplitsLikeJson(c)
    ensures TornFrom(c, files, GARBAGE) && !FragmentLinks(c, files, GARBAGE)
    ensures Start(c, files, today).Some? && !Recoverable(c, files, today)
  {
    hide Broken, LinesFile, RecordsOf, SampleCodec, Start, Classify, Recoverable, Faithful, CollisionFree, SplitsLikeJson, Blank, ChainHash, Genesis;
    c := AssumptionsAreConsistent();
    files := BrokenLog(today);
    MisledStart(today);
    GarbageLine();
    TornRecords(c, files, GARBAGE);
  }

  // ---------------------------------------------------------------- a line hidden from text readers

  /** A line holding only a control character that `str.strip()` removes and `bytes.strip()` keeps:
      the gate does not see the line, the verifier reports a broken tail. */
  lemma HiddenBlankLine(n: int) returns (c: Codec, files: seq<LogFile>)
    ensures Faithful(c) && CollisionFree(c) && SplitsLikeJson(c)
    ensures Sorted(files) && VerifyFiles(c, files).status == BrokenTail
    ensures |RecordsOf(c, files, 0)| == 2 && Carries(RecordsOf(c, files, 0)[0], Genesis(c))
    ensures Gate(c, files, n) == Passed
  {
    hide LinesFile, RecordsOf, Parsed, SampleCodec, Blank, Dump, Gate, Genesis, ChainHash, SuffixBytes, ChopCR, Visible, Faithful, CollisionFree, SplitsLikeJson;
    c := AssumptionsAreConsistent();
    var e := Opening();
    var lines := [Dump(e), [28]];
    var f := LogFile(0, LinesFile(lines));
    files := [f];
    WholeLine(e);
    HiddenLine();
    RecordsOfLines(c, f, lines);
    var recs := RecordsOf(c, files, 0);
    assert Links(c, recs, 0) && !Links(c, recs, 1);
    assert FirstBreak(c, recs) == 1;
    OneVisibleLine(f, lines, n);
  }

  lemma HiddenLine()
    ensures LF !in [28] && !Blank([28]) && Parsed(SampleCodec(), [28]) == None && Visible([28]) == []
  {
    assert LeadingSpace([28]) == 1;
    assert [28][1..] == [];
    assert StrBlank([28]);
    assert !IsAsciiSpace([28][0]);
    assert CR !in [28];
    WholePiece([28]);
    FilterCons(SkipStrBlank, [28], []);
    assert [[28]] == [[28]] + [];
  }

  lemma OneVisibleLine(f: LogFile, lines: seq<Line>, n: int)
    requires f.data == LinesFile(lines) && lines == [Dump(Opening()), [28]]
    requires forall i :: 0 <= i < |lines| ==> LF !in lines[i] && !Blank(lines[i])
    ensures Gate(SampleCodec(), [f], n) == Passed
  {
    hide LinesFile, RecordsOf, Parsed, SampleCodec, Blank, Dump, TextLines, Visible, Gather, Load, RecordsFrom;
    var c := AssumptionsAreConsistent();
    RecordsOfLines(c, f, lines);
    OneFile(c, f, 0);
    HiddenLine();
    WholeLine(Opening());
    DumpIsVisible(Opening());
    TextShowsRecords(c, f, 0);
    assert Raws(FileRecords(c, f, 0)) == lines;
    TwoVisible(lines[0], lines[1]);
    AlwaysReadable(TextLines(f.data));
    assert Decodes(c, f.data);
    forall i | 0 <= i < |[f]| ensures Decodes(c, [f][i].data) {
    }
    GatherDecodes(c, [f], n, []);
    WindowIsTail(c, [f], n);
    assert GateAll([f]) == GateLines(f) by {
      assert [f][1..] == [];
      assert GateAll([]) == [];
    }
  }

  lemma TwoVisible(a: Line, b: Line)
    ensures AllVisible([a, b]) == Visible(a) + Visible(b)
  {
    hide Visible;
    assert [a, b][1..] == [b];
    OneVisible(b);
  }

  lemma DumpIsVisible(e: Event)
    ensures |Visible(Dump(e))| == 1
  {
    hide StrBlank, Dump;
    DumpBytes(e);
    WholeIsVisible(Dump(e));
  }

  // ---------------------------------------------------------------- two events in one physical line

  /** Two serialised events with nothing but a carriage return between them. */
  ghost function Joint(a: Event, b: Event): Line {
    Dump(a) + ([CR] + Dump(b))
  }

  lemma JointBytes(a: Event, b: Event)
    ensures var raw := Joint(a, b);
      && LF !in raw && |raw| == |Dump(a)| + 1 + |Dump(b)| && ChopCR(raw) == raw && !Blank(raw)
      && NextCR(raw) == |Dump(a)| && raw[..|Dump(a)|] == Dump(a) && raw[|Dump(a)| + 1..] == Dump(b)
  {
    hide Dump, NextCR;
    var raw, n := Joint(a, b), |Dump(a)|;
    DumpBytes(a);
    DumpBytes(b);
    assert forall i :: 0 <= i < n ==> raw[i] == Dump(a)[i];
    assert forall i :: n < i < |raw| ==> raw[i] == Dump(b)[i - n - 1];
    assert raw[n] == CR;
    FirstCR(raw, n);
  }

  lemma {:induction false} FirstCR(raw: Line, n: nat)
    requires n < |raw| && raw[n] == CR && forall i :: 0 <= i < n ==> raw[i] != CR
    ensures NextCR(raw) == n
    decreases n
  {
    if n > 0 {
      assert forall i :: 0 <= i < n ==> raw[1..][i] == raw[i + 1];
      FirstCR(raw[1..], n - 1);
    }
  }

  /** As one line it is no JSON text. */
  lemma JointUnparsed(a: Event, b: Event)
    ensures Parsed(SampleCodec(), Joint(a, b)) == None
  {
    hide Dump, DropCR, StrBlank;
    var all := Dump(a) + Dump(b);
    DumpBytes(a);
    DumpBytes(b);
    DropAround(Dump(a), Dump(b));
    DropNothing(Dump(b));
    LoadIsParse(Joint(a, b));
    assert all[|Dump(a)|] == START;
    forall e: Event ensures !IsDump(all, e) {
      DumpBytes(e);
    }
  }

  lemma JointPieces(a: Event, b: Event)
    ensures Kept(Joint(a, b)) == [Dump(a), Dump(b)]
  {
    hide Dump, NextCR, Joint;
    JointBytes(a, b);
    DumpBytes(a);
    DumpBytes(b);
    WholePiece(Dump(b));
    var raw := Joint(a, b);
    assert CrSplit(raw) == [raw[..NextCR(raw)]] + CrSplit(raw[NextCR(raw) + 1..]);
    assert Pieces(raw) == [Dump(a)] + [Dump(b)];
    FilterCons(SkipEmpty, Dump(a), [Dump(b)]);
    FilterCons(SkipEmpty, Dump(b), []);
    assert [Dump(b)] + [] == [Dump(b)];
    assert [Dump(a)] + [Dump(b)] == [Dump(a), Dump(b)];
    NoneKept();
  }

  lemma OneFileOfLine(f: LogFile, raw: Line)
    requires f.data == LinesFile([raw]) && LF !in raw
    ensures AllKept(AllLines([f])) == Kept(raw)
  {
    hide Kept, Lines;
    assert [raw][1..] == [];
    assert raw + [LF] + [] == raw + ([LF] + []);
    LinesOfFirst(raw, []);
    NoLines();
    assert [raw] + [] == [raw] && [f][1..] == [];
    assert Kept(raw) + [] == Kept(raw);
  }

  /** The script sees two chained events, the verifier one line that is no JSON text: the script
      vouches for a log that the verifier reports as corrupt in its interior. */
  lemma ScriptVouchesForCorruptLog() returns (c: Codec, files: seq<LogFile>)
    ensures Faithful(c) && CollisionFree(c) && SplitsLikeJson(c) && Parsed(c, GENESIS_STRING) == None
    ensures Sorted(files) && ScriptVerdict(c, files) == Intact
    ensures VerifyFiles(c, files).status == Interior
  {
    hide LinesFile, RecordsOf, Parsed, SampleCodec, Blank, Dump, Genesis, Joint, ScanFiles, Kept, AllKept, AllLines, Load, ChopCR, Faithful, CollisionFree, SplitsLikeJson, Readable;
    c := AssumptionsAreConsistent();
    GenesisUnparsed();
    var a := Opening();
    var b := Event("", c.digest(Dump(a)), "");
    var f := LogFile(0, LinesFile([Joint(a, b)]));
    files := [f];
    JointBytes(a, b);
    JointUnparsed(a, b);
    RecordsOfLines(c, f, [Joint(a, b)]);
    assert !Links(c, RecordsOf(c, files, 0), 0);
    JointChained(c, a, b);
    JointPieces(a, b);
    OneFileOfLine(f, Joint(a, b));
    AlwaysReadable(TextLines(f.data));
    ReadableDecodes(f.data);
    ScriptIntactIff(c, files);
  }

  lemma JointChained(c: Codec, a: Event, b: Event)
    requires c == SampleCodec() && a == Opening() && b == Event("", c.digest(Dump(a)), "")
    ensures Chained(c, [Dump(a), Dump(b)])
  {
    hide Dump, Load, Genesis;
    var d := AssumptionsAreConsistent();
    LoadDump(c, a);
    LoadDump(c, b);
  }

  lemma ReadableDecodes(data: seq<byte>)
    requires Readable(SampleCodec(), TextLines(data))
    ensures Decodes(SampleCodec(), data)
  {
    hide Load, TextLines;
  }

  // ---------------------------------------------------------------- a linking record in quarantine

  /** A log with a broken tail in which a record behind the break carries the hash of the line before
      it, because that line is no JSON object: it links, yet it does not count as a continuation. */
  lemma LinkedBehindTheBreak() returns (c: Codec, files: seq<LogFile>)
    ensures Faithful(c) && CollisionFree(c) && SplitsLikeJson(c) && Sorted(files)
    ensures VerifyFiles(c, files).status == BrokenTail && VerifyFiles(c, files).firstInvalid == Some(1)
    ensures |RecordsOf(c, files, 0)| == 3 && Links(c, RecordsOf(c, files, 0), 2)
  {
    hide LinesFile, RecordsOf, Parsed, Blank, Dump, Genesis, SuffixBytes, SampleCodec, ChopCR;
    c := AssumptionsAreConsistent();
    var e, d := Opening(), Event("", c.digest(GARBAGE), "");
    var lines := [Dump(e), GARBAGE, Dump(d)];
    var f := LogFile(0, LinesFile(lines));
    files := [f];
    WholeLine(e);
    WholeLine(d);
    GarbageLine();
    RecordsOfLines(c, f, lines);
    var recs := RecordsOf(c, files, 0);
    assert Links(c, recs, 0) && !Links(c, recs, 1);
    assert FirstBreak(c, recs) == 1;
    assert Links(c, recs, 2);
    assert !CoherentAt(c, recs, 2);
  }
}
