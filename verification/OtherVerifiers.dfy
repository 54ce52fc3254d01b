/** Two older verifiers compared with the segment-aware one: the standalone script
    (audit-log-writer/scripts/drnt_audit_verify.py, `verify_files`) and the writer's own check
    (audit-log-writer/src/hash_chain.py, `verify_chain`). */
module OtherVerifiers {
  import opened Bytes
  import opened Codec
  import opened AuditRecords
  import opened AuditClassify
  import opened AuditRepair
  import opened TextView
  import opened StartupGate

  datatype Verdict = Intact | Broken | Crashed

  // ---------------------------------------------------------------- verify_files

  /** Where the scan stands: the hash expected next (None after a malformed line), and whether
      everything so far was in order. */
  datatype ScanState = ScanState(prev: Option<Hash>, allValid: bool)

  /** One non-empty line; None stands for the exception on a JSON value that is no object. */
  function ScanLine(c: Codec, s: ScanState, line: Line): Option<ScanState> {
    match Load(c, line)
    case Object(prevHash, _) =>
      Some(ScanState(Some(c.digest(line)), s.allValid && (s.prev.None? || prevHash == s.prev)))
    case NonObject => None
    case _ => Some(ScanState(None, false))
  }

  function ScanFrom(c: Codec, s: ScanState, lines: seq<Line>, i: nat): Option<ScanState>
    requires i <= |lines|
    decreases |lines| - i
  {
    if i == |lines| then Some(s)
    else
      match ScanLine(c, s, lines[i])
      case None => None
      case Some(s') => ScanFrom(c, s', lines, i + 1)
  }

  /** File after file; None when one does not decode or holds a JSON value that is no object. */
  function ScanFiles(c: Codec, s: ScanState, files: seq<LogFile>): Option<ScanState>
    decreases |files|
  {
    if |files| == 0 then Some(s)
    else if !Decodes(c, files[0].data) then None
    else
      match ScanFrom(c, s, Filter(SkipEmpty, TextLines(files[0].data)), 0)
      case None => None
      case Some(s') => ScanFiles(c, s', files[1..])
  }

  function ScriptVerdict(c: Codec, files: seq<LogFile>): Verdict {
    match ScanFiles(c, ScanState(Some(Genesis(c)), true), files)
    case None => Crashed
    case Some(s) => if s.allValid then Intact else Broken
  }

  method VerifyScript(c: Codec, files: seq<LogFile>) returns (verdict: Verdict)
    ensures verdict == ScriptVerdict(c, files)
  {
    var start := ScanState(Some(Genesis(c)), true);
    var s := start;
    for i := 0 to |files|
      invariant ScanFiles(c, start, files) == ScanFiles(c, s, files[i..])
    {
      assert files[i..][0] == files[i] && files[i..][1..] == files[i + 1..];
      var text := ReadText(c, files[i].data);
      if text.None? {
        return Crashed;
      }
      var lines := Filter(SkipEmpty, text.value);
      ghost var atFile := s;
      for k := 0 to |lines|
        invariant ScanFrom(c, atFile, lines, 0) == ScanFrom(c, s, lines, k)
      {
        var event := Load(c, lines[k]);
        if event == Malformed || event == Undecodable {
          s := ScanState(None, false);
        } else if event == NonObject {
          return Crashed;
        } else {
          var allValid := s.allValid;
          if s.prev.Some? && event.prevHash != s.prev {
            allValid := false;
          }
          s := ScanState(Some(c.digest(lines[k])), allValid);
        }
      }
    }
    return if s.allValid then Intact else Broken;
  }

  /** Only empty lines are blank: no line holds nothing but white space. */
  ghost predicate NoPaddedBlank(data: seq<byte>) {
    forall i :: 0 <= i < |Lines(data)| ==> Blank(Lines(data)[i]) ==> |ChopCR(Lines(data)[i])| == 0
  }

  /** Every record continues the one before it, across files too: one segment in all. */
  ghost predicate SingleSegment(c: Codec, recs: seq<Record>) {
    forall i :: 0 <= i < |recs| ==> Carries(recs[i], Anchor(c, recs, i))
  }

  /** The text lines that the script looks at, over all files. */
  function ScriptLines(files: seq<LogFile>): seq<Line>
    decreases |files|
  {
    if |files| == 0 then [] else Filter(SkipEmpty, TextLines(files[0].data)) + ScriptLines(files[1..])
  }

  /** Scanning a concatenation. */
  lemma {:induction false} ScanConcat(c: Codec, s: ScanState, a: seq<Line>, b: seq<Line>, i: nat)
    requires i <= |a|
    ensures ScanFrom(c, s, a + b, i) ==
      match ScanFrom(c, s, a, i) case None => None case Some(s') => ScanFrom(c, s', b, 0)
    decreases |a| - i
  {
    hide ScanLine;
    if i < |a| {
      match ScanLine(c, s, a[i])
      case None =>
      case Some(s') => ScanConcat(c, s', a, b, i + 1);
    } else {
      ScanShift(c, s, a, b, 0);
    }
  }

  lemma {:induction false} ScanShift(c: Codec, s: ScanState, a: seq<Line>, b: seq<Line>, i: nat)
    requires i <= |b|
    ensures ScanFrom(c, s, a + b, |a| + i) == ScanFrom(c, s, b, i)
    decreases |b| - i
  {
    hide ScanLine;
    if i < |b| {
      match ScanLine(c, s, b[i])
      case None =>
      case Some(s') => ScanShift(c, s', a, b, i + 1);
    }
  }

  lemma {:induction false} ScanFilesIsFlat(c: Codec, s: ScanState, files: seq<LogFile>)
    requires forall i :: 0 <= i < |files| ==> Decodes(c, files[i].data)
    ensures ScanFiles(c, s, files) == ScanFrom(c, s, ScriptLines(files), 0)
    decreases |files|
  {
    hide Decodes, TextLines, Filter, ScanLine;
    if |files| > 0 {
      var own := Filter(SkipEmpty, TextLines(files[0].data));
      ScanConcat(c, s, own, ScriptLines(files[1..]), 0);
      match ScanFrom(c, s, own, 0)
      case None =>
      case Some(s') => ScanFilesIsFlat(c, s', files[1..]);
    }
  }

  lemma {:induction false} ScanFilesDecodes(c: Codec, s: ScanState, files: seq<LogFile>)
    requires ScanFiles(c, s, files).Some?
    ensures forall i :: 0 <= i < |files| ==> Decodes(c, files[i].data)
    decreases |files|
  {
    hide Decodes, TextLines, Filter, ScanFrom;
    if |files| > 0 {
      var s' := ScanFrom(c, s, Filter(SkipEmpty, TextLines(files[0].data)), 0).value;
      ScanFilesDecodes(c, s', files[1..]);
      assert forall i :: 0 < i < |files| ==> files[i] == files[1..][i - 1];
    }
  }

  /** The hash that line `i` must carry when all lines form one chain. */
  function LineAnchor(c: Codec, lines: seq<Line>, i: nat): Hash
    requires i <= |lines|
  {
    if i == 0 then Genesis(c) else c.digest(lines[i - 1])
  }

  ghost predicate LineLinks(c: Codec, lines: seq<Line>, i: nat)
    requires i < |lines|
  {
    Load(c, lines[i]).Object? && Load(c, lines[i]).prevHash == Some(LineAnchor(c, lines, i))
  }

  /** Once something was out of order it stays so. */
  lemma {:induction false} ScanStaysBroken(c: Codec, s: ScanState, lines: seq<Line>, i: nat)
    requires i <= |lines| && !s.allValid && ScanFrom(c, s, lines, i).Some?
    ensures !ScanFrom(c, s, lines, i).value.allValid
    decreases |lines| - i
  {
    if i < |lines| {
      ScanStaysBroken(c, ScanLine(c, s, lines[i]).value, lines, i + 1);
    }
  }

  /** The scan accepts exactly one unbroken chain of lines. */
  lemma {:induction false} ScanAccepts(c: Codec, lines: seq<Line>, i: nat)
    requires i <= |lines|
    ensures var end := ScanFrom(c, ScanState(Some(LineAnchor(c, lines, i)), true), lines, i);
      (end.Some? && end.value.allValid) <==> forall k :: i <= k < |lines| ==> LineLinks(c, lines, k)
    decreases |lines| - i
  {
    hide Load, Genesis;
    if i < |lines| {
      var s := ScanState(Some(LineAnchor(c, lines, i)), true);
      ScanAccepts(c, lines, i + 1);
      if LineLinks(c, lines, i) {
        assert ScanLine(c, s, lines[i]) == Some(ScanState(Some(LineAnchor(c, lines, i + 1)), true));
      } else {
        var next := ScanLine(c, s, lines[i]);
        if next.Some? && ScanFrom(c, next.value, lines, i + 1).Some? {
          ScanStaysBroken(c, next.value, lines, i + 1);
        }
      }
    }
  }

  /** The script's lines are the records' lines when only empty lines are blank. */
  lemma {:induction false} ScriptSeesRecords(c: Codec, files: seq<LogFile>, index: nat)
    requires forall i :: 0 <= i < |files| ==> CrClean(files[i].data) && NoPaddedBlank(files[i].data)
    ensures ScriptLines(files) == ChopAll(Raws(RecordsOf(c, files, index)))
    decreases |files|
  {
    hide CrClean, NoPaddedBlank, RecordsFrom, TextLines, Filter, ChopCR;
    if |files| > 0 {
      var first := FileRecords(c, files[0], index);
      FileSeesRecords(c, files[0], index);
      ScriptSeesRecords(c, files[1..], index + |first|);
      RawsConcat(first, RecordsOf(c, files[1..], index + |first|));
    }
  }

  lemma FileSeesRecords(c: Codec, f: LogFile, index: nat)
    requires CrClean(f.data) && NoPaddedBlank(f.data)
    ensures Filter(SkipEmpty, TextLines(f.data)) == ChopAll(Raws(FileRecords(c, f, index)))
  {
    hide CrClean, RecordsFrom, Blank, ChopCR;
    var lines := Lines(f.data);
    TextLinesAreChopped(f.data);
    forall i | 0 <= i < |lines| ensures Keeps(SkipEmpty, ChopCR(lines[i])) == Keeps(SkipBlank, lines[i]) {
      BlankChop(lines[i]);
      if |ChopCR(lines[i])| == 0 { EmptyIsBlank(ChopCR(lines[i])); }
    }
    FilterChop(SkipEmpty, SkipBlank, lines);
    RecordsAreLines(c, f, index);
  }

  lemma LineLinksAreLinks(c: Codec, recs: seq<Record>, i: nat)
    requires i < |recs| && recs[i].parsed == Parsed(c, recs[i].raw)
    ensures LineLinks(c, ChopAll(Raws(recs)), i) == Carries(recs[i], Anchor(c, recs, i))
  {
    hide Load, Genesis, ChopCR;
    LoadChop(c, recs[i].raw);
  }

  lemma {:induction false} RecordsGenuine(c: Codec, files: seq<LogFile>, index: nat)
    ensures forall i :: 0 <= i < |RecordsOf(c, files, index)| ==>
      RecordsOf(c, files, index)[i].parsed == Parsed(c, RecordsOf(c, files, index)[i].raw)
      && !Blank(RecordsOf(c, files, index)[i].raw)
    decreases |files|
  {
    hide RecordsFrom, Parsed, Blank;
    if |files| > 0 {
      var first := FileRecords(c, files[0], index);
      var rest := RecordsOf(c, files[1..], index + |first|);
      var recs := RecordsOf(c, files, index);
      RecordsWellPlaced(c, files[0], 0, index);
      RecordsGenuine(c, files[1..], index + |first|);
      assert recs == first + rest;
      forall i | 0 <= i < |recs| ensures recs[i].parsed == Parsed(c, recs[i].raw) && !Blank(recs[i].raw) {
        if i < |first| {
          assert recs[i] == first[i] && WellPlaced(c, files[0], first[i]);
        } else {
          assert recs[i] == rest[i - |first|];
        }
      }
    }
  }

  /** The standalone script accepts exactly the logs that the segment-aware verifier accepts, that
      consist of one segment, and whose blank lines are empty. */
  lemma ScriptAcceptsSingleSegments(c: Codec, files: seq<LogFile>)
    requires forall i :: 0 <= i < |files| ==> CrClean(files[i].data)
    ensures var recs := RecordsOf(c, files, 0);
      ScriptVerdict(c, files) == Intact <==>
      && (VerifyFiles(c, files).status == Valid || VerifyFiles(c, files).status == Empty)
      && SingleSegment(c, recs)
      && forall i :: 0 <= i < |files| ==> NoPaddedBlank(files[i].data)
  {
    hide CrClean, NoPaddedBlank, Decodes, RecordsOf, NoHiddenBlank;
    var recs := RecordsOf(c, files, 0);
    var padded := exists i :: 0 <= i < |files| && !NoPaddedBlank(files[i].data);
    if padded {
      PaddedIsRejected(c, files);
    } else {
      ScriptSeesRecords(c, files, 0);
      RecordsGenuine(c, files, 0);
      var lines := ScriptLines(files);
      forall i | 0 <= i < |recs| ensures LineLinks(c, lines, i) == Carries(recs[i], Anchor(c, recs, i)) {
        LineLinksAreLinks(c, recs, i);
      }
      ScanAccepts(c, lines, 0);
      SingleSegmentIsValid(c, recs);
      var start := ScanState(Some(Genesis(c)), true);
      if ScriptVerdict(c, files) == Intact {
        ScanFilesDecodes(c, start, files);
        ScanFilesIsFlat(c, start, files);
      } else if SingleSegment(c, recs) {
        ChainIsParsed(c, recs);
        ValidFilesAreVisible(c, files, 0);
        ScanFilesIsFlat(c, start, files);
      }
    }
  }

  lemma SingleSegmentIsValid(c: Codec, recs: seq<Record>)
    ensures SingleSegment(c, recs) ==> ChainValid(c, recs)
  {
  }

  /** A line of white space makes the script stop trusting the log. */
  lemma {:induction false} PaddedIsRejected(c: Codec, files: seq<LogFile>)
    requires forall i :: 0 <= i < |files| ==> CrClean(files[i].data)
    requires exists i :: 0 <= i < |files| && !NoPaddedBlank(files[i].data)
    ensures ScriptVerdict(c, files) != Intact
  {
    hide CrClean, Decodes, LineLinks, ScanFrom;
    if ScriptVerdict(c, files) == Intact {
      var start := ScanState(Some(Genesis(c)), true);
      ScanFilesDecodes(c, start, files);
      ScanFilesIsFlat(c, start, files);
      var lines := ScriptLines(files);
      ScanAccepts(c, lines, 0);
      var j :| 0 <= j < |files| && !NoPaddedBlank(files[j].data);
      var l := PaddedLine(files[j].data);
      ScriptLinesContain(files, j, l);
      var k :| 0 <= k < |lines| && lines[k] == l;
      assert LineLinks(c, lines, k);
      PaddedDoesNotLink(c, lines, k);
    }
  }

  lemma PaddedLine(data: seq<byte>) returns (l: Line)
    requires CrClean(data) && !NoPaddedBlank(data)
    ensures |l| > 0 && Blank(l) && l in Filter(SkipEmpty, TextLines(data))
  {
    hide CrClean, Blank, ChopCR;
    TextLinesAreChopped(data);
    var lines := Lines(data);
    var i :| 0 <= i < |lines| && Blank(lines[i]) && |ChopCR(lines[i])| != 0;
    l := ChopCR(lines[i]);
    BlankChop(lines[i]);
    FilterMember(SkipEmpty, TextLines(data), i);
  }

  lemma {:induction false} ScriptLinesContain(files: seq<LogFile>, j: nat, l: Line)
    requires j < |files| && l in Filter(SkipEmpty, TextLines(files[j].data))
    ensures l in ScriptLines(files)
    decreases |files|
  {
    hide TextLines, Filter;
    if j > 0 {
      ScriptLinesContain(files[1..], j - 1, l);
    }
  }

  lemma PaddedDoesNotLink(c: Codec, lines: seq<Line>, k: nat)
    requires k < |lines| && Blank(lines[k])
    ensures !LineLinks(c, lines, k)
  {
    BlankIsStrBlank(lines[k]);
  }

  // ---------------------------------------------------------------- verify_chain

  datatype ChainResult = ChainOk | BrokenAt(index: nat) | ChainRaised

  function ChainCheckFrom(c: Codec, lines: seq<Line>, i: nat): ChainResult
    requires 0 < i
    decreases |lines| - i
  {
    if i >= |lines| then ChainOk
    else if !Load(c, lines[i]).Object? then ChainRaised
    else if Load(c, lines[i]).prevHash != Some(c.digest(lines[i - 1])) then BrokenAt(i)
    else ChainCheckFrom(c, lines, i + 1)
  }

  function ChainCheck(c: Codec, lines: seq<Line>): ChainResult {
    if |lines| == 0 then ChainOk
    else if !Load(c, lines[0]).Object? then ChainRaised
    else if Load(c, lines[0]).prevHash != Some(Genesis(c)) then BrokenAt(0)
    else ChainCheckFrom(c, lines, 1)
  }

  method VerifyChain(c: Codec, lines: seq<Line>) returns (r: ChainResult)
    ensures r == ChainCheck(c, lines)
  {
    if |lines| == 0 {
      return ChainOk;
    }
    var firstEvent := Load(c, lines[0]);
    if !firstEvent.Object? {
      return ChainRaised;
    }
    if firstEvent.prevHash != Some(Genesis(c)) {
      return BrokenAt(0);
    }
    for i := 1 to |lines|
      invariant ChainCheck(c, lines) == ChainCheckFrom(c, lines, i)
    {
      var expected := c.digest(lines[i - 1]);
      var event := Load(c, lines[i]);
      if !event.Object? {
        return ChainRaised;
      }
      if event.prevHash != Some(expected) {
        return BrokenAt(i);
      }
    }
    return ChainOk;
  }

  /** On one file whose lines are all JSON objects the writer's check and the segment-aware one
      find the same first break. */
  lemma ChainChecksAgree(c: Codec, recs: seq<Record>)
    requires forall i :: 0 <= i < |recs| ==> recs[i].file == recs[0].file
    requires forall i :: 0 <= i < |recs| ==> recs[i].parsed.Some? && recs[i].parsed == Parsed(c, recs[i].raw)
    ensures ChainCheck(c, ChopAll(Raws(recs))) ==
      if FirstBreak(c, recs) == -1 then ChainOk else BrokenAt(FirstBreak(c, recs))
  {
    hide Load, Genesis, ChopCR;
    var lines := ChopAll(Raws(recs));
    if |recs| > 0 {
      LoadChop(c, recs[0].raw);
      if Carries(recs[0], Genesis(c)) {
        ChainChecksAgreeFrom(c, recs, 1);
      }
    }
  }

  lemma {:induction false} ChainChecksAgreeFrom(c: Codec, recs: seq<Record>, i: nat)
    requires 0 < i <= |recs|
    requires forall k :: 0 <= k < |recs| ==> recs[k].file == recs[0].file
    requires forall k :: 0 <= k < |recs| ==> recs[k].parsed.Some? && recs[k].parsed == Parsed(c, recs[k].raw)
    ensures ChainCheckFrom(c, ChopAll(Raws(recs)), i) ==
      if FirstBreakFrom(c, recs, i) == -1 then ChainOk else BrokenAt(FirstBreakFrom(c, recs, i))
    decreases |recs| - i
  {
    hide Load, Genesis, ChopCR;
    if i < |recs| {
      LoadChop(c, recs[i].raw);
      assert !SegmentStart(recs, i);
      ChainChecksAgreeFrom(c, recs, i + 1);
    }
  }
}
