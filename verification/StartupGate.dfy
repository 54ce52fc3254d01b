/** The windowed startup gate (orchestrator/startup_validator.py, `_verify_tail_chain` and
    `_check_hash_chain`) against the full verifier. */
module StartupGate {
  import opened Bytes
  import opened Codec
  import opened AuditRecords
  import opened AuditClassify
  import opened AuditRepair
  import opened TextView

  /** A line kept by the gate, flagged when it is the first of its file. */
  datatype TextRecord = TextRecord(text: Line, first: bool)

  /** Raised stands for an exception: an undecodable file or a JSON value that is no object. */
  datatype GateOutcome = Passed | Failed(at: nat) | Raised

  predicate Decodes(c: Codec, data: seq<byte>) {
    forall i :: 0 <= i < |TextLines(data)| ==> Load(c, TextLines(data)[i]) != Undecodable
  }

  function Flagged(lines: seq<Line>): (r: seq<TextRecord>)
    ensures |r| == |lines| && forall i :: 0 <= i < |r| ==> r[i] == TextRecord(lines[i], i == 0)
  {
    seq(|lines|, i requires 0 <= i < |lines| => TextRecord(lines[i], i == 0))
  }

  function GateLines(f: LogFile): seq<TextRecord> {
    Flagged(Filter(SkipStrBlank, TextLines(f.data)))
  }

  /** Newest file first, until `n` lines are there; None when a file read does not decode. */
  function Gather(c: Codec, files: seq<LogFile>, n: int, acc: seq<TextRecord>): Option<seq<TextRecord>>
    decreases |files|
  {
    if |files| == 0 then Some(acc)
    else
      var f := files[|files| - 1];
      if !Decodes(c, f.data) then None
      else if |GateLines(f) + acc| >= n then Some(GateLines(f) + acc)
      else Gather(c, files[..|files| - 1], n, GateLines(f) + acc)
  }

  /** Python's `lines[-n:]` when there are more than `n` lines. */
  function Window(lines: seq<TextRecord>, n: int): seq<TextRecord> {
    if |lines| > n then
      if n > 0 then lines[|lines| - n..]
      else if n == 0 then lines
      else if -n <= |lines| then lines[-n..] else []
    else lines
  }

  /** Checks from position `i` on; the first line of the window is trusted. */
  function TailFrom(c: Codec, w: seq<TextRecord>, i: nat): GateOutcome
    requires 0 < i
    decreases |w| - i
  {
    if i >= |w| then Passed
    else
      match Load(c, w[i].text)
      case Object(prevHash, _) =>
        if w[i].first && prevHash == Some(Genesis(c)) then TailFrom(c, w, i + 1)
        else if prevHash != Some(c.digest(w[i - 1].text)) then Failed(i)
        else TailFrom(c, w, i + 1)
      case NonObject => Raised
      case _ => Failed(i)
  }

  function Gate(c: Codec, files: seq<LogFile>, n: int): GateOutcome {
    match Gather(c, files, n, [])
    case None => Raised
    case Some(lines) => TailFrom(c, Window(lines, n), 1)
  }

  // ---------------------------------------------------------------- the loops of the source

  method ReadText(c: Codec, data: seq<byte>) returns (lines: Option<seq<Line>>)
    ensures lines == if Decodes(c, data) then Some(TextLines(data)) else None
  {
    var all := TextLines(data);
    for i := 0 to |all|
      invariant forall k :: 0 <= k < i ==> Load(c, all[k]) != Undecodable
    {
      if Load(c, all[i]) == Undecodable {
        return None;
      }
    }
    return Some(all);
  }

  method VerifyTailChain(c: Codec, w: seq<TextRecord>) returns (outcome: GateOutcome)
    ensures outcome == TailFrom(c, w, 1)
  {
    if |w| <= 1 {
      return Passed;
    }
    var i := 1;
    while i < |w|
      invariant 1 <= i <= |w|
      invariant TailFrom(c, w, 1) == TailFrom(c, w, i)
    {
      var event := Load(c, w[i].text);
      if event == Malformed || event == Undecodable {
        return Failed(i);
      }
      if event == NonObject {
        return Raised;
      }
      var actual := event.prevHash;
      if !(w[i].first && actual == Some(Genesis(c))) {
        var expected := c.digest(w[i - 1].text);
        if actual != Some(expected) {
          return Failed(i);
        }
      }
      i := i + 1;
    }
    return Passed;
  }

  method CheckHashChain(c: Codec, files: seq<LogFile>, n: int) returns (outcome: GateOutcome)
    ensures outcome == Gate(c, files, n)
  {
    var allLines: seq<TextRecord> := [];
    var i := |files|;
    assert files[..i] == files;
    while i > 0
      invariant 0 <= i <= |files|
      invariant Gather(c, files, n, []) == Gather(c, files[..i], n, allLines)
    {
      i := i - 1;
      assert files[..i + 1][..i] == files[..i];
      var text := ReadText(c, files[i].data);
      if text.None? {
        return Raised;
      }
      var fileLines := Flagged(Filter(SkipStrBlank, text.value));
      allLines := fileLines + allLines;
      if |allLines| >= n {
        break;
      }
    }
    assert Gather(c, files, n, []) == Some(allLines);
    outcome := VerifyTailChain(c, Window(allLines, n));
  }

  // ---------------------------------------------------------------- text lines against records

  /** Text and byte reader agree on which lines are blank. */
  ghost predicate NoHiddenBlank(data: seq<byte>) {
    forall i :: 0 <= i < |Lines(data)| ==> Blank(Lines(data)[i]) == StrBlank(Lines(data)[i])
  }

  /** Line for line the text that the gate sees is the record that the verifier sees. */
  ghost predicate Aligned(c: Codec, w: seq<TextRecord>, recs: seq<Record>) {
    && |w| == |recs|
    && forall i :: 0 <= i < |w| ==> AlignedAt(c, w, recs, i)
  }

  ghost predicate AlignedAt(c: Codec, w: seq<TextRecord>, recs: seq<Record>, i: nat)
    requires i < |w| && i < |recs|
  {
    && w[i].text == ChopCR(recs[i].raw)
    && w[i].first == SegmentStart(recs, i)
    && recs[i].parsed == Parsed(c, recs[i].raw)
  }

  function GateAll(files: seq<LogFile>): seq<TextRecord>
    decreases |files|
  {
    if |files| == 0 then [] else GateLines(files[0]) + GateAll(files[1..])
  }

  lemma FileAligned(c: Codec, f: LogFile, index: nat)
    requires CrClean(f.data) && NoHiddenBlank(f.data)
    ensures Aligned(c, GateLines(f), FileRecords(c, f, index))
    ensures forall i :: 0 <= i < |FileRecords(c, f, index)| ==> FileRecords(c, f, index)[i].file == f.date
  {
    hide ChopCR, RecordsFrom, Blank, StrBlank, Parsed, CrClean;
    var lines := Lines(f.data);
    var recs := FileRecords(c, f, index);
    TextLinesAreChopped(f.data);
    forall i | 0 <= i < |lines| ensures Keeps(SkipStrBlank, ChopCR(lines[i])) == Keeps(SkipBlank, lines[i]) {
      StrBlankOfChop(lines[i]);
    }
    FilterChop(SkipStrBlank, SkipBlank, lines);
    RecordsAreLines(c, f, index);
    RecordsWellPlaced(c, f, 0, index);
    forall i | 0 <= i < |recs| ensures AlignedAt(c, GateLines(f), recs, i) && recs[i].file == f.date {
      assert WellPlaced(c, f, recs[i]);
      if i > 0 {
        assert WellPlaced(c, f, recs[i - 1]);
      }
    }
  }

  lemma StrBlankOfChop(l: Line)
    ensures StrBlank(ChopCR(l)) == StrBlank(l)
  {
    if |l| > 0 && l[|l| - 1] == CR {
      StrBlankChop(l);
    }
  }

  /** Records live in the files they were read from. */
  lemma {:induction false} RecordDates(c: Codec, files: seq<LogFile>, index: nat, d: int)
    requires forall i :: 0 <= i < |files| ==> files[i].date > d
    ensures forall i :: 0 <= i < |RecordsOf(c, files, index)| ==> RecordsOf(c, files, index)[i].file > d
    decreases |files|
  {
    hide RecordsFrom, WellPlaced;
    if |files| > 0 {
      var first := FileRecords(c, files[0], index);
      var rest := RecordsOf(c, files[1..], index + |first|);
      FileOfRecords(c, files[0], index);
      RecordDates(c, files[1..], index + |first|, d);
      var recs := RecordsOf(c, files, index);
      assert recs == first + rest;
      assert forall i :: |first| <= i < |recs| ==> recs[i] == rest[i - |first|];
    }
  }

  lemma FileOfRecords(c: Codec, f: LogFile, index: nat)
    ensures forall i :: 0 <= i < |FileRecords(c, f, index)| ==> FileRecords(c, f, index)[i].file == f.date
  {
    hide RecordsFrom;
    RecordsWellPlaced(c, f, 0, index);
    forall i | 0 <= i < |FileRecords(c, f, index)| ensures FileRecords(c, f, index)[i].file == f.date {
      assert WellPlaced(c, f, FileRecords(c, f, index)[i]);
    }
  }

  lemma AlignedConcat(c: Codec, w: seq<TextRecord>, recs: seq<Record>, v: seq<TextRecord>, more: seq<Record>)
    requires Aligned(c, w, recs) && Aligned(c, v, more)
    requires |recs| > 0 && |more| > 0 ==> recs[|recs| - 1].file != more[0].file
    ensures Aligned(c, w + v, recs + more)
  {
    hide ChopCR, Parsed;
    forall i | 0 <= i < |w + v| ensures AlignedAt(c, w + v, recs + more, i) {
      if i < |w| {
        assert AlignedAt(c, w, recs, i);
      } else {
        assert AlignedAt(c, v, more, i - |w|);
      }
    }
  }

  lemma {:induction false} FilesAligned(c: Codec, files: seq<LogFile>, index: nat)
    requires Sorted(files)
    requires forall i :: 0 <= i < |files| ==> CrClean(files[i].data) && NoHiddenBlank(files[i].data)
    ensures Aligned(c, GateAll(files), RecordsOf(c, files, index))
    decreases |files|
  {
    hide RecordsFrom, GateLines, CrClean, NoHiddenBlank, AlignedAt;
    if |files| > 0 {
      var first := FileRecords(c, files[0], index);
      var rest := RecordsOf(c, files[1..], index + |first|);
      FileAligned(c, files[0], index);
      FilesAligned(c, files[1..], index + |first|);
      RecordDates(c, files[1..], index + |first|, files[0].date);
      AlignedConcat(c, GateLines(files[0]), first, GateAll(files[1..]), rest);
    }
  }

  // ---------------------------------------------------------------- valid logs decode

  lemma {:induction false} FilterMember(skip: Skip, lines: seq<Line>, i: nat)
    requires i < |lines| && Keeps(skip, lines[i])
    ensures lines[i] in Filter(skip, lines)
    decreases |lines|
  {
    hide Keeps;
    if i > 0 {
      FilterMember(skip, lines[1..], i - 1);
    }
  }

  ghost predicate AllParsed(recs: seq<Record>) {
    forall i :: 0 <= i < |recs| ==> recs[i].parsed.Some?
  }

  /** When every record is a JSON object, no line is hidden from the text reader and all decode. */
  lemma ObjectsAreVisible(c: Codec, f: LogFile, index: nat)
    requires CrClean(f.data) && AllParsed(FileRecords(c, f, index))
    ensures NoHiddenBlank(f.data) && Decodes(c, f.data)
  {
    hide Blank, StrBlank, CrClean, RecordsFrom, ChopCR, TrimCR;
    var lines := Lines(f.data);
    TextLinesAreChopped(f.data);
    RecordsAreLines(c, f, index);
    RecordsWellPlaced(c, f, 0, index);
    var recs := FileRecords(c, f, index);
    forall i | 0 <= i < |lines|
      ensures Blank(lines[i]) == StrBlank(lines[i])
      ensures Load(c, ChopCR(lines[i])) != Undecodable
    {
      LoadChop(c, lines[i]);
      if Blank(lines[i]) {
        BlankIsStrBlank(lines[i]);
      } else {
        FilterMember(SkipBlank, lines, i);
        var k :| 0 <= k < |recs| && recs[k].raw == lines[i];
        assert WellPlaced(c, f, recs[k]);
      }
    }
  }

  lemma {:induction false} ValidFilesAreVisible(c: Codec, files: seq<LogFile>, index: nat)
    requires forall i :: 0 <= i < |files| ==> CrClean(files[i].data)
    requires AllParsed(RecordsOf(c, files, index))
    ensures forall i :: 0 <= i < |files| ==> NoHiddenBlank(files[i].data) && Decodes(c, files[i].data)
    decreases |files|
  {
    hide CrClean, NoHiddenBlank, Decodes, RecordsFrom;
    if |files| > 0 {
      var first := FileRecords(c, files[0], index);
      var rest := RecordsOf(c, files[1..], index + |first|);
      var recs := RecordsOf(c, files, index);
      assert recs == first + rest;
      assert forall i :: 0 <= i < |first| ==> first[i] == recs[i];
      assert forall i :: 0 <= i < |rest| ==> rest[i] == recs[|first| + i];
      ObjectsAreVisible(c, files[0], index);
      ValidFilesAreVisible(c, files[1..], index + |first|);
      assert forall i :: 0 < i < |files| ==> files[i] == files[1..][i - 1];
    }
  }

  lemma ChainIsParsed(c: Codec, recs: seq<Record>)
    requires ChainValid(c, recs)
    ensures AllParsed(recs)
  {
    hide ChainHash, Genesis;
    forall i | 0 <= i < |recs| ensures recs[i].parsed.Some? {
      assert Links(c, recs, i);
    }
  }

  // ---------------------------------------------------------------- what the window sees

  /** Gathering yields the last lines of the log: everything, or at least `n` of them. */
  lemma {:induction false} GatherIsSuffix(c: Codec, files: seq<LogFile>, n: int, acc: seq<TextRecord>)
    returns (p: seq<TextRecord>)
    requires Gather(c, files, n, acc).Some?
    ensures var w := Gather(c, files, n, acc).value;
      && GateAll(files) + acc == p + w
      && (p == [] || |w| >= n)
    decreases |files|
  {
    hide GateLines, Decodes;
    if |files| == 0 {
      p := [];
    } else {
      var m := |files| - 1;
      var front := files[..m];
      GateAllSnoc(front, files[m]);
      assert files == front + [files[m]];
      Regroup(GateAll(front), GateLines(files[m]), acc);
      if |GateLines(files[m]) + acc| >= n {
        p := GateAll(front);
      } else {
        p := GatherIsSuffix(c, front, n, GateLines(files[m]) + acc);
      }
    }
  }

  lemma {:induction false} GateAllSnoc(files: seq<LogFile>, f: LogFile)
    ensures GateAll(files + [f]) == GateAll(files) + GateLines(f)
    decreases |files|
  {
    hide GateLines;
    if |files| == 0 {
      assert files + [f] == [f] && [f][1..] == [];
      assert GateAll([f]) == GateLines(f) + GateAll([f][1..]);
    } else {
      assert (files + [f])[0] == files[0] && (files + [f])[1..] == files[1..] + [f];
      GateAllSnoc(files[1..], f);
      Regroup(GateLines(files[0]), GateAll(files[1..]), GateLines(f));
    }
  }

  lemma {:induction false} GatherDecodes(c: Codec, files: seq<LogFile>, n: int, acc: seq<TextRecord>)
    requires forall i :: 0 <= i < |files| ==> Decodes(c, files[i].data)
    ensures Gather(c, files, n, acc).Some?
    decreases |files|
  {
    hide GateLines, Decodes;
    if |files| > 0 {
      GatherDecodes(c, files[..|files| - 1], n, GateLines(files[|files| - 1]) + acc);
    }
  }

  /** Any stretch of a valid log passes the tail check. */
  lemma {:induction false} StretchPasses(c: Codec, all: seq<TextRecord>, recs: seq<Record>, k: nat, i: nat)
    requires Aligned(c, all, recs) && ChainValid(c, recs)
    requires k <= |all| && 0 < i
    ensures TailFrom(c, all[k..], i) == Passed
    decreases |all| - k - i
  {
    hide ChopCR, Load, Genesis;
    var w := all[k..];
    if i < |w| {
      assert AlignedAt(c, all, recs, k + i) && AlignedAt(c, all, recs, k + i - 1);
      assert Links(c, recs, k + i);
      LoadChop(c, recs[k + i].raw);
      StretchPasses(c, all, recs, k, i + 1);
    }
  }

  lemma {:induction false} PassedChecks(c: Codec, w: seq<TextRecord>, from: nat, i: nat)
    requires 0 < from <= i < |w| && TailFrom(c, w, from) == Passed
    ensures Load(c, w[i].text).Object?
    ensures var prevHash := Load(c, w[i].text).prevHash;
      (w[i].first && prevHash == Some(Genesis(c))) || prevHash == Some(c.digest(w[i - 1].text))
    decreases i - from
  {
    hide Load, Genesis;
    if from < i {
      PassedChecks(c, w, from + 1, i);
    }
  }

  /** A valid log whose carriage returns all end lines passes the gate at every window size,
      zero and negative sizes included. */
  lemma ValidPassesGate(c: Codec, files: seq<LogFile>, n: int)
    requires Sorted(files) && forall i :: 0 <= i < |files| ==> CrClean(files[i].data)
    requires VerifyFiles(c, files).status == Valid
    ensures Gate(c, files, n) == Passed
  {
    hide CrClean, NoHiddenBlank, Decodes, Links, Aligned, RecordsOf, Gather, GateAll, TailFrom, Window;
    var recs := RecordsOf(c, files, 0);
    ChainIsParsed(c, recs);
    ValidFilesAreVisible(c, files, 0);
    FilesAligned(c, files, 0);
    GatherDecodes(c, files, n, []);
    var p := GatherIsSuffix(c, files, n, []);
    var w := Gather(c, files, n, []).value;
    var k := WindowIsSuffix(p, w, n);
    assert GateAll(files) + [] == GateAll(files);
    StretchPasses(c, GateAll(files), recs, k, 1);
  }

  lemma WindowIsSuffix(p: seq<TextRecord>, w: seq<TextRecord>, n: int) returns (k: nat)
    ensures k <= |p + w| && Window(w, n) == (p + w)[k..]
  {
    k := |p| + |w| - |Window(w, n)|;
  }

  /** An empty log passes; so a rejection by the gate is always a finding of the verifier. */
  lemma RejectionIsCorruption(c: Codec, files: seq<LogFile>, n: int)
    requires Sorted(files) && forall i :: 0 <= i < |files| ==> CrClean(files[i].data)
    ensures Gate(c, files, n) != Passed ==>
      VerifyFiles(c, files).status == BrokenTail || VerifyFiles(c, files).status == Interior
  {
    hide CrClean, NoHiddenBlank, Decodes, Links, Aligned, ChainValid;
    if VerifyFiles(c, files).status == Valid {
      ValidPassesGate(c, files, n);
    } else if VerifyFiles(c, files).status == Empty {
      ValidFilesAreVisible(c, files, 0);
      FilesAligned(c, files, 0);
      GatherDecodes(c, files, n, []);
      var p := GatherIsSuffix(c, files, n, []);
      assert |GateAll(files)| == 0 by { AlignedLength(c, GateAll(files), []); }
    }
  }

  lemma AlignedLength(c: Codec, w: seq<TextRecord>, recs: seq<Record>)
    requires Aligned(c, w, recs)
    ensures |w| == |recs|
  {
  }

  /** When the window covers the log, passing the gate and opening at genesis is the same as
      being valid, provided no line is blank for `str.strip()` only. */
  lemma CoveringGateIsExact(c: Codec, files: seq<LogFile>, n: int)
    requires Sorted(files) && forall i :: 0 <= i < |files| ==> CrClean(files[i].data)
    requires var recs := RecordsOf(c, files, 0); 0 < |recs| <= n
    ensures var recs := RecordsOf(c, files, 0);
      VerifyFiles(c, files).status == Valid <==>
      && Gate(c, files, n) == Passed
      && Carries(recs[0], Genesis(c))
      && forall i :: 0 <= i < |files| ==> NoHiddenBlank(files[i].data)
  {
    hide CrClean, NoHiddenBlank, Decodes, Aligned;
    var recs := RecordsOf(c, files, 0);
    if VerifyFiles(c, files).status == Valid {
      ValidPassesGate(c, files, n);
      ChainIsParsed(c, recs);
      ValidFilesAreVisible(c, files, 0);
      assert Links(c, recs, 0);
    } else if && Gate(c, files, n) == Passed && Carries(recs[0], Genesis(c))
              && forall i :: 0 <= i < |files| ==> NoHiddenBlank(files[i].data) {
      FilesAligned(c, files, 0);
      var all := GateAll(files);
      AlignedLength(c, all, recs);
      var p := GatherIsSuffix(c, files, n, []);
      var w := Gather(c, files, n, []).value;
      assert all == p + w;
      assert w == all && Window(w, n) == all;
      PassedIsChain(c, all, recs);
    }
  }

  lemma PassedIsChain(c: Codec, all: seq<TextRecord>, recs: seq<Record>)
    requires Aligned(c, all, recs) && |recs| > 0 && Carries(recs[0], Genesis(c))
    requires TailFrom(c, all, 1) == Passed
    ensures ChainValid(c, recs)
  {
    hide Load, Genesis, ChopCR;
    forall i | 0 <= i < |recs| ensures Links(c, recs, i) {
      assert AlignedAt(c, all, recs, i);
      if i > 0 {
        assert AlignedAt(c, all, recs, i - 1);
        PassedChecks(c, all, 1, i);
        LoadChop(c, recs[i].raw);
      }
    }
  }
}
