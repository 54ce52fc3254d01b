/** Every outcome of the gate, the script and the writer's own check, and where it comes from
    (orchestrator/startup_validator.py, audit-log-writer/scripts/drnt_audit_verify.py,
    audit-log-writer/src/hash_chain.py). */
module VerifierOutcomes {
  import opened Bytes
  import opened Codec
  import opened AuditRecords
  import opened TextView
  import opened StartupGate
  import opened GateWindow
  import opened OtherVerifiers

  // ---------------------------------------------------------------- the gate

  /** Line `at` is the first of the window, from line `i` on, that does not continue the line before
      it; past the end when there is none. */
  ghost predicate FirstBad(c: Codec, w: seq<TextRecord>, i: nat, at: nat)
    requires 0 < i
  {
    && i <= at && (at < |w| ==> !PairOk(c, w, at))
    && forall q :: i <= q < at && q < |w| ==> PairOk(c, w, q)
  }

  /** The scan passes when there is no such line; otherwise it fails there, or raises when that line is a
      JSON value that is no object. */
  lemma {:induction false} TailMeaning(c: Codec, w: seq<TextRecord>, i: nat) returns (at: nat)
    requires 0 < i
    ensures FirstBad(c, w, i, at)
    ensures TailFrom(c, w, i) ==
      if at >= |w| then Passed else if Load(c, w[at].text) == NonObject then Raised else Failed(at)
    decreases |w| - i
  {
    at := i;
    if i < |w| {
      if PairOk(c, w, i) {
        GoodContinues(c, w, i);
        hide PairOk;
        at := TailMeaning(c, w, i + 1);
      } else {
        BadStops(c, w, i);
      }
    }
  }

  lemma GoodContinues(c: Codec, w: seq<TextRecord>, i: nat)
    requires 0 < i < |w| && PairOk(c, w, i)
    ensures TailFrom(c, w, i) == TailFrom(c, w, i + 1)
  {
    hide Load, Genesis;
  }

  lemma BadStops(c: Codec, w: seq<TextRecord>, i: nat)
    requires 0 < i < |w| && !PairOk(c, w, i)
    ensures TailFrom(c, w, i) == if Load(c, w[i].text) == NonObject then Raised else Failed(i)
  {
    hide Load, Genesis;
  }

  /** The gate reads the newest file, and an older one while the newer ones hold fewer than `n` lines. */
  ghost predicate ReadsFile(files: seq<LogFile>, n: int, extra: nat, j: nat)
    requires j < |files|
  {
    j == |files| - 1 || |GateAll(files[j + 1..])| + extra < n
  }

  lemma {:induction false} GatherRaises(c: Codec, files: seq<LogFile>, n: int, acc: seq<TextRecord>)
    ensures Gather(c, files, n, acc) == None <==>
      exists j :: 0 <= j < |files| && ReadsFile(files, n, |acc|, j) && !Decodes(c, files[j].data)
    decreases |files|
  {
    hide GateLines, Decodes;
    if |files| > 0 {
      var m := |files| - 1;
      var front, f := files[..m], files[m];
      assert ReadsFile(files, n, |acc|, m);
      GatherRaises(c, front, n, GateLines(f) + acc);
      forall j | 0 <= j < m
        ensures ReadsFile(files, n, |acc|, j) <==> |GateLines(f)| + |acc| < n && ReadsFile(front, n, |GateLines(f) + acc|, j)
      {
        ReadsBehind(files, n, |acc|, j);
      }
      hide ReadsFile;
      assert forall j :: 0 <= j < m ==> front[j] == files[j];
    }
  }

  lemma ReadsBehind(files: seq<LogFile>, n: int, extra: nat, j: nat)
    requires 0 <= j < |files| - 1
    ensures var m := |files| - 1;
      var own := |GateLines(files[m])|;
      ReadsFile(files, n, extra, j) <==> own + extra < n && ReadsFile(files[..m], n, own + extra, j)
  {
    hide GateLines;
    var m := |files| - 1;
    assert files[j + 1..] == files[..m][j + 1..] + [files[m]];
    GateAllSnoc(files[..m][j + 1..], files[m]);
  }

  /** The gate reads a file that does not decode. */
  ghost predicate ReadsUndecodable(c: Codec, files: seq<LogFile>, n: int) {
    exists j :: 0 <= j < |files| && ReadsFile(files, n, 0, j) && !Decodes(c, files[j].data)
  }

  /** What the gate does with a log: it raises on a file it reads and cannot decode; otherwise the window,
      the last `n` lines or all there are, passes, fails at its first bad line behind the first
      line, or raises there. */
  lemma GateMeaning(c: Codec, files: seq<LogFile>, n: int) returns (w: seq<TextRecord>, at: nat)
    ensures |w| <= |GateAll(files)| && FirstBad(c, w, 1, at)
    ensures !ReadsUndecodable(c, files, n) ==> w == GateAll(files)[|GateAll(files)| - |w|..]
    ensures !ReadsUndecodable(c, files, n) && n >= 1 ==> |w| == if |GateAll(files)| < n then |GateAll(files)| else n
    ensures Gate(c, files, n) ==
      if ReadsUndecodable(c, files, n) then Raised
      else if at >= |w| then Passed
      else if Load(c, w[at].text) == NonObject then Raised
      else Failed(at)
  {
    hide Gather, ReadsFile, Decodes, TailFrom, PairOk, GateAll, Load, FirstBad;
    GatherRaises(c, files, n, []);
    if Gather(c, files, n, []).Some? {
      w := Window(Gather(c, files, n, []).value, n);
      WindowIsTail(c, files, n);
    } else {
      w := [];
    }
    at := TailMeaning(c, w, 1);
  }

  /** A window size of 0 or less makes the gate look at the newest file alone: at all of its lines for 0,
      and without the first `-n` of them below 0. */
  lemma GateWithoutWindow(c: Codec, files: seq<LogFile>, n: int)
    requires n <= 0 && |files| > 0 && Decodes(c, files[|files| - 1].data)
    ensures var own := GateLines(files[|files| - 1]);
      Gate(c, files, n) == TailFrom(c, if -n <= |own| then own[-n..] else [], 1)
  {
    hide GateLines, Decodes, TailFrom;
    var own := GateLines(files[|files| - 1]);
    assert own + [] == own;
    if n == 0 {
      assert own[0..] == own;
    }
    if |own| == 0 && n == 0 {
      assert own[-n..] == [];
    }
  }

  // ---------------------------------------------------------------- the script

  /** Some line is a JSON value that is no object. */
  ghost predicate NonObjectIn(c: Codec, lines: seq<Line>) {
    exists k :: 0 <= k < |lines| && Load(c, lines[k]) == NonObject
  }

  lemma {:induction false} ScanCrashes(c: Codec, s: ScanState, lines: seq<Line>, i: nat)
    requires i <= |lines|
    ensures ScanFrom(c, s, lines, i) == None <==> NonObjectIn(c, lines[i..])
    decreases |lines| - i
  {
    hide Load;
    if i < |lines| {
      assert lines[i..] == [lines[i]] + lines[i + 1..];
      NonObjectCons(c, lines[i], lines[i + 1..]);
      if ScanLine(c, s, lines[i]).Some? {
        ScanCrashes(c, ScanLine(c, s, lines[i]).value, lines, i + 1);
      }
    }
  }

  lemma NonObjectCons(c: Codec, l: Line, rest: seq<Line>)
    ensures NonObjectIn(c, [l] + rest) <==> Load(c, l) == NonObject || NonObjectIn(c, rest)
  {
    hide Load;
    var all := [l] + rest;
    assert all[0] == l && forall k :: 0 <= k < |rest| ==> all[k + 1] == rest[k];
    if k :| 0 <= k < |all| && Load(c, all[k]) == NonObject && k > 0 {
      assert rest[k - 1] == all[k];
    }
  }

  lemma {:induction false} KeptNonObject(c: Codec, lines: seq<Line>)
    ensures NonObjectIn(c, Filter(SkipEmpty, lines)) <==> NonObjectIn(c, lines)
    decreases |lines|
  {
    if |lines| > 0 {
      var l, rest := lines[0], lines[1..];
      assert lines == [l] + rest;
      FilterCons(SkipEmpty, l, rest);
      KeptNonObject(c, rest);
      EmptyLoads(c, l);
      hide Load, Filter, NonObjectIn;
      var kept := Filter(SkipEmpty, rest);
      assert [] + kept == kept;
      NonObjectCons(c, l, rest);
      NonObjectCons(c, l, kept);
    }
  }

  lemma EmptyLoads(c: Codec, l: Line)
    ensures |l| == 0 ==> Load(c, l) == Malformed
  {
  }

  lemma {:induction false} ScanFilesCrashes(c: Codec, s: ScanState, files: seq<LogFile>)
    ensures ScanFiles(c, s, files) == None <==>
      exists i :: 0 <= i < |files| && (!Decodes(c, files[i].data) || NonObjectIn(c, TextLines(files[i].data)))
    decreases |files|
  {
    hide Decodes, NonObjectIn, Filter, TextLines, ScanFrom;
    if |files| > 0 {
      var own := Filter(SkipEmpty, TextLines(files[0].data));
      FileCrashes(c, s, files[0]);
      assert forall i :: 0 < i < |files| ==> files[i] == files[1..][i - 1];
      if Decodes(c, files[0].data) && ScanFrom(c, s, own, 0).Some? {
        ScanFilesCrashes(c, ScanFrom(c, s, own, 0).value, files[1..]);
        SomeLater(c, files);
      }
    }
  }

  lemma SomeLater(c: Codec, files: seq<LogFile>)
    requires |files| > 0 && !NonObjectIn(c, TextLines(files[0].data)) && Decodes(c, files[0].data)
    ensures (exists i :: 0 <= i < |files| && (!Decodes(c, files[i].data) || NonObjectIn(c, TextLines(files[i].data)))) <==>
      exists i :: 0 <= i < |files[1..]| && (!Decodes(c, files[1..][i].data) || NonObjectIn(c, TextLines(files[1..][i].data)))
  {
    hide Decodes, NonObjectIn;
    assert forall i :: 0 <= i < |files[1..]| ==> files[1..][i] == files[i + 1];
    if i :| 0 <= i < |files| && (!Decodes(c, files[i].data) || NonObjectIn(c, TextLines(files[i].data))) {
      assert files[1..][i - 1] == files[i];
    }
  }

  lemma FileCrashes(c: Codec, s: ScanState, f: LogFile)
    ensures ScanFrom(c, s, Filter(SkipEmpty, TextLines(f.data)), 0) == None <==> NonObjectIn(c, TextLines(f.data))
  {
    hide Filter, TextLines, NonObjectIn;
    var own := Filter(SkipEmpty, TextLines(f.data));
    assert own[0..] == own;
    ScanCrashes(c, s, own, 0);
    KeptNonObject(c, TextLines(f.data));
  }

  /** The script crashes exactly when some file does not decode or holds a line that is a JSON value
      but no object, wherever that is; otherwise it says Intact as `ScriptIntactIff` has it. */
  lemma ScriptCrashesIff(c: Codec, files: seq<LogFile>)
    ensures ScriptVerdict(c, files) == Crashed <==>
      exists i :: 0 <= i < |files| && (!Decodes(c, files[i].data) || NonObjectIn(c, TextLines(files[i].data)))
  {
    hide Decodes, NonObjectIn, ScanFiles;
    ScanFilesCrashes(c, ScanState(Some(Genesis(c)), true), files);
  }

  // ---------------------------------------------------------------- verify_chain

  /** Line `at` is the first that is no JSON object with the hash of the line before it, genesis for the
      first line; past the end when there is none. */
  ghost predicate FirstUnlinked(c: Codec, lines: seq<Line>, at: nat) {
    at <= |lines| && (at < |lines| ==> !LineLinks(c, lines, at)) && forall q :: 0 <= q < at ==> LineLinks(c, lines, q)
  }

  lemma {:induction false} ChainCheckAt(c: Codec, lines: seq<Line>, i: nat) returns (at: nat)
    requires 0 < i <= |lines| && forall q :: 0 <= q < i ==> LineLinks(c, lines, q)
    ensures FirstUnlinked(c, lines, at)
    ensures ChainCheckFrom(c, lines, i) ==
      if at == |lines| then ChainOk else if Load(c, lines[at]).Object? then BrokenAt(at) else ChainRaised
    decreases |lines| - i
  {
    hide Load, Genesis;
    at := i;
    if i < |lines| && LineLinks(c, lines, i) {
      at := ChainCheckAt(c, lines, i + 1);
    }
  }

  /** The writer's own check: in order when every line links; otherwise broken at the first that does
      not, or raised when that is no JSON object. */
  lemma ChainCheckMeaning(c: Codec, lines: seq<Line>) returns (at: nat)
    ensures FirstUnlinked(c, lines, at)
    ensures ChainCheck(c, lines) ==
      if at == |lines| then ChainOk else if Load(c, lines[at]).Object? then BrokenAt(at) else ChainRaised
  {
    hide Load, Genesis, ChainCheckFrom;
    at := 0;
    if |lines| > 0 && LineLinks(c, lines, 0) {
      at := ChainCheckAt(c, lines, 1);
    }
  }
}
