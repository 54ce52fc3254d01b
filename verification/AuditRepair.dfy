/** Quarantining a broken tail and sealing the valid prefix
    (orchestrator/audit_integrity.py, `repair_tail`). */
module AuditRepair {
  import opened Bytes
  import opened Codec
  import opened AuditRecords
  import opened AuditClassify

  /** Directory listing in name order; names are distinct. */
  ghost predicate Sorted(files: seq<LogFile>) {
    forall i, j :: 0 <= i < j < |files| ==> files[i].date < files[j].date
  }

  function AllBytes(files: seq<LogFile>): seq<byte>
    decreases |files|
  {
    if |files| == 0 then [] else files[0].data + AllBytes(files[1..])
  }

  datatype Manifest = Manifest(
    recordsTotal: nat, recordsValid: nat, lastValidRecord: Option<nat>, lastValidHash: Hash,
    corruptFrom: nat, corruptHash: Hash, sealedFile: int, removedFiles: seq<int>,
    newSegmentAnchor: Hash, postStatus: Status, postRecords: nat)

  datatype RepairResult = Refused(status: Status) | Repaired(manifest: Manifest)

  // ---------------------------------------------------------------- sealing, on values

  /** Files up to and including number `j`, the last one cut at byte `k`. */
  function Sealed(files: seq<LogFile>, j: nat, k: nat): seq<LogFile>
    requires j < |files| && k <= |files[j].data|
  {
    files[..j] + [files[j].(data := files[j].data[..k])]
  }

  /** What sealing cuts away, in file order. */
  function CutOff(files: seq<LogFile>, j: nat, k: nat): seq<byte>
    requires j < |files| && k <= |files[j].data|
  {
    files[j].data[k..] + AllBytes(files[j + 1..])
  }

  lemma {:induction false} AllBytesConcat(a: seq<LogFile>, b: seq<LogFile>)
    ensures AllBytes(a + b) == AllBytes(a) + AllBytes(b)
    decreases |a|
  {
    if |a| == 0 {
      assert a + b == b;
    } else {
      AllBytesConcat(a[1..], b);
      ConcatTail(a, b);
      Regroup(a[0].data, AllBytes(a[1..]), AllBytes(b));
    }
  }

  lemma ConcatTail<T>(a: seq<T>, b: seq<T>)
    requires |a| > 0
    ensures (a + b)[0] == a[0] && (a + b)[1..] == a[1..] + b
  {
  }

  /** Sealed bytes followed by cut-off bytes are the original bytes. */
  lemma SealedPlusCutOff(files: seq<LogFile>, j: nat, k: nat)
    requires j < |files| && k <= |files[j].data|
    ensures AllBytes(Sealed(files, j, k)) + CutOff(files, j, k) == AllBytes(files)
  {
    var g := files[j].(data := files[j].data[..k]);
    var rest := files[j + 1..];
    AllBytesConcat(files[..j], [g]);
    assert AllBytes([g]) == g.data + AllBytes([]);
    assert files == files[..j] + files[j..];
    AllBytesConcat(files[..j], files[j..]);
    assert files[j..][0] == files[j] && files[j..][1..] == rest;
    assert files[j].data == g.data + files[j].data[k..];
    Regroup(g.data, files[j].data[k..], AllBytes(rest));
    Regroup(AllBytes(files[..j]), g.data, CutOff(files, j, k));
    assert AllBytes([]) == [];
    assert AllBytes([g]) == g.data;
  }

  /** Cutting a file where its m-th record starts leaves exactly the records before it. */
  lemma CutAtRecord(c: Codec, f: LogFile, index: nat, m: nat)
    requires m < |FileRecords(c, f, index)|
    ensures var k := FileRecords(c, f, index)[m].byteStart;
      && k <= |f.data| && Terminated(f.data[..k])
      && FileRecords(c, f.(data := f.data[..k]), index) == FileRecords(c, f, index)[..m]
  {
    hide RecordsFrom, Parsed, Blank;
    var own := FileRecords(c, f, index);
    RecordsWellPlaced(c, f, 0, index);
    var r := own[m];
    assert WellPlaced(c, f, r);
    var k := r.byteStart;
    var g := f.(data := f.data[..k]);
    RecordsSplit(c, g, f, 0, index);
    var head := RecordsFrom(c, g, 0, index);
    var tail := RecordsFrom(c, f, k, index + |head|);
    RecordsWellPlaced(c, g, 0, index);
    RecordsWellPlaced(c, f, k, index + |head|);
    assert own == head + tail;
    forall i | 0 <= i < |head| ensures own[i].byteStart < k {
      assert own[i] == head[i] && WellPlaced(c, g, head[i]);
    }
    assert m >= |head|;
    assert own[|head|] == tail[0] && WellPlaced(c, f, tail[0]);
    assert tail[0].byteStart < tail[0].byteEnd;
    assert m == |head|;
  }

  /** The file and offset where record `f` starts. */
  lemma BreakPoint(c: Codec, files: seq<LogFile>, f: nat) returns (j: nat, k: nat)
    requires f < |RecordsOf(c, files, 0)|
    ensures j < |files| && k <= |files[j].data|
    ensures RecordsOf(c, files, 0)[f].file == files[j].date && RecordsOf(c, files, 0)[f].byteStart == k
    ensures Terminated(files[j].data[..k])
    ensures RecordsOf(c, Sealed(files, j, k), 0) == RecordsOf(c, files, 0)[..f]
  {
    hide RecordsFrom, RecordsOf, Parsed, Sealed;
    var recs := RecordsOf(c, files, 0);
    var before;
    j, before := LocateRecord(c, files, 0, f);
    var own := FileRecords(c, files[j], |before|);
    var m := f - |before|;
    RecordsWellPlaced(c, files[j], 0, |before|);
    assert WellPlaced(c, files[j], own[m]);
    k := own[m].byteStart;
    CutAtRecord(c, files[j], |before|, m);
    SealedRecords(c, files, j, k, |before|);
    RecordsThrough(c, files, j, f);
  }

  /** The first `f` records, when the last of them lie in file `j`. */
  lemma RecordsThrough(c: Codec, files: seq<LogFile>, j: nat, f: nat)
    requires j < |files|
    requires var before := RecordsOf(c, files[..j], 0);
      |before| <= f <= |before| + |FileRecords(c, files[j], |before|)|
    ensures var before := RecordsOf(c, files[..j], 0);
      f <= |RecordsOf(c, files, 0)| &&
      RecordsOf(c, files, 0)[..f] == before + FileRecords(c, files[j], |before|)[..f - |before|]
  {
    hide RecordsFrom;
    var before := RecordsOf(c, files[..j], 0);
    var own := FileRecords(c, files[j], |before|);
    assert files == files[..j] + files[j..];
    RecordsOfConcat(c, files[..j], files[j..], 0);
    assert files[j..][0] == files[j];
    PrefixOfConcat(before, own, RecordsOf(c, files[j..][1..], |before| + |own|), f);
  }

  lemma SealedRecords(c: Codec, files: seq<LogFile>, j: nat, k: nat, n: nat)
    requires j < |files| && k <= |files[j].data| && n == |RecordsOf(c, files[..j], 0)|
    ensures RecordsOf(c, Sealed(files, j, k), 0)
      == RecordsOf(c, files[..j], 0) + FileRecords(c, files[j].(data := files[j].data[..k]), n)
  {
    hide RecordsFrom, Parsed;
    var g := files[j].(data := files[j].data[..k]);
    RecordsOfConcat(c, files[..j], [g], 0);
    OneFile(c, g, n);
  }

  lemma OneFile(c: Codec, g: LogFile, index: nat)
    ensures RecordsOf(c, [g], index) == FileRecords(c, g, index)
  {
    hide RecordsFrom;
    assert [g][1..] == [];
    assert RecordsOf(c, [g][1..], index + |FileRecords(c, g, index)|) == [];
  }

  lemma PrefixOfConcat<T>(a: seq<T>, b: seq<T>, d: seq<T>, n: nat)
    requires |a| <= n <= |a| + |b|
    ensures (a + (b + d))[..n] == a + b[..n - |a|]
  {
  }

  lemma NewerThan(files: seq<LogFile>, j: nat, i: nat)
    requires Sorted(files) && i < |files| && j < |files|
    ensures files[i].date > files[j].date <==> i > j
    ensures files[i].date == files[j].date <==> i == j
  {
  }

  // ---------------------------------------------------------------- the operation

  /** The first record that does not link starts at byte `k` of file `j`. */
  ghost predicate BreaksAt(c: Codec, files: seq<LogFile>, j: nat, k: nat) {
    var recs := RecordsOf(c, files, 0);
    var f := FirstBreak(c, recs);
    && 0 <= f < |recs| && j < |files| && k <= |files[j].data|
    && files[j].date == recs[f].file && k == recs[f].byteStart
  }

  /** The log is cut at its first break: sealed before it, quarantined from it on. */
  ghost predicate CutAtBreak(c: Codec, before: seq<LogFile>, after: seq<LogFile>, quarantined: seq<byte>) {
    exists j: nat, k: nat ::
      BreaksAt(c, before, j, k) && after == Sealed(before, j, k) && quarantined == CutOff(before, j, k)
  }

  lemma BreakFound(c: Codec, files: seq<LogFile>, j: nat, k: nat)
    requires VerifyFiles(c, files).status == BrokenTail && j < |files| && k <= |files[j].data|
    requires var recs, f := RecordsOf(c, files, 0), VerifyFiles(c, files).firstInvalid;
      f.Some? && f.value < |recs| && files[j].date == recs[f.value].file && k == recs[f.value].byteStart
    ensures BreaksAt(c, files, j, k)
  {
    hide Classify, RecordsOf, FirstBreak;
    BrokenTailHasBreak(c, RecordsOf(c, files, 0));
  }

  lemma BreakIsUnique(c: Codec, files: seq<LogFile>, j: nat, k: nat, i: nat, l: nat)
    requires Sorted(files) && BreaksAt(c, files, j, k) && BreaksAt(c, files, i, l)
    ensures i == j && l == k
  {
    hide RecordsOf, FirstBreak;
    NewerThan(files, j, i);
  }

  /** The files sealed at the break hold exactly the records before it. */
  lemma SealedAtBreak(c: Codec, files: seq<LogFile>, j: nat, k: nat)
    requires Sorted(files) && BreaksAt(c, files, j, k)
    ensures Terminated(files[j].data[..k])
    ensures RecordsOf(c, Sealed(files, j, k), 0) == RecordsOf(c, files, 0)[..FirstBreak(c, RecordsOf(c, files, 0))]
  {
    hide RecordsOf, FirstBreak, Sealed;
    var i, l := BreakPoint(c, files, FirstBreak(c, RecordsOf(c, files, 0)));
    NewerThan(files, j, i);
  }

  /** The log files and the quarantine at one moment of a repair. */
  datatype Disk = Disk(files: seq<LogFile>, quarantine: map<string, seq<byte>>)

  /** The break file is truncated and `r` of the newer files are gone. */
  function Removing(files: seq<LogFile>, quarantine: map<string, seq<byte>>, stamp: string, j: nat, k: nat, r: nat): Disk
    requires j < |files| && k <= |files[j].data| && r <= |files| - j - 1
  {
    Disk(Sealed(files, j, k) + files[j + 1 + r..], quarantine[stamp := CutOff(files, j, k)])
  }

  /** What a crash inside a repair can leave: all files, with as much of the quarantine as was
      written; or the whole quarantine, the break file truncated and some newer files gone. */
  ghost predicate CrashPoint(files: seq<LogFile>, quarantine: map<string, seq<byte>>, stamp: string, j: nat, k: nat, disk: Disk)
    requires j < |files| && k <= |files[j].data|
  {
    || (exists m: nat :: m <= |CutOff(files, j, k)| && disk == Disk(files, quarantine[stamp := CutOff(files, j, k)[..m]]))
    || (exists r: nat :: r <= |files| - j - 1 && disk == Removing(files, quarantine, stamp, j, k, r))
  }

  /** Every moment of a repair is such a point for the break of the log. */
  ghost predicate CrashPoints(c: Codec, files: seq<LogFile>, quarantine: map<string, seq<byte>>, stamp: string, points: seq<Disk>) {
    forall j: nat, k: nat, i :: BreaksAt(c, files, j, k) && 0 <= i < |points| ==>
      CrashPoint(files, quarantine, stamp, j, k, points[i])
  }

  lemma WrittenPoint(files: seq<LogFile>, quarantine: map<string, seq<byte>>, stamp: string, j: nat, k: nat)
    requires j < |files| && k <= |files[j].data|
    ensures CrashPoint(files, quarantine, stamp, j, k, Disk(files, quarantine[stamp := CutOff(files, j, k)]))
  {
    var all := CutOff(files, j, k);
    assert all[..|all|] == all;
  }

  lemma PointsOfBreak(c: Codec, files: seq<LogFile>, quarantine: map<string, seq<byte>>, stamp: string, j: nat, k: nat, points: seq<Disk>)
    requires Sorted(files) && BreaksAt(c, files, j, k)
    requires forall i :: 0 <= i < |points| ==> CrashPoint(files, quarantine, stamp, j, k, points[i])
    ensures CrashPoints(c, files, quarantine, stamp, points)
  {
    hide BreaksAt, CrashPoint;
    forall l: nat, n: nat | BreaksAt(c, files, l, n) ensures l == j && n == k {
      BreakIsUnique(c, files, j, k, l, n);
    }
    assert j < |files| && k <= |files[j].data| by { BreakInside(c, files, j, k); }
  }

  lemma BreakInside(c: Codec, files: seq<LogFile>, j: nat, k: nat)
    requires BreaksAt(c, files, j, k)
    ensures j < |files| && k <= |files[j].data|
  {
  }

  /** The audit directory: its log files and what has been quarantined, by repair stamp. */
  class LogDirectory {
    var files: seq<LogFile>
    var quarantine: map<string, seq<byte>>

    constructor (files: seq<LogFile>)
      ensures this.files == files && quarantine == map[]
    {
      this.files := files;
      quarantine := map[];
    }

    /** Repairs a broken tail by cutting the log exactly where the first record that does not link
        starts; refuses everything else, touching nothing then.  `points` is the directory after each
        change. */
    method RepairTail(c: Codec, stamp: string) returns (result: RepairResult, ghost points: seq<Disk>)
      requires Sorted(files)
      modifies this
      ensures var report := old(VerifyFiles(c, files));
        if report.status != BrokenTail then
          result == Refused(report.status) && files == old(files) && quarantine == old(quarantine)
        else
          && result.Repaired?
          && IsRepair(c, old(files), files, result.manifest)
          && stamp in quarantine && quarantine == old(quarantine)[stamp := quarantine[stamp]]
          && CutAtBreak(c, old(files), files, quarantine[stamp])
          && AllBytes(files) + quarantine[stamp] == AllBytes(old(files))
          && result.manifest.corruptHash == c.digest(quarantine[stamp])
          && CrashPoints(c, old(files), old(quarantine), stamp, points)
          && |points| > 0 && points[|points| - 1] == Disk(files, quarantine)
    {
      hide Classify, RecordsOf, IsRepair, CrashPoint, CrashPoints, BreaksAt;
      points := [];
      var records := ReadRecords(c, files);
      var report := ClassifyRecords(c, records);
      if report.status != BrokenTail || !report.repairable {
        assert report.status != BrokenTail by { RepairableIffBroken(c, records); }
        return Refused(report.status), [];
      }
      BrokenTailHasBreak(c, records);
      var firstInvalid := report.firstInvalid.value;
      var breakRecord := records[firstInvalid];
      ghost var j, k := BreakPoint(c, files, firstInvalid);
      ghost var before := files;

      var kept, breakFile, newerFiles := SplitAtFile(files, breakRecord.file, j);
      var corruptTail := breakFile.data[breakRecord.byteStart..];
      var newerBytes, removed := Collect(newerFiles);
      var quarantined := corruptTail + newerBytes;
      ghost var q := quarantine;
      quarantine := quarantine[stamp := quarantined];
      points := [Disk(files, quarantine)];
      var sealed := breakFile.(data := breakFile.data[..breakRecord.byteStart]);
      ghost var later := SealAndUnlink(kept, sealed, newerFiles, stamp, before, j, k, q);
      WrittenPoint(before, q, stamp, j, k);
      points := points + later;
      SealedPlusCutOff(before, j, k);
      BreakFound(c, before, j, k);
      PointsOfBreak(c, before, q, stamp, j, k, points);
      var post := VerifyPath(c, files);
      result := Repaired(Manifest(report.recordsTotal, report.recordsValid, report.lastValid, report.lastValidHash,
                                  firstInvalid, c.digest(quarantined), sealed.date, removed, report.lastValidHash,
                                  post.status, post.recordsTotal));
      RepairHolds(c, before, files, j, k, result.manifest);
    }

    /** Truncates the break file, then removes the newer files one by one. */
    method SealAndUnlink(older: seq<LogFile>, sealed: LogFile, newer: seq<LogFile>, stamp: string,
                         ghost before: seq<LogFile>, ghost j: nat, ghost k: nat, ghost q: map<string, seq<byte>>)
      returns (ghost points: seq<Disk>)
      requires j < |before| && k <= |before[j].data|
      requires older + [sealed] == Sealed(before, j, k) && newer == before[j + 1..]
      requires quarantine == q[stamp := CutOff(before, j, k)]
      modifies this`files
      ensures files == Sealed(before, j, k)
      ensures |points| > 0 && points[|points| - 1] == Disk(files, quarantine)
      ensures forall i :: 0 <= i < |points| ==> CrashPoint(before, q, stamp, j, k, points[i])
    {
      var n := |older| + 1;
      files := older + [sealed] + newer;
      points := [Disk(files, quarantine)];
      assert before[j + 1 + 0..] == newer;
      assert points[0] == Removing(before, q, stamp, j, k, 0);
      for r := 0 to |newer|
        invariant files == Sealed(before, j, k) + newer[r..]
        invariant |points| == r + 1 && points[r] == Disk(files, quarantine)
        invariant forall i :: 0 <= i <= r ==> CrashPoint(before, q, stamp, j, k, points[i])
      {
        hide CrashPoint, CutOff;
        files := files[..n] + files[n + 1..];
        assert files == Sealed(before, j, k) + newer[r + 1..];
        RemovedPoint(before, q, stamp, j, k, r + 1);
        assert newer[r + 1..] == before[j + 1 + (r + 1)..];
        points := points + [Disk(files, quarantine)];
      }
      assert newer[|newer|..] == [];
    }
  }

  lemma RemovedPoint(files: seq<LogFile>, quarantine: map<string, seq<byte>>, stamp: string, j: nat, k: nat, r: nat)
    requires j < |files| && k <= |files[j].data| && r <= |files| - j - 1
    ensures CrashPoint(files, quarantine, stamp, j, k, Removing(files, quarantine, stamp, j, k, r))
  {
  }

  /** The file that holds the break, the files named before it and the files named after it. */
  method SplitAtFile(files: seq<LogFile>, name: int, ghost j: nat)
    returns (older: seq<LogFile>, breakFile: LogFile, newer: seq<LogFile>)
    requires Sorted(files) && j < |files| && files[j].date == name
    ensures older == files[..j] && breakFile == files[j] && newer == files[j + 1..]
  {
    older, newer := [], [];
    breakFile := files[0];
    for i := 0 to |files|
      invariant i > j ==> breakFile == files[j]
      invariant older == files[..if i <= j then i else j]
      invariant newer == files[if i <= j then i else j + 1..i]
    {
      NewerThan(files, j, i);
      if files[i].date == name {
        breakFile := files[i];
      } else if files[i].date > name {
        newer := newer + [files[i]];
      } else {
        older := older + [files[i]];
      }
    }
  }

  /** The contents of the files that are moved to quarantine, and their names. */
  method Collect(files: seq<LogFile>) returns (data: seq<byte>, names: seq<int>)
    ensures data == AllBytes(files)
    ensures |names| == |files| && forall n :: 0 <= n < |files| ==> names[n] == files[n].date
  {
    data, names := [], [];
    for i := 0 to |files|
      invariant |names| == i && forall n :: 0 <= n < i ==> names[n] == files[n].date
      invariant AllBytes(files) == data + AllBytes(files[i..])
    {
      assert files[i..][0] == files[i] && files[i..][1..] == files[i + 1..];
      Regroup(data, files[i].data, AllBytes(files[i + 1..]));
      data := data + files[i].data;
      names := names + [files[i].date];
    }
    assert data + AllBytes([]) == data;
  }

  /** What a repair achieves: the files re-read to exactly the valid prefix, which verifies with
      the reported tip; every sealed file is byte for byte a prefix of what it was. */
  ghost predicate IsRepair(c: Codec, before: seq<LogFile>, after: seq<LogFile>, m: Manifest) {
    var recs := RecordsOf(c, before, 0);
    var f := FirstBreak(c, recs);
    && 0 < f < |recs|
    && RecordsOf(c, after, 0) == recs[..f]
    && VerifyFiles(c, after).status == Valid
    && VerifyFiles(c, after).lastValidHash == VerifyFiles(c, before).lastValidHash == m.lastValidHash
    && m.newSegmentAnchor == m.lastValidHash
    && m.recordsValid == m.postRecords == m.corruptFrom == f
    && m.recordsTotal == |recs|
    && m.lastValidRecord == Some(f - 1)
    && m.postStatus == Valid
    && 0 < |after| <= |before|
    && m.sealedFile == after[|after| - 1].date
    && |m.removedFiles| == |before| - |after|
    && (forall i :: 0 <= i < |m.removedFiles| ==> m.removedFiles[i] == before[|after| + i].date)
    && after[..|after| - 1] == before[..|after| - 1]
    && after[|after| - 1].date == before[|after| - 1].date
    && after[|after| - 1].data <= before[|after| - 1].data
    && Terminated(after[|after| - 1].data)
  }

  lemma RepairableIffBroken(c: Codec, recs: seq<Record>)
    ensures Classify(c, recs).repairable <==> Classify(c, recs).status == BrokenTail
  {
    hide HasCoherentContinuation, SuffixBytes, Links;
  }

  lemma BrokenTailHasBreak(c: Codec, recs: seq<Record>)
    requires Classify(c, recs).status == BrokenTail
    ensures var f := FirstBreak(c, recs);
      && 0 < f < |recs|
      && Classify(c, recs).recordsTotal == |recs|
      && Classify(c, recs).firstInvalid == Some(f as nat)
      && Classify(c, recs).recordsValid == f
      && Classify(c, recs).lastValid == Some((f - 1) as nat)
      && Classify(c, recs).lastValidHash == ChainHash(c, recs[f - 1])
  {
    hide HasCoherentContinuation, SuffixBytes, Links, ChainHash, Genesis;
  }

  /** The valid prefix verifies, with the tip that the classifier reported. */
  lemma PrefixVerifies(c: Codec, recs: seq<Record>, f: nat)
    requires 0 < f < |recs| && f == FirstBreak(c, recs)
    ensures Classify(c, recs[..f]).status == Valid
    ensures Classify(c, recs[..f]).lastValidHash == ChainHash(c, recs[f - 1])
    ensures Classify(c, recs[..f]).recordsTotal == f
  {
    hide Links, ChainHash, Genesis, CountGenesis;
    ValidPrefixes(c, recs, f);
    assert recs[..f][f - 1] == recs[f - 1];
  }

  lemma RepairHolds(c: Codec, before: seq<LogFile>, after: seq<LogFile>, j: nat, k: nat, m: Manifest)
    requires VerifyFiles(c, before).status == BrokenTail
    requires j < |before| && k <= |before[j].data| && after == Sealed(before, j, k)
    requires Terminated(before[j].data[..k])
    requires var recs := RecordsOf(c, before, 0);
      RecordsOf(c, after, 0) == recs[..Classify(c, recs).recordsValid]
    requires var report, post := VerifyFiles(c, before), VerifyFiles(c, after);
      && report.firstInvalid.Some?
      && m.recordsTotal == report.recordsTotal && m.recordsValid == report.recordsValid
      && m.lastValidRecord == report.lastValid && m.lastValidHash == report.lastValidHash
      && m.corruptFrom == report.firstInvalid.value && m.sealedFile == before[j].date
      && m.newSegmentAnchor == report.lastValidHash
      && m.postStatus == post.status && m.postRecords == post.recordsTotal
    requires |m.removedFiles| == |before| - j - 1
    requires forall i :: 0 <= i < |m.removedFiles| ==> m.removedFiles[i] == before[j + 1 + i].date
    ensures IsRepair(c, before, after, m)
  {
    hide Classify, RecordsOf, FirstBreak, ChainHash;
    var recs := RecordsOf(c, before, 0);
    BrokenTailHasBreak(c, recs);
    var f := FirstBreak(c, recs);
    PrefixVerifies(c, recs, f);
  }

  /** Nothing that is quarantined continues the log: past the break a record links exactly when it
      carries the hash of the line before it and that line is no JSON object; none opens a segment
      or follows an object coherently. */
  lemma NothingLostAfterBreak(c: Codec, recs: seq<Record>, i: nat)
    requires Classify(c, recs).status == BrokenTail
    requires FirstBreak(c, recs) <= i < |recs|
    ensures i == FirstBreak(c, recs) ==> !Links(c, recs, i)
    ensures i > FirstBreak(c, recs) ==>
      && !CoherentAt(c, recs, i)
      && (Links(c, recs, i) <==> Carries(recs[i], ChainHash(c, recs[i - 1])) && recs[i - 1].parsed.None?)
  {
    hide Genesis, ChainHash, SuffixBytes;
    BrokenTailHasBreak(c, recs);
    assert !HasCoherentContinuation(c, recs, FirstBreak(c, recs));
    if i > FirstBreak(c, recs) {
      assert !CoherentAt(c, recs, i);
    }
  }

  // ---------------------------------------------------------------- the two suffix digests

  /** Every physical line from byte `start` on holds a record. */
  predicate NoBlankFrom(f: LogFile, start: nat)
    decreases |f.data| - start
  {
    start < |f.data| ==>
      !Blank(f.data[start..NextLF(f.data, start)]) && NoBlankFrom(f, LineEnd(f.data, start))
  }

  lemma RawBytesConcat(a: seq<Record>, b: seq<Record>)
    ensures RawBytes(a + b) == RawBytes(a) + RawBytes(b)
    decreases |a|
  {
    if |a| == 0 {
      assert a + b == b;
    } else {
      assert (a + b)[0] == a[0] && (a + b)[1..] == a[1..] + b;
      RawBytesConcat(a[1..], b);
      Regroup(LineBytes(a[0]), RawBytes(a[1..]), RawBytes(b));
    }
  }

  /** The bytes of the record at `start` are the bytes of its line, newline included. */
  lemma LineBytesAt(c: Codec, f: LogFile, start: nat, index: nat)
    requires start < |f.data|
    ensures var here := RecordAt(c, f, start, index);
      && |here| == (if Blank(f.data[start..NextLF(f.data, start)]) then 0 else 1)
      && (|here| == 1 ==> RawBytes(here) == f.data[start..LineEnd(f.data, start)])
  {
    hide Blank, Parsed;
    var here := RecordAt(c, f, start, index);
    if |here| == 1 {
      assert RawBytes(here) == LineBytes(here[0]) + RawBytes(here[1..]);
      assert here[1..] == [];
      assert LineBytes(here[0]) == f.data[start..LineEnd(f.data, start)];
    }
  }

  /** One line and what follows it, as bytes. */
  lemma BytesStep(here: seq<Record>, rest: seq<Record>, a: seq<byte>, b: seq<byte>, clean: bool)
    requires |here| <= 1 && |a| > 0 && (|here| == 1 ==> RawBytes(here) == a)
    requires |RawBytes(rest)| <= |b| && (clean <==> RawBytes(rest) == b) && (!clean ==> |RawBytes(rest)| < |b|)
    ensures |RawBytes(here + rest)| <= |a| + |b|
    ensures if |here| == 1 && clean then RawBytes(here + rest) == a + b else |RawBytes(here + rest)| < |a| + |b|
  {
    RawBytesConcat(here, rest);
    if |here| == 0 {
      assert here + rest == rest;
    }
  }

  /** The records from `start` on account for all bytes there iff no line is blank. */
  lemma {:induction false} RecordBytesOfFile(c: Codec, f: LogFile, start: nat, index: nat)
    requires start <= |f.data|
    ensures |RawBytes(RecordsFrom(c, f, start, index))| <= |f.data| - start
    ensures NoBlankFrom(f, start) ==> RawBytes(RecordsFrom(c, f, start, index)) == f.data[start..]
    ensures !NoBlankFrom(f, start) ==> |RawBytes(RecordsFrom(c, f, start, index))| < |f.data| - start
    decreases |f.data| - start
  {
    hide RecordAt, Blank, LineEnd, RawBytes;
    if start < |f.data| {
      var here := RecordAt(c, f, start, index);
      var end := LineEnd(f.data, start);
      var rest := RecordsFrom(c, f, end, index + |here|);
      LineBytesAt(c, f, start, index);
      RecordBytesOfFile(c, f, end, index + |here|);
      BytesStep(here, rest, f.data[start..end], f.data[end..], NoBlankFrom(f, end));
      assert f.data[start..] == f.data[start..end] + f.data[end..];
    } else {
      assert f.data[start..] == [];
      NoRecordsNoBytes();
    }
  }

  lemma NoRecordsNoBytes()
    ensures RawBytes([]) == []
  {
  }

  lemma {:induction false} RecordBytesOfFiles(c: Codec, files: seq<LogFile>, index: nat)
    ensures var all := (forall i :: 0 <= i < |files| ==> NoBlankFrom(files[i], 0));
      && |RawBytes(RecordsOf(c, files, index))| <= |AllBytes(files)|
      && (all ==> RawBytes(RecordsOf(c, files, index)) == AllBytes(files))
      && (!all ==> |RawBytes(RecordsOf(c, files, index))| < |AllBytes(files)|)
    decreases |files|
  {
    hide RecordsFrom, NoBlankFrom;
    if |files| > 0 {
      var first := FileRecords(c, files[0], index);
      var rest := RecordsOf(c, files[1..], index + |first|);
      RecordBytesOfFile(c, files[0], 0, index);
      RecordBytesOfFiles(c, files[1..], index + |first|);
      RawBytesConcat(first, rest);
      assert files[0].data[0..] == files[0].data;
      assert forall i :: 0 < i < |files| ==> files[i] == files[1..][i - 1];
      assert forall i :: 0 <= i < |files[1..]| ==> files[1..][i] == files[i + 1];
    }
  }

  /** No line that a cut at byte `k` of file `j` quarantines is blank. */
  predicate NoBlankAfter(files: seq<LogFile>, j: nat, k: nat)
    requires j < |files|
  {
    NoBlankFrom(files[j], k) && forall i :: j < i < |files| ==> NoBlankFrom(files[i], 0)
  }

  /** The report digests the corrupt records, the manifest digests the quarantined bytes.  The two
      digest the same bytes exactly when the quarantined bytes contain no blank line. */
  lemma SuffixBytesAgree(c: Codec, files: seq<LogFile>, j: nat, k: nat)
    requires Sorted(files) && BreaksAt(c, files, j, k)
    ensures var recs := RecordsOf(c, files, 0);
      SuffixBytes(recs, FirstBreak(c, recs)) == CutOff(files, j, k) <==> NoBlankAfter(files, j, k)
  {
    hide RecordsFrom, RecordsOf, NoBlankFrom, FirstBreak, Sealed;
    SealedAtBreak(c, files, j, k);
    var f: nat := FirstBreak(c, RecordsOf(c, files, 0));
    var newer, n := files[j + 1..], f + |RecordsFrom(c, files[j], k, f)|;
    RecordsAfterCut(c, files, f, j, k);
    RawBytesConcat(RecordsFrom(c, files[j], k, f), RecordsOf(c, newer, n));
    RecordBytesOfFile(c, files[j], k, f);
    RecordBytesOfFiles(c, newer, n);
    assert forall i :: j < i < |files| ==> files[i] == newer[i - j - 1];
    assert forall i :: 0 <= i < |newer| ==> newer[i] == files[i + j + 1];
  }

  /** So, after any repair, the digest in the report on the broken log is the digest in the
      manifest exactly when no quarantined line is blank. */
  lemma SuffixDigestsAgree(c: Codec, before: seq<LogFile>, after: seq<LogFile>, quarantined: seq<byte>, m: Manifest,
                           j: nat, k: nat)
    requires CollisionFree(c) && Sorted(before) && VerifyFiles(c, before).status == BrokenTail
    requires CutAtBreak(c, before, after, quarantined) && m.corruptHash == c.digest(quarantined)
    requires BreaksAt(c, before, j, k)
    ensures VerifyFiles(c, before).corruptSuffix == Some(m.corruptHash) <==> NoBlankAfter(before, j, k)
  {
    hide RecordsOf, FirstBreak, SuffixBytes, NoBlankAfter, Sealed, CutOff;
    var i: nat, l: nat :| BreaksAt(c, before, i, l) && after == Sealed(before, i, l) && quarantined == CutOff(before, i, l);
    BreakIsUnique(c, before, j, k, i, l);
    SuffixBytesAgree(c, before, j, k);
    SuffixDigest(c, RecordsOf(c, before, 0));
  }

  lemma SuffixDigest(c: Codec, recs: seq<Record>)
    requires Classify(c, recs).status == BrokenTail
    ensures FirstBreak(c, recs) >= 0
    ensures Classify(c, recs).corruptSuffix == Some(c.digest(SuffixBytes(recs, FirstBreak(c, recs))))
  {
    hide SuffixBytes, Links, HasCoherentContinuation;
  }

  /** The records from the break on are those read from the cut on. */
  lemma RecordsAfterCut(c: Codec, files: seq<LogFile>, f: nat, j: nat, k: nat)
    requires f <= |RecordsOf(c, files, 0)| && j < |files| && k <= |files[j].data| && Terminated(files[j].data[..k])
    requires RecordsOf(c, Sealed(files, j, k), 0) == RecordsOf(c, files, 0)[..f]
    ensures var tail := RecordsFrom(c, files[j], k, f);
      RecordsOf(c, files, 0)[f..] == tail + RecordsOf(c, files[j + 1..], f + |tail|)
  {
    hide RecordsFrom, Terminated;
    var g := files[j].(data := files[j].data[..k]);
    var before := RecordsOf(c, files[..j], 0);
    var head := FileRecords(c, g, |before|);
    SealedRecords(c, files, j, k, |before|);
    RecordsSplit(c, g, files[j], 0, |before|);
    var tail := RecordsFrom(c, files[j], k, f);
    SplitBefore(files, j);
    RecordsOfConcat(c, files[..j], files[j..], 0);
    SuffixOfConcat(before, head, tail, RecordsOf(c, files[j + 1..], f + |tail|));
  }

  lemma SplitBefore<T>(s: seq<T>, j: nat)
    requires j < |s|
    ensures s == s[..j] + s[j..] && s[j..][0] == s[j] && s[j..][1..] == s[j + 1..]
  {
  }

  lemma SuffixOfConcat<T>(a: seq<T>, b: seq<T>, d: seq<T>, e: seq<T>)
    ensures (a + ((b + d) + e))[|a| + |b|..] == d + e
  {
  }

  // ---------------------------------------------------------------- torn writes

  /** The record of a final partial line. */
  lemma PartialLineRecord(c: Codec, whole: LogFile, start: nat, frag: Line, index: nat)
    requires start <= |whole.data| && whole.data[start..] == frag
    requires LF !in frag && !Blank(frag) && |frag| > 0
    ensures RecordsFrom(c, whole, start, index) ==
      [Record(index, whole.date, start, |whole.data|, frag, Parsed(c, frag))]
  {
    hide Blank, Parsed;
    assert forall i :: start <= i < |whole.data| ==> whole.data[i] == frag[i - start];
    assert NextLF(whole.data, start) == |whole.data|;
    assert LineEnd(whole.data, start) == |whole.data|;
    assert whole.data[start..|whole.data|] == frag;
    assert RecordsFrom(c, whole, |whole.data|, index + 1) == [];
  }

  /** A torn write at the end of a terminated file adds exactly one record. */
  lemma TornLineRecord(c: Codec, f: LogFile, frag: Line, index: nat)
    requires Terminated(f.data) && LF !in frag && !Blank(frag)
    ensures FileRecords(c, f.(data := f.data + frag), index) ==
      FileRecords(c, f, index) +
      [Record(index + |FileRecords(c, f, index)|, f.date, |f.data|, |f.data| + |frag|, frag, Parsed(c, frag))]
  {
    hide Blank, Parsed, RecordsFrom;
    assert |frag| > 0 by { if |frag| == 0 { EmptyIsBlank(frag); } }
    var whole := f.(data := f.data + frag);
    RecordsSplit(c, f, whole, 0, index);
    PartialLineRecord(c, whole, |f.data|, frag, index + |FileRecords(c, f, index)|);
  }

  lemma EmptyIsBlank(s: Line)
    requires |s| == 0
    ensures Blank(s)
  {
  }

  /** The last file with a fragment written behind it. */
  function Torn(files: seq<LogFile>, frag: Line): seq<LogFile>
    requires |files| > 0
  {
    var m := |files| - 1;
    files[m := files[m].(data := files[m].data + frag)]
  }

  /** A fragment behind a newline-terminated valid log. */
  ghost predicate TornFrom(c: Codec, files: seq<LogFile>, frag: Line) {
    && Sorted(files) && |files| > 0 && Terminated(files[|files| - 1].data)
    && VerifyFiles(c, files).status == Valid
    && LF !in frag && !Blank(frag)
  }

  /** The fragment is a record that continues the log. */
  ghost predicate FragmentLinks(c: Codec, files: seq<LogFile>, frag: Line)
    requires |files| > 0
  {
    var all := RecordsOf(c, Torn(files, frag), 0);
    |all| > 0 && Links(c, all, |all| - 1)
  }

  /** A torn final write on a newline-terminated valid log is reported as a broken tail at the
      torn record, which starts where the log ended, unless the fragment happens to be a record
      that links. */
  lemma TornWrite(c: Codec, files: seq<LogFile>, frag: Line)
    requires TornFrom(c, files, frag)
    ensures var m := |files| - 1;
      var recs := RecordsOf(c, files, 0);
      var torn := Torn(files, frag);
      var all := RecordsOf(c, torn, 0);
      && |all| == |recs| + 1 && all[..|recs|] == recs && all[|recs|].raw == frag
      && VerifyFiles(c, torn).status == (if FragmentLinks(c, files, frag) then Valid else BrokenTail)
      && (!FragmentLinks(c, files, frag) ==>
            && VerifyFiles(c, torn).firstInvalid == Some(|recs| as nat)
            && VerifyFiles(c, torn).lastValidHash == VerifyFiles(c, files).lastValidHash
            && BreaksAt(c, torn, m, |files[m].data|))
  {
    hide Parsed, Links, RecordsOf, Classify;
    var m := |files| - 1;
    var f := files[m];
    var recs := RecordsOf(c, files, 0);
    var r := Record(|recs|, f.date, |f.data|, |f.data| + |frag|, frag, Parsed(c, frag));
    TornRecords(c, files, frag);
    AppendedVerdict(c, recs, r);
    if !FragmentLinks(c, files, frag) {
      BreakFound(c, Torn(files, frag), m, |f.data|);
    }
  }

  /** Whatever cuts a torn log at its break restores the files byte for byte and quarantines
      exactly the fragment. */
  lemma CutRestoresTornWrite(c: Codec, files: seq<LogFile>, frag: Line, after: seq<LogFile>, quarantined: seq<byte>)
    requires TornFrom(c, files, frag) && !FragmentLinks(c, files, frag)
    requires CutAtBreak(c, Torn(files, frag), after, quarantined)
    ensures after == files && quarantined == frag
  {
    hide RecordsOf, FirstBreak, FragmentLinks, Classify;
    var torn, m := Torn(files, frag), |files| - 1;
    TornWrite(c, files, frag);
    TornSorted(files, frag);
    var j: nat, k: nat :| BreaksAt(c, torn, j, k) && after == Sealed(torn, j, k) && quarantined == CutOff(torn, j, k);
    BreakIsUnique(c, torn, m, |files[m].data|, j, k);
    SealedTorn(files, frag);
  }

  lemma TornSorted(files: seq<LogFile>, frag: Line)
    requires Sorted(files) && |files| > 0
    ensures Sorted(Torn(files, frag))
  {
  }

  /** A torn final write is undone by the repair, byte for byte; a fragment that continues the log
      is left alone. */
  method RepairTornWrite(c: Codec, dir: LogDirectory, stamp: string, ghost files: seq<LogFile>, ghost frag: Line)
    returns (result: RepairResult)
    requires TornFrom(c, files, frag) && dir.files == Torn(files, frag)
    modifies dir
    ensures if FragmentLinks(c, files, frag) then
        result == Refused(Valid) && dir.files == old(dir.files) && dir.quarantine == old(dir.quarantine)
      else
        result.Repaired? && dir.files == files && dir.quarantine == old(dir.quarantine)[stamp := frag]
  {
    hide RecordsOf, FragmentLinks, Classify, IsRepair, CutAtBreak;
    TornWrite(c, files, frag);
    TornSorted(files, frag);
    ghost var points;
    result, points := dir.RepairTail(c, stamp);
    if !FragmentLinks(c, files, frag) {
      CutRestoresTornWrite(c, files, frag, dir.files, dir.quarantine[stamp]);
    }
  }

  lemma SealedTorn(files: seq<LogFile>, frag: Line)
    requires |files| > 0
    ensures var m := |files| - 1;
      && Sealed(Torn(files, frag), m, |files[m].data|) == files
      && CutOff(Torn(files, frag), m, |files[m].data|) == frag
  {
    var f := files[|files| - 1];
    assert (f.data + frag)[..|f.data|] == f.data && (f.data + frag)[|f.data|..] == frag;
  }

  /** The fragment is read as one more record. */
  lemma TornRecords(c: Codec, files: seq<LogFile>, frag: Line)
    requires |files| > 0 && Terminated(files[|files| - 1].data) && LF !in frag && !Blank(frag)
    ensures var m := |files| - 1;
      var f, n := files[m], |RecordsOf(c, files, 0)|;
      RecordsOf(c, Torn(files, frag), 0)
      == RecordsOf(c, files, 0) + [Record(n, f.date, |f.data|, |f.data| + |frag|, frag, Parsed(c, frag))]
  {
    hide RecordsFrom, Parsed;
    var m := |files| - 1;
    var f := files[m];
    var g := f.(data := f.data + frag);
    var before := RecordsOf(c, files[..m], 0);
    assert files == files[..m] + [f] && files[m := g] == files[..m] + [g];
    RecordsOfConcat(c, files[..m], [f], 0);
    RecordsOfConcat(c, files[..m], [g], 0);
    OneFile(c, f, |before|);
    OneFile(c, g, |before|);
    TornLineRecord(c, f, frag, |before|);
    Regroup(before, FileRecords(c, f, |before|), [Record(|RecordsOf(c, files, 0)|, f.date, |f.data|, |f.data| + |frag|, frag, Parsed(c, frag))]);
  }

  /** Verdict on a valid chain with one more record. */
  lemma AppendedVerdict(c: Codec, recs: seq<Record>, r: Record)
    requires recs != [] && ChainValid(c, recs)
    ensures var all := recs + [r];
      if Links(c, all, |recs|) then Classify(c, all).status == Valid
      else
        && Classify(c, all).status == BrokenTail
        && Classify(c, all).firstInvalid == Some(|recs| as nat)
        && Classify(c, all).lastValidHash == Classify(c, recs).lastValidHash
  {
    hide Links, ChainHash, Genesis, SuffixBytes, CountGenesis, CoherentAt;
    var all := recs + [r];
    ChainGrows(c, recs, r);
    if !Links(c, all, |recs|) {
      forall i | 0 <= i < |recs| ensures Links(c, all, i) {
        LinksAppend(c, recs, r, i);
      }
      assert FirstBreak(c, all) == |recs|;
      assert all[|recs| - 1] == recs[|recs| - 1];
    }
  }
}
