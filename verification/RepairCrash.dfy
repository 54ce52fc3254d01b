/** A repair that is cut off: no byte is lost at any point, and what a second repair then does. */
module RepairCrash {
  import opened Bytes
  import opened Codec
  import opened AuditRecords
  import opened AuditClassify
  import opened AuditRepair
  import opened StartupGate
  import opened TamperBytes

  /** At every moment of a repair either all files are as they were, or the sealed ones are there and
      the quarantine holds everything else: together the bytes of the original. No other quarantined
      bytes are touched. */
  lemma NoByteLost(files: seq<LogFile>, quarantine: map<string, seq<byte>>, stamp: string, j: nat, k: nat, disk: Disk)
    requires j < |files| && k <= |files[j].data| && CrashPoint(files, quarantine, stamp, j, k, disk)
    ensures disk.files != files ==>
      && Sealed(files, j, k) <= disk.files
      && stamp in disk.quarantine
      && AllBytes(Sealed(files, j, k)) + disk.quarantine[stamp] == AllBytes(files)
    ensures forall other :: other in quarantine && other != stamp ==>
      other in disk.quarantine && disk.quarantine[other] == quarantine[other]
  {
    hide AllBytes;
    SealedPlusCutOff(files, j, k);
  }

  // ---------------------------------------------------------------- what a cut-off repair leaves

  /** The records that a repair cut off after `r` removals has left behind the sealed ones. */
  function Left(c: Codec, files: seq<LogFile>, j: nat, r: nat, n: nat): seq<Record>
    requires j < |files| && r <= |files| - j - 1
  {
    RecordsOf(c, files[j + 1 + r..], n)
  }

  lemma RecordsLeft(c: Codec, files: seq<LogFile>, q: map<string, seq<byte>>, stamp: string, j: nat, k: nat, r: nat)
    requires Sorted(files) && BreaksAt(c, files, j, k) && r <= |files| - j - 1
    ensures var recs := RecordsOf(c, files, 0);
      var f := FirstBreak(c, recs);
      RecordsOf(c, Removing(files, q, stamp, j, k, r).files, 0) == recs[..f] + Left(c, files, j, r, f)
  {
    hide RecordsFrom, FirstBreak, Sealed;
    SealedAtBreak(c, files, j, k);
    RecordsOfConcat(c, Sealed(files, j, k), files[j + 1 + r..], 0);
  }

  /** In the whole log the same records come last, behind the record of the break. */
  lemma LeftIsSuffix(c: Codec, files: seq<LogFile>, j: nat, k: nat, r: nat) returns (p: nat)
    requires Sorted(files) && BreaksAt(c, files, j, k) && r <= |files| - j - 1
    ensures var recs := RecordsOf(c, files, 0);
      var f := FirstBreak(c, recs);
      && f < p <= |recs| && Alike(recs[p..], Left(c, files, j, r, f))
      && (p < |recs| ==> SegmentStart(recs, p) && recs[p].file > files[j].date)
  {
    hide RecordsFrom, FirstBreak, Alike;
    var recs := RecordsOf(c, files, 0);
    var f := FirstBreak(c, recs);
    var m := j + 1 + r;
    var front := RecordsOf(c, files[..m], 0);
    p := |front|;
    assert files == files[..m] + files[m..];
    RecordsOfConcat(c, files[..m], files[m..], 0);
    assert recs[p..] == RecordsOf(c, files[m..], p);
    Renumbered(c, files[m..], p, f);
    BreakInFront(c, files, j, k, m);
    OpensFile(c, files, m);
  }

  /** The records of the first `m` files and those of the others, which are dated later. */
  lemma SplitRecords(c: Codec, files: seq<LogFile>, m: nat) returns (front: seq<Record>, back: seq<Record>)
    requires Sorted(files) && 0 < m <= |files|
    ensures front == RecordsOf(c, files[..m], 0) && RecordsOf(c, files, 0) == front + back
    ensures forall i :: 0 <= i < |front| ==> front[i].file <= files[m - 1].date
    ensures forall i :: 0 <= i < |back| ==> back[i].file > files[m - 1].date
  {
    hide RecordsOf;
    front := RecordsOf(c, files[..m], 0);
    back := RecordsOf(c, files[m..], |front|);
    assert files == files[..m] + files[m..];
    RecordsOfConcat(c, files[..m], files[m..], 0);
    LaterFiles(files, m);
    RecordDates(c, files[m..], |front|, files[m - 1].date);
    DatesUpTo(c, files[..m], 0, files[m - 1].date);
  }

  lemma LaterFiles(files: seq<LogFile>, m: nat)
    requires Sorted(files) && 0 < m <= |files|
    ensures Sorted(files[m..]) && forall i :: 0 <= i < |files[m..]| ==> files[m..][i].date > files[m - 1].date
    ensures forall i :: 0 <= i < |files[..m]| ==> files[..m][i].date <= files[m - 1].date
  {
  }

  lemma BreakInFront(c: Codec, files: seq<LogFile>, j: nat, k: nat, m: nat)
    requires Sorted(files) && BreaksAt(c, files, j, k) && j < m <= |files|
    ensures FirstBreak(c, RecordsOf(c, files, 0)) < |RecordsOf(c, files[..m], 0)|
  {
    hide RecordsOf, FirstBreak;
    var recs := RecordsOf(c, files, 0);
    var f := FirstBreak(c, recs);
    var front, back := SplitRecords(c, files, m);
    assert files[j].date <= files[m - 1].date;
    assert forall i :: |front| <= i < |recs| ==> recs[i] == back[i - |front|];
  }

  lemma OpensFile(c: Codec, files: seq<LogFile>, m: nat)
    requires Sorted(files) && 0 < m <= |files|
    ensures var recs, p := RecordsOf(c, files, 0), |RecordsOf(c, files[..m], 0)|;
      p <= |recs| && (p < |recs| ==> recs[p].file > files[m - 1].date && SegmentStart(recs, p))
  {
    hide RecordsOf;
    var recs := RecordsOf(c, files, 0);
    var front, back := SplitRecords(c, files, m);
    if |front| < |recs| {
      assert recs[|front|] == back[0];
      assert |front| > 0 ==> recs[|front| - 1] == front[|front| - 1];
    }
  }

  lemma {:induction false} DatesUpTo(c: Codec, files: seq<LogFile>, index: nat, day: int)
    requires forall i :: 0 <= i < |files| ==> files[i].date <= day
    ensures forall i :: 0 <= i < |RecordsOf(c, files, index)| ==> RecordsOf(c, files, index)[i].file <= day
    decreases |files|
  {
    hide RecordsFrom;
    if |files| > 0 {
      var first := FileRecords(c, files[0], index);
      var rest := RecordsOf(c, files[1..], index + |first|);
      FileOfRecords(c, files[0], index);
      DatesUpTo(c, files[1..], index + |first|, day);
      var recs := RecordsOf(c, files, index);
      assert recs == first + rest;
      assert forall i :: |first| <= i < |recs| ==> recs[i] == rest[i - |first|];
    }
  }

  /** Verdict on the records before the break followed by what is left. */
  lemma LeftVerdict(c: Codec, recs: seq<Record>, p: nat, left: seq<Record>)
    requires Classify(c, recs).status == BrokenTail
    requires var f := FirstBreak(c, recs); f < p <= |recs| && Alike(recs[p..], left)
    requires p < |recs| ==> SegmentStart(recs, p) && recs[p].file != recs[FirstBreak(c, recs) - 1].file
    ensures var f := FirstBreak(c, recs);
      var rep := Classify(c, recs[..f] + left);
      var tip := ChainHash(c, recs[f - 1]);
      && (left == [] ==> rep.status == Valid && rep.lastValidHash == tip)
      && (left != [] && !Carries(left[0], tip) ==>
            rep.status == BrokenTail && rep.firstInvalid == Some(f as nat) && rep.lastValidHash == tip)
      && (left != [] && Carries(left[0], tip) ==> rep.firstInvalid.Some? ==> rep.firstInvalid.value > f)
  {
    hide ChainHash, Genesis, SuffixBytes, CountGenesis, Classify;
    BrokenTailHasBreak(c, recs);
    var f := FirstBreak(c, recs);
    var all := recs[..f] + left;
    if left == [] {
      assert all == recs[..f];
      PrefixVerifies(c, recs, f);
    } else {
      NoEarlierBreak(c, recs, f, left);
      FirstLeft(c, recs, p, left);
      if !Carries(left[0], ChainHash(c, recs[f - 1])) {
        forall i | f < i < |all| ensures !CoherentAt(c, all, i) {
          LaterLeft(c, recs, p, left, i);
        }
        BrokenAgain(c, all, f);
        assert all[f - 1] == recs[f - 1];
      } else {
        LaterBreak(c, all, f);
      }
    }
  }

  lemma NoEarlierBreak(c: Codec, recs: seq<Record>, f: nat, left: seq<Record>)
    requires 0 < f == FirstBreak(c, recs) < |recs|
    ensures forall i :: 0 <= i < f ==> Links(c, recs[..f] + left, i)
  {
    hide ChainHash, Genesis;
    var all := recs[..f] + left;
    forall i | 0 <= i < f ensures Links(c, all, i) {
      assert Links(c, recs, i);
      assert all[i] == recs[i] && (i > 0 ==> all[i - 1] == recs[i - 1]);
    }
  }

  /** The first record left opens its file, and no genesis segment. */
  lemma FirstLeft(c: Codec, recs: seq<Record>, p: nat, left: seq<Record>)
    requires Classify(c, recs).status == BrokenTail && left != []
    requires var f := FirstBreak(c, recs); 0 < f < p <= |recs| && Alike(recs[p..], left)
    requires p < |recs| ==> SegmentStart(recs, p) && recs[p].file != recs[FirstBreak(c, recs) - 1].file
    ensures var f := FirstBreak(c, recs);
      Links(c, recs[..f] + left, f) <==> Carries(left[0], ChainHash(c, recs[f - 1]))
  {
    hide ChainHash, Genesis, Classify;
    var f := FirstBreak(c, recs);
    NothingLostAfterBreak(c, recs, p);
    assert AlikeAt(recs[p..][0], left[0]);
    assert recs[p..][0] == recs[p];
    assert !Carries(recs[p], Genesis(c));
    var all := recs[..f] + left;
    assert all[f] == left[0] && all[f - 1] == recs[f - 1];
  }

  lemma LaterLeft(c: Codec, recs: seq<Record>, p: nat, left: seq<Record>, i: nat)
    requires Classify(c, recs).status == BrokenTail
    requires var f := FirstBreak(c, recs); 0 < f < p <= |recs| && Alike(recs[p..], left) && f < i < f + |left|
    ensures !CoherentAt(c, recs[..FirstBreak(c, recs)] + left, i)
  {
    hide Genesis, ChopCR, Classify;
    var f := FirstBreak(c, recs);
    var n := i - f;
    NothingLostAfterBreak(c, recs, p + n);
    var all := recs[..f] + left;
    assert AlikeAt(recs[p..][n], left[n]) && AlikeAt(recs[p..][n - 1], left[n - 1]);
    assert recs[p..][n] == recs[p + n] && recs[p..][n - 1] == recs[p + n - 1];
    assert all[i] == left[n] && all[i - 1] == left[n - 1];
  }

  lemma BrokenAgain(c: Codec, all: seq<Record>, f: nat)
    requires 0 < f < |all| && !Links(c, all, f) && forall i :: 0 <= i < f ==> Links(c, all, i)
    requires forall i :: f < i < |all| ==> !CoherentAt(c, all, i)
    ensures var rep := Classify(c, all);
      rep.status == BrokenTail && rep.firstInvalid == Some(f) && rep.lastValidHash == ChainHash(c, all[f - 1])
  {
    hide Links, CoherentAt, SuffixBytes, ChainHash, Genesis;
    assert FirstBreak(c, all) == f;
  }

  lemma LaterBreak(c: Codec, all: seq<Record>, f: nat)
    requires f < |all| && forall i :: 0 <= i <= f ==> Links(c, all, i)
    ensures Classify(c, all).firstInvalid.Some? ==> Classify(c, all).firstInvalid.value > f
  {
    hide Links, CoherentAt, SuffixBytes, ChainHash, Genesis, CountGenesis;
  }

  /** The verdict on a directory that a cut-off repair left after `r` removals: valid when no record is
      left behind the sealed ones; a broken tail at the same record with the same tip when the first
      one left does not carry that tip, and only then. */
  lemma CutOffVerdict(c: Codec, files: seq<LogFile>, q: map<string, seq<byte>>, stamp: string, j: nat, k: nat, r: nat)
    requires Sorted(files) && VerifyFiles(c, files).status == BrokenTail && BreaksAt(c, files, j, k) && r <= |files| - j - 1
    ensures var f := FirstBreak(c, RecordsOf(c, files, 0));
      var tip, left := VerifyFiles(c, files).lastValidHash, Left(c, files, j, r, f);
      var rep := VerifyFiles(c, Removing(files, q, stamp, j, k, r).files);
      && (left == [] ==> rep.status == Valid && rep.lastValidHash == tip)
      && (left != [] && !Carries(left[0], tip) ==>
            rep.status == BrokenTail && rep.firstInvalid == Some(f as nat) && rep.lastValidHash == tip)
      && (left != [] && Carries(left[0], tip) ==> rep.firstInvalid.Some? ==> rep.firstInvalid.value > f)
  {
    hide RecordsOf, FirstBreak, Sealed, Alike, Classify;
    var recs := RecordsOf(c, files, 0);
    var f := FirstBreak(c, recs);
    BrokenTailHasBreak(c, recs);
    RecordsLeft(c, files, q, stamp, j, k, r);
    var p := LeftIsSuffix(c, files, j, k, r);
    LastSealedFile(c, files, j, k);
    LeftVerdict(c, recs, p, Left(c, files, j, r, f));
  }

  /** The last valid record lies in the break file or an older one. */
  lemma LastSealedFile(c: Codec, files: seq<LogFile>, j: nat, k: nat)
    requires Sorted(files) && BreaksAt(c, files, j, k)
    ensures var recs, f := RecordsOf(c, files, 0), FirstBreak(c, RecordsOf(c, files, 0));
      f > 0 ==> recs[f - 1].file <= files[j].date
  {
    hide RecordsOf, FirstBreak, Sealed;
    var recs := RecordsOf(c, files, 0);
    var f := FirstBreak(c, recs);
    SealedAtBreak(c, files, j, k);
    var sealed := Sealed(files, j, k);
    SealedDates(files, j, k);
    DatesUpTo(c, sealed, 0, files[j].date);
    if f > 0 {
      assert recs[..f][f - 1] == recs[f - 1];
    }
  }

  lemma SealedDates(files: seq<LogFile>, j: nat, k: nat)
    requires Sorted(files) && j < |files| && k <= |files[j].data|
    ensures forall i :: 0 <= i < |Sealed(files, j, k)| ==> Sealed(files, j, k)[i].date <= files[j].date
    ensures Sorted(Sealed(files, j, k))
  {
  }

  lemma RemovingSorted(files: seq<LogFile>, q: map<string, seq<byte>>, stamp: string, j: nat, k: nat, r: nat)
    requires Sorted(files) && j < |files| && k <= |files[j].data| && r <= |files| - j - 1
    ensures Sorted(Removing(files, q, stamp, j, k, r).files)
  {
    var all := Removing(files, q, stamp, j, k, r).files;
    forall i | 0 <= i < |all| ensures all[i].date == files[if i <= j then i else i + r].date {
    }
  }

  /** A second repair, under another stamp, of a directory that a first one left half done: the valid
      prefix of the original log is kept, and what both have quarantined is there.  Unless the first
      record left carried the tip, the log then is exactly that prefix. */
  method ResumeRepair(c: Codec, dir: LogDirectory, stamp: string, ghost files: seq<LogFile>, ghost q: map<string, seq<byte>>,
                      ghost first: string, ghost j: nat, ghost k: nat, ghost r: nat)
    returns (result: RepairResult)
    requires Sorted(files) && VerifyFiles(c, files).status == BrokenTail && BreaksAt(c, files, j, k) && r <= |files| - j - 1
    requires Disk(dir.files, dir.quarantine) == Removing(files, q, first, j, k, r) && stamp != first
    modifies dir
    ensures RecordsOf(c, files, 0)[..FirstBreak(c, RecordsOf(c, files, 0))] <= RecordsOf(c, dir.files, 0)
    ensures var f := FirstBreak(c, RecordsOf(c, files, 0));
      var tip, left := VerifyFiles(c, files).lastValidHash, Left(c, files, j, r, f);
      (left != [] ==> !Carries(left[0], tip)) ==>
        && RecordsOf(c, dir.files, 0) == RecordsOf(c, files, 0)[..f]
        && VerifyFiles(c, dir.files).status == Valid && VerifyFiles(c, dir.files).lastValidHash == tip
        && result.Repaired? == (left != [])
    ensures first in dir.quarantine && AllBytes(Sealed(files, j, k)) + dir.quarantine[first] == AllBytes(files)
    ensures if result.Repaired? then
        stamp in dir.quarantine && AllBytes(dir.files) + dir.quarantine[stamp] == AllBytes(old(dir.files))
      else dir.files == old(dir.files)
  {
    hide RecordsOf, FirstBreak, Sealed, Classify, AllBytes, CutOff, CutAtBreak, CrashPoints;
    CutOffVerdict(c, files, q, first, j, k, r);
    RecordsLeft(c, files, q, first, j, k, r);
    RemovingSorted(files, q, first, j, k, r);
    SealedPlusCutOff(files, j, k);
    ghost var recs := RecordsOf(c, files, 0);
    ghost var f := FirstBreak(c, recs);
    ghost var left := Left(c, files, j, r, f);
    ghost var points;
    result, points := dir.RepairTail(c, stamp);
    ghost var half := Removing(files, q, first, j, k, r).files;
    if left == [] {
      assert recs[..f] + left == recs[..f];
    } else if VerifyFiles(c, half).status == BrokenTail {
      SameBreak(c, half);
      KeepsFront(recs[..f], left, FirstBreak(c, RecordsOf(c, half, 0)));
    }
  }

  lemma KeepsFront(a: seq<Record>, b: seq<Record>, n: nat)
    requires |a| <= n <= |a| + |b|
    ensures a <= (a + b)[..n] && (n == |a| ==> (a + b)[..n] == a)
  {
  }

  lemma SameBreak(c: Codec, files: seq<LogFile>)
    requires VerifyFiles(c, files).status == BrokenTail
    ensures var f := FirstBreak(c, RecordsOf(c, files, 0));
      0 < f < |RecordsOf(c, files, 0)| && VerifyFiles(c, files).firstInvalid == Some(f as nat)
  {
    hide RecordsOf, FirstBreak, Classify;
    BrokenTailHasBreak(c, RecordsOf(c, files, 0));
  }
}
