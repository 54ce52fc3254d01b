/** Verifying the segmented hash chain (orchestrator/audit_integrity.py, `_segment_starts`,
    `_first_break`, `_has_coherent_continuation`, `classify`). */
module AuditClassify {
  import opened Bytes
  import opened Codec
  import opened AuditRecords

  datatype Status = Valid | Empty | BrokenTail | Interior

  datatype Report = Report(
    status: Status,
    recordsTotal: nat,
    recordsValid: nat,
    firstInvalid: Option<nat>,
    lastValid: Option<nat>,
    lastValidHash: Hash,
    repairable: bool,
    corruptSuffix: Option<Hash>,
    segments: nat)

  // ---------------------------------------------------------------- links

  /** First record of a file. */
  predicate SegmentStart(recs: seq<Record>, i: nat)
    requires i < |recs|
  {
    i == 0 || recs[i].file != recs[i - 1].file
  }

  predicate Carries(r: Record, h: Hash) {
    r.parsed.Some? && r.parsed.value.prevHash == Some(h)
  }

  /** The hash record `i` must carry to continue the chain. */
  function Anchor(c: Codec, recs: seq<Record>, i: nat): Hash
    requires i <= |recs|
  {
    if i == 0 then Genesis(c) else ChainHash(c, recs[i - 1])
  }

  predicate Links(c: Codec, recs: seq<Record>, i: nat)
    requires i < |recs|
  {
    Carries(recs[i], Anchor(c, recs, i)) || (SegmentStart(recs, i) && Carries(recs[i], Genesis(c)))
  }

  ghost predicate ChainValid(c: Codec, recs: seq<Record>) {
    forall i :: 0 <= i < |recs| ==> Links(c, recs, i)
  }

  function FirstBreakFrom(c: Codec, recs: seq<Record>, i: nat): (r: int)
    requires i <= |recs|
    ensures r == -1 || i <= r < |recs|
    ensures r == -1 ==> forall k :: i <= k < |recs| ==> Links(c, recs, k)
    ensures r >= 0 ==> !Links(c, recs, r) && forall k :: i <= k < r ==> Links(c, recs, k)
    decreases |recs| - i
  {
    if i == |recs| then -1 else if !Links(c, recs, i) then i else FirstBreakFrom(c, recs, i + 1)
  }

  /** Index of the first record that neither continues the chain nor opens a segment, or -1. */
  function FirstBreak(c: Codec, recs: seq<Record>): (r: int)
    ensures r == -1 <==> ChainValid(c, recs)
    ensures r >= 0 ==> r < |recs| && !Links(c, recs, r) && forall k :: 0 <= k < r ==> Links(c, recs, k)
    ensures r >= -1
  {
    FirstBreakFrom(c, recs, 0)
  }

  /** Record `i` follows on from a parsed predecessor, or opens a segment. */
  predicate CoherentAt(c: Codec, recs: seq<Record>, i: nat)
    requires 0 < i < |recs|
  {
    || (SegmentStart(recs, i) && Carries(recs[i], Genesis(c)))
    || (recs[i - 1].parsed.Some? && Carries(recs[i], ChainHash(c, recs[i - 1])))
  }

  predicate HasCoherentContinuation(c: Codec, recs: seq<Record>, firstInvalid: nat) {
    exists i :: firstInvalid < i < |recs| && CoherentAt(c, recs, i)
  }

  /** Raw bytes of the records from `from` on, each with its newline if it had one. */
  function SuffixBytes(recs: seq<Record>, from: nat): seq<byte>
    requires from <= |recs|
  {
    RawBytes(recs[from..])
  }

  function RawBytes(recs: seq<Record>): seq<byte>
    decreases |recs|
  {
    if |recs| == 0 then [] else LineBytes(recs[0]) + RawBytes(recs[1..])
  }

  function LineBytes(r: Record): seq<byte> {
    r.raw + (if r.byteEnd > r.byteStart + |r.raw| then [LF] else [])
  }

  function CountGenesis(c: Codec, recs: seq<Record>): nat
    decreases |recs|
  {
    if |recs| == 0 then 0
    else CountGenesis(c, recs[..|recs| - 1]) + if Carries(recs[|recs| - 1], Genesis(c)) then 1 else 0
  }

  // ---------------------------------------------------------------- the loops of the source

  method SegmentStarts(recs: seq<Record>) returns (flags: seq<bool>)
    ensures |flags| == |recs|
    ensures forall i :: 0 <= i < |recs| ==> flags[i] == SegmentStart(recs, i)
  {
    flags := [];
    var prevFile: Option<int> := None;
    for i := 0 to |recs|
      invariant |flags| == i
      invariant prevFile == if i == 0 then None else Some(recs[i - 1].file)
      invariant forall k :: 0 <= k < i ==> flags[k] == SegmentStart(recs, k)
    {
      flags := flags + [Some(recs[i].file) != prevFile];
      prevFile := Some(recs[i].file);
    }
  }

  method FindFirstBreak(c: Codec, recs: seq<Record>, segStarts: seq<bool>) returns (r: int)
    requires |segStarts| == |recs|
    requires forall i :: 0 <= i < |recs| ==> segStarts[i] == SegmentStart(recs, i)
    ensures r == FirstBreak(c, recs)
  {
    hide ChainHash, Genesis;
    var prev := Genesis(c);
    var i := 0;
    while i < |recs|
      invariant 0 <= i <= |recs|
      invariant prev == Anchor(c, recs, i)
      invariant FirstBreak(c, recs) == FirstBreakFrom(c, recs, i)
    {
      var rec := recs[i];
      if rec.parsed.None? {
        return i;
      }
      var ph := rec.parsed.value.prevHash;
      if ph == Some(prev) {
        prev := ChainHash(c, rec);
      } else if segStarts[i] && ph == Some(Genesis(c)) {
        prev := ChainHash(c, rec);
      } else {
        return i;
      }
      i := i + 1;
    }
    return -1;
  }

  method FindCoherentContinuation(c: Codec, recs: seq<Record>, segStarts: seq<bool>, firstInvalid: nat)
    returns (found: bool)
    requires |segStarts| == |recs|
    requires forall i :: 0 <= i < |recs| ==> segStarts[i] == SegmentStart(recs, i)
    ensures found == HasCoherentContinuation(c, recs, firstInvalid)
  {
    var i := firstInvalid + 1;
    while i < |recs|
      invariant firstInvalid < i
      invariant forall k :: firstInvalid < k < i && k < |recs| ==> !CoherentAt(c, recs, k)
    {
      var b := recs[i];
      if b.parsed.Some? {
        var ph := b.parsed.value.prevHash;
        if segStarts[i] && ph == Some(Genesis(c)) {
          assert CoherentAt(c, recs, i);
          return true;
        }
        var a := recs[i - 1];
        if a.parsed.Some? && ph == Some(ChainHash(c, a)) {
          assert CoherentAt(c, recs, i);
          return true;
        }
      }
      i := i + 1;
    }
    return false;
  }

  method HashSuffix(c: Codec, recs: seq<Record>, firstInvalid: nat) returns (h: Hash)
    requires firstInvalid <= |recs|
    ensures h == c.digest(SuffixBytes(recs, firstInvalid))
  {
    var fed: seq<byte> := [];
    var i := firstInvalid;
    assert SuffixBytes(recs, firstInvalid) == fed + SuffixBytes(recs, i);
    while i < |recs|
      invariant firstInvalid <= i <= |recs|
      invariant SuffixBytes(recs, firstInvalid) == fed + SuffixBytes(recs, i)
    {
      assert recs[i..][0] == recs[i] && recs[i..][1..] == recs[i + 1..];
      ghost var before := fed;
      Regroup(before, LineBytes(recs[i]), SuffixBytes(recs, i + 1));
      fed := fed + recs[i].raw;
      if recs[i].byteEnd > recs[i].byteStart + |recs[i].raw| {
        fed := fed + [LF];
      }
      assert fed == before + LineBytes(recs[i]);
      i := i + 1;
    }
    assert fed + SuffixBytes(recs, |recs|) == fed;
    h := c.digest(fed);
  }

  // ---------------------------------------------------------------- classification

  /** The verdict on a list of records. */
  function Classify(c: Codec, recs: seq<Record>): (rep: Report)
    ensures rep.status == Empty <==> recs == []
    ensures rep.status == Valid <==> recs != [] && ChainValid(c, recs)
    ensures rep.status == BrokenTail ==>
              rep.repairable && rep.firstInvalid == Some(rep.recordsValid) && 0 < rep.recordsValid < |recs|
  {
    var total := |recs|;
    var f := FirstBreak(c, recs);
    if total == 0 then
      Report(Empty, 0, 0, None, None, Genesis(c), false, None, 0)
    else if f == -1 then
      Report(Valid, total, total, None, Some(recs[total - 1].index), ChainHash(c, recs[total - 1]), false, None,
             CountGenesis(c, recs))
    else
      var interior := f == 0 || HasCoherentContinuation(c, recs, f);
      Report(if interior then Interior else BrokenTail, total, f, Some(f),
             if f > 0 then Some(f - 1) else None, Anchor(c, recs, f), !interior,
             Some(c.digest(SuffixBytes(recs, f))), 0)
  }

  method ClassifyRecords(c: Codec, recs: seq<Record>) returns (rep: Report)
    ensures rep == Classify(c, recs)
  {
    var total := |recs|;
    if total == 0 {
      return Report(Empty, 0, 0, None, None, Genesis(c), false, None, 0);
    }
    var segStarts := SegmentStarts(recs);
    var firstInvalid := FindFirstBreak(c, recs, segStarts);
    if firstInvalid == -1 {
      var last := recs[total - 1];
      return Report(Valid, total, total, None, Some(last.index), ChainHash(c, last), false, None, CountGenesis(c, recs));
    }
    var recordsValid := firstInvalid;
    var lastValidHash := if firstInvalid > 0 then ChainHash(c, recs[firstInvalid - 1]) else Genesis(c);
    var suffix := HashSuffix(c, recs, firstInvalid);
    var interior := recordsValid == 0;
    if !interior {
      interior := FindCoherentContinuation(c, recs, segStarts, firstInvalid);
    }
    rep := Report(if interior then Interior else BrokenTail, total, recordsValid, Some(firstInvalid),
                  if firstInvalid > 0 then Some(firstInvalid - 1) else None, lastValidHash, !interior,
                  Some(suffix), 0);
  }

  function VerifyFiles(c: Codec, files: seq<LogFile>): Report {
    Classify(c, RecordsOf(c, files, 0))
  }

  /** `verify_path`: read everything, then classify; nothing is changed. */
  method VerifyPath(c: Codec, files: seq<LogFile>) returns (rep: Report)
    ensures rep == VerifyFiles(c, files)
  {
    var recs := ReadRecords(c, files);
    rep := ClassifyRecords(c, recs);
  }

  // ---------------------------------------------------------------- links are local

  /** Whether a record links depends only on it and its predecessor. */
  lemma LinksPrefix(c: Codec, recs: seq<Record>, k: nat, i: nat)
    requires i < k <= |recs|
    ensures Links(c, recs[..k], i) == Links(c, recs, i)
  {
    hide ChainHash, Genesis;
  }

  lemma LinksAppend(c: Codec, recs: seq<Record>, r: Record, i: nat)
    requires i < |recs|
    ensures Links(c, recs + [r], i) == Links(c, recs, i)
  {
    hide ChainHash, Genesis;
  }

  /** A chain grows by one record exactly when that record links to the tip. */
  lemma ChainGrows(c: Codec, recs: seq<Record>, r: Record)
    ensures ChainValid(c, recs + [r]) <==> ChainValid(c, recs) && Links(c, recs + [r], |recs|)
  {
    hide Links;
    var all := recs + [r];
    forall i | 0 <= i < |recs| ensures Links(c, all, i) == Links(c, recs, i) {
      LinksAppend(c, recs, r, i);
    }
  }

  /** A prefix is a valid chain exactly when it stops before the first break: the sealed prefix
      is the longest one that verifies. */
  lemma ValidPrefixes(c: Codec, recs: seq<Record>, k: nat)
    requires k <= |recs|
    ensures ChainValid(c, recs[..k]) <==> FirstBreak(c, recs) == -1 || k <= FirstBreak(c, recs)
  {
    hide Links;
    var f := FirstBreak(c, recs);
    forall i | 0 <= i < k ensures Links(c, recs[..k], i) == Links(c, recs, i) {
      LinksPrefix(c, recs, k, i);
    }
    if f >= 0 && f < k {
      assert !Links(c, recs[..k], f);
    }
  }

  // ---------------------------------------------------------------- what "valid" means

  /** One independently anchored segment: it opens at genesis and is unbroken. */
  predicate Segment(c: Codec, seg: seq<Record>) {
    && |seg| > 0
    && Carries(seg[0], Genesis(c))
    && forall j :: 0 < j < |seg| ==> Carries(seg[j], ChainHash(c, seg[j - 1]))
  }

  predicate OpensFile(segs: seq<seq<Record>>, k: nat)
    requires 0 < k < |segs|
  {
    |segs[k - 1]| > 0 && |segs[k]| > 0 && segs[k][0].file != segs[k - 1][|segs[k - 1]| - 1].file
  }

  /** Segments one after the other, each later one opening a new file. */
  ghost predicate SegmentedChain(c: Codec, segs: seq<seq<Record>>) {
    && (forall k :: 0 <= k < |segs| ==> Segment(c, segs[k]))
    && (forall k :: 0 < k < |segs| ==> OpensFile(segs, k))
  }

  function Flatten(segs: seq<seq<Record>>): seq<Record>
    decreases |segs|
  {
    if |segs| == 0 then [] else Flatten(segs[..|segs| - 1]) + segs[|segs| - 1]
  }

  /** The last segment grows by a record that carries the hash before it. */
  lemma ExtendLastSegment(c: Codec, segs: seq<seq<Record>>, r: Record) returns (more: seq<seq<Record>>)
    requires SegmentedChain(c, segs) && |segs| > 0
    requires var last := segs[|segs| - 1]; |last| > 0 && Carries(r, ChainHash(c, last[|last| - 1]))
    ensures SegmentedChain(c, more) && Flatten(more) == Flatten(segs) + [r] && |more| > 0
  {
    hide ChainHash, Genesis, Carries;
    var m := |segs| - 1;
    more := segs[..m] + [segs[m] + [r]];
    assert more[..m] == segs[..m];
    Regroup(Flatten(segs[..m]), segs[m], [r]);
    forall k | 0 < k < |more| ensures OpensFile(more, k) {
      assert OpensFile(segs, k);
    }
  }

  /** A new segment opens with a genesis record in a new file. */
  lemma AddSegment(c: Codec, segs: seq<seq<Record>>, r: Record) returns (more: seq<seq<Record>>)
    requires SegmentedChain(c, segs) && Carries(r, Genesis(c))
    requires |segs| > 0 ==> var last := segs[|segs| - 1]; |last| > 0 && r.file != last[|last| - 1].file
    ensures SegmentedChain(c, more) && Flatten(more) == Flatten(segs) + [r] && |more| > 0
  {
    hide ChainHash, Genesis, Carries;
    more := segs + [[r]];
    assert more[..|segs|] == segs;
    forall k | 0 < k < |more| ensures OpensFile(more, k) {
      if k < |segs| {
        assert OpensFile(segs, k);
      }
    }
  }

  /** Every valid log splits into independently anchored segments. */
  lemma {:induction false} ValidSplits(c: Codec, recs: seq<Record>) returns (segs: seq<seq<Record>>)
    requires ChainValid(c, recs)
    ensures SegmentedChain(c, segs) && Flatten(segs) == recs
    ensures |recs| > 0 ==> |segs| > 0
    decreases |recs|
  {
    if |recs| == 0 {
      segs := [];
    } else {
      var n := |recs| - 1;
      var r := recs[n];
      assert recs == recs[..n] + [r];
      ChainGrows(c, recs[..n], r);
      var front := ValidSplits(c, recs[..n]);
      if n > 0 {
        LastOfFlatten(front);
        if Carries(r, ChainHash(c, recs[n - 1])) {
          segs := ExtendLastSegment(c, front, r);
        } else {
          segs := AddSegment(c, front, r);
        }
      } else {
        NoSegments(front);
        segs := AddSegment(c, front, r);
      }
    }
  }

  lemma NoSegments(segs: seq<seq<Record>>)
    requires Flatten(segs) == [] && forall k :: 0 <= k < |segs| ==> |segs[k]| > 0
    ensures segs == []
  {
  }

  /** Any run of independently anchored segments verifies. */
  lemma {:induction false} SplitsValid(c: Codec, segs: seq<seq<Record>>)
    requires SegmentedChain(c, segs)
    ensures ChainValid(c, Flatten(segs))
    decreases |segs|
  {
    if |segs| > 0 {
      var n := |segs| - 1;
      var front := Flatten(segs[..n]);
      forall k | 0 < k < n ensures OpensFile(segs[..n], k) {
        assert OpensFile(segs, k);
      }
      SplitsValid(c, segs[..n]);
      if n > 0 {
        LastOfFlatten(segs[..n]);
        assert OpensFile(segs, n);
      }
      SegmentExtends(c, front, segs[n]);
    } else {
      assert Flatten(segs) == [];
    }
  }

  lemma LastOfFlatten(segs: seq<seq<Record>>)
    requires |segs| > 0 && |segs[|segs| - 1]| > 0
    ensures |Flatten(segs)| > 0
    ensures Flatten(segs)[|Flatten(segs)| - 1] == segs[|segs| - 1][|segs[|segs| - 1]| - 1]
  {
  }

  lemma {:induction false} SegmentExtends(c: Codec, front: seq<Record>, seg: seq<Record>)
    requires ChainValid(c, front) && Segment(c, seg)
    requires |front| > 0 ==> seg[0].file != front[|front| - 1].file
    ensures ChainValid(c, front + seg)
    decreases |seg|
  {
    hide ChainHash, Genesis;
    var n := |seg| - 1;
    var r := seg[n];
    assert front + seg == (front + seg[..n]) + [r];
    if n > 0 {
      SegmentExtends(c, front, seg[..n]);
    } else {
      assert front + seg[..n] == front;
    }
    ChainGrows(c, front + seg[..n], r);
  }
}
