/** What a verification report says of the log, whatever its status. */
module ReportMeaning {
  import opened Bytes
  import opened Codec
  import opened AuditRecords
  import opened AuditClassify
  import opened AuditTamper
  import opened StartupGate
  import opened GateWindow

  /** The first `k` records form a valid chain, and no more of them do. */
  ghost predicate LongestValid(c: Codec, recs: seq<Record>, k: nat) {
    && k <= |recs| && ChainValid(c, recs[..k])
    && forall n :: k < n <= |recs| ==> !ChainValid(c, recs[..n])
  }

  /** There is only one such number. */
  lemma LongestUnique(c: Codec, recs: seq<Record>, k: nat, n: nat)
    requires LongestValid(c, recs, k) && LongestValid(c, recs, n)
    ensures k == n
  {
    hide ChainValid;
  }

  /** Record `i` is a JSON object that opens a file with the genesis hash, or has the hash of the record
      before it, itself a JSON object. */
  ghost predicate Resumes(c: Codec, recs: seq<Record>, i: nat)
    requires 0 < i < |recs|
  {
    && recs[i].parsed.Some?
    && var prevHash := recs[i].parsed.value.prevHash;
       || (recs[i].file != recs[i - 1].file && prevHash == Some(c.digest(GENESIS_STRING)))
       || (recs[i - 1].parsed.Some? && prevHash == Some(c.digest(ChopCR(recs[i - 1].raw))))
  }

  lemma ResumesIsCoherent(c: Codec, recs: seq<Record>, i: nat)
    requires 0 < i < |recs|
    ensures Resumes(c, recs, i) <==> CoherentAt(c, recs, i)
  {
  }

  /** For every list of records and every status: the report counts the records and the longest valid
      prefix, names the last record of that prefix and its hash, and the record that breaks it with
      the digest of the bytes from there on. Corruption is interior when that prefix is empty or some
      later record resumes the chain, and a broken tail, the only repairable status, otherwise. */
  lemma ReportMeans(c: Codec, recs: seq<Record>)
    ensures var rep := Classify(c, recs);
      var k := rep.recordsValid;
      && rep.recordsTotal == |recs| && LongestValid(c, recs, k)
      && rep.lastValid == (if k == 0 then None else Some(if k < |recs| then (k - 1) as nat else recs[k - 1].index))
      && rep.lastValidHash == (if k == 0 then c.digest(GENESIS_STRING) else c.digest(ChopCR(recs[k - 1].raw)))
      && rep.firstInvalid == (if k < |recs| then Some(k) else None)
      && rep.corruptSuffix == (if k < |recs| then Some(c.digest(SuffixBytes(recs, k))) else None)
      && rep.status ==
         (if |recs| == 0 then Empty
          else if k == |recs| then Valid
          else if k == 0 || exists i :: k < i < |recs| && Resumes(c, recs, i) then Interior
          else BrokenTail)
      && (rep.repairable <==> rep.status == BrokenTail)
  {
    var k := Classify(c, recs).recordsValid;
    forall i | 0 < i < |recs| ensures Resumes(c, recs, i) <==> CoherentAt(c, recs, i) {
      ResumesIsCoherent(c, recs, i);
    }
    hide Links, CoherentAt, Resumes, SuffixBytes;
    forall n | 0 <= n <= |recs| ensures ChainValid(c, recs[..n]) <==> FirstBreak(c, recs) == -1 || n <= FirstBreak(c, recs) {
      ValidPrefixes(c, recs, n);
    }
    assert recs[..|recs|] == recs;
  }

  /** The records of a directory are numbered from 0, so there the last valid record is always the
      one before the first invalid one. */
  lemma FileReportMeans(c: Codec, files: seq<LogFile>)
    ensures var rep := VerifyFiles(c, files);
      rep.lastValid == if rep.recordsValid == 0 then None else Some((rep.recordsValid - 1) as nat)
  {
    hide Classify, RecordsOf;
    var recs := RecordsOf(c, files, 0);
    ReportMeans(c, recs);
    IndicesCount(c, files, 0);
  }

  // ---------------------------------------------------------------- segments

  lemma {:induction false} CountConcat(c: Codec, a: seq<Record>, b: seq<Record>)
    ensures CountGenesis(c, a + b) == CountGenesis(c, a) + CountGenesis(c, b)
    decreases |b|
  {
    hide Genesis, Carries;
    if |b| == 0 {
      assert a + b == a;
    } else {
      var n := |b| - 1;
      assert (a + b)[..|a| + n] == a + b[..n] && (a + b)[|a| + n] == b[n];
      CountConcat(c, a, b[..n]);
    }
  }

  /** A segment holds one genesis record, its first, when no record in it hashes to genesis. */
  lemma {:induction false} SegmentCounts(c: Codec, seg: seq<Record>)
    requires Segment(c, seg) && forall i :: 0 <= i < |seg| ==> ChainHash(c, seg[i]) != Genesis(c)
    ensures CountGenesis(c, seg) == 1
    decreases |seg|
  {
    hide ChainHash, Genesis;
    var n := |seg| - 1;
    if n == 0 {
      assert seg[..0] == [];
    } else {
      assert Carries(seg[n], ChainHash(c, seg[n - 1]));
      SegmentCounts(c, seg[..n]);
    }
  }

  /** However a log is split into segments, the report counts them. */
  lemma {:induction false} SegmentsCounted(c: Codec, segs: seq<seq<Record>>)
    requires SegmentedChain(c, segs)
    requires forall i :: 0 <= i < |Flatten(segs)| ==> ChainHash(c, Flatten(segs)[i]) != Genesis(c)
    ensures CountGenesis(c, Flatten(segs)) == |segs|
    decreases |segs|
  {
    hide ChainHash, Genesis, Segment, CountGenesis;
    if |segs| == 0 {
      NoneCounted(c);
    } else {
      var n := |segs| - 1;
      var front, last := Flatten(segs[..n]), segs[n];
      var all := Flatten(segs);
      assert all == front + last;
      assert forall i :: 0 <= i < |front| ==> all[i] == front[i];
      assert forall i :: 0 <= i < |last| ==> all[|front| + i] == last[i];
      forall k | 0 < k < n ensures OpensFile(segs[..n], k) {
        assert OpensFile(segs, k);
      }
      SegmentsCounted(c, segs[..n]);
      SegmentCounts(c, last);
      CountConcat(c, front, last);
    }
  }

  lemma NoneCounted(c: Codec)
    ensures CountGenesis(c, []) == 0
  {
  }

  /** The report on a valid directory gives the number of its segments, in whatever way it is split. */
  lemma ReportCountsSegments(c: Codec, files: seq<LogFile>, segs: seq<seq<Record>>)
    requires CollisionFree(c) && Parsed(c, GENESIS_STRING).None? && VerifyFiles(c, files).status == Valid
    requires SegmentedChain(c, segs) && Flatten(segs) == RecordsOf(c, files, 0)
    ensures VerifyFiles(c, files).segments == |segs|
  {
    hide RecordsOf, CollisionFree, Parsed, ChainHash, Genesis, CountGenesis, Links;
    var recs := RecordsOf(c, files, 0);
    RecordsAreParsed(c, files, 0);
    ChainIsParsed(c, recs);
    forall i | 0 <= i < |recs| ensures ChainHash(c, recs[i]) != Genesis(c) {
      ParsedAt(recs, i);
      NoRecordHashesToGenesis(c, recs[i]);
    }
    SegmentsCounted(c, segs);
  }
}
