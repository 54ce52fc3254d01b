/** What editing or removing a record of a valid log does to the verdict
    (orchestrator/audit_integrity.py, `classify` and the limitation its header documents). */
module AuditTamper {
  import opened Bytes
  import opened Codec
  import opened AuditRecords
  import opened AuditClassify

  /** Verdict on `recs` once record `at` is the first that does not link. */
  lemma VerdictAtBreak(c: Codec, recs: seq<Record>, at: nat)
    requires at < |recs| && !Links(c, recs, at) && forall k :: 0 <= k < at ==> Links(c, recs, k)
    requires at + 1 < |recs| ==> CoherentAt(c, recs, at + 1)
    ensures Classify(c, recs).firstInvalid == Some(at)
    ensures Classify(c, recs).status == if at == 0 || at + 1 < |recs| then Interior else BrokenTail
  {
    hide Links, CoherentAt, SuffixBytes, ChainHash, Genesis;
    assert FirstBreak(c, recs) == at;
  }

  /** In a valid log each record but the first follows coherently from the one before it. */
  lemma ValidIsCoherent(c: Codec, recs: seq<Record>, i: nat)
    requires ChainValid(c, recs) && 0 < i < |recs|
    ensures CoherentAt(c, recs, i)
  {
    hide ChainHash, Genesis;
    assert Links(c, recs, i) && Links(c, recs, i - 1);
  }

  /** Replacing record `i` of a valid log by another object with the same link but another
      content.  The change shows at record `i + 1`, unless there is none or it opens a new
      segment; it reads as a torn tail exactly when record `i + 1` is the last. */
  lemma EditVerdict(c: Codec, recs: seq<Record>, i: nat, r: Record)
    requires ChainValid(c, recs) && i < |recs|
    requires r.file == recs[i].file && r.parsed.Some? && recs[i].parsed.Some?
    requires r.parsed.value.prevHash == recs[i].parsed.value.prevHash
    requires ChainHash(c, r) != ChainHash(c, recs[i]) && ChainHash(c, recs[i]) != Genesis(c)
    ensures var rep := Classify(c, recs[i := r]);
      if i + 1 == |recs| || Carries(recs[i + 1], Genesis(c)) then
        rep.status == Valid
      else
        rep.firstInvalid == Some(i + 1) && rep.status == if i + 2 < |recs| then Interior else BrokenTail
  {
    hide ChainHash, Genesis, SuffixBytes, CountGenesis;
    var all := recs[i := r];
    assert Links(c, recs, i);
    forall k | 0 <= k < |recs| && k != i + 1 ensures Links(c, all, k) {
      assert Links(c, recs, k);
    }
    if i + 1 < |recs| {
      assert Links(c, recs, i + 1);
      if Carries(recs[i + 1], Genesis(c)) {
        assert Links(c, all, i + 1);
      } else {
        assert !Links(c, all, i + 1);
        if i + 2 < |recs| {
          ValidIsCoherent(c, recs, i + 2);
          assert CoherentAt(c, all, i + 2);
        }
        VerdictAtBreak(c, all, i + 1);
      }
    }
  }

  /** With a collision-free hash any change of content is a change of chain hash. */
  lemma EditChangesHash(c: Codec, r: Record, s: Record)
    requires CollisionFree(c)
    ensures ChainHash(c, r) == ChainHash(c, s) <==> ChopCR(r.raw) == ChopCR(s.raw)
  {
  }

  function Without(recs: seq<Record>, i: nat): seq<Record>
    requires i < |recs|
  {
    recs[..i] + recs[i + 1..]
  }

  /** Removing record `i` of a valid log.  Removal of the last record, or of one that is followed
      by the start of a new segment, leaves a valid (or empty) log; otherwise the record that
      followed it is the first break, and the log is repairable only if that is now the last. */
  lemma RemovalVerdict(c: Codec, recs: seq<Record>, i: nat)
    requires ChainValid(c, recs) && i < |recs|
    requires ChainHash(c, recs[i]) != Anchor(c, recs, i) && ChainHash(c, recs[i]) != Genesis(c)
    requires i + 1 < |recs| && i > 0 && Carries(recs[i + 1], Genesis(c)) ==> recs[i + 1].file != recs[i - 1].file
    ensures var all := Without(recs, i);
      var rep := Classify(c, all);
      if i + 1 == |recs| || Carries(recs[i + 1], Genesis(c)) then
        rep.status == if |recs| == 1 then Empty else Valid
      else
        && rep.firstInvalid == Some(i)
        && rep.status == if i == 0 || i + 2 < |recs| then Interior else BrokenTail
  {
    hide ChainHash, Genesis, SuffixBytes, CountGenesis;
    var all := Without(recs, i);
    forall k | 0 <= k < i ensures Links(c, all, k) {
      assert Links(c, recs, k);
    }
    forall k | i < k < |all| ensures Links(c, all, k) {
      assert Links(c, recs, k + 1);
      assert all[k] == recs[k + 1] && all[k - 1] == recs[k];
    }
    if i + 1 < |recs| {
      assert all[i] == recs[i + 1];
      assert i > 0 ==> all[i - 1] == recs[i - 1];
      assert Links(c, recs, i + 1);
      if Carries(recs[i + 1], Genesis(c)) {
        assert Links(c, all, i);
      } else {
        assert !Links(c, all, i);
        if i + 2 < |recs| {
          ValidIsCoherent(c, recs, i + 2);
          assert all[i + 1] == recs[i + 2];
          assert CoherentAt(c, all, i + 1);
        }
        VerdictAtBreak(c, all, i);
      }
    }
  }

  /** Records whose parsed view is that of their line. */
  ghost predicate Genuine(c: Codec, recs: seq<Record>) {
    forall i :: 0 <= i < |recs| ==> recs[i].parsed == Parsed(c, recs[i].raw)
  }

  lemma SameLineSameMembers(c: Codec, a: Record, b: Record)
    requires a.parsed == Parsed(c, a.raw) && b.parsed == Parsed(c, b.raw)
    requires ChopCR(a.raw) == ChopCR(b.raw)
    ensures a.parsed == b.parsed
  {
    hide Load;
    LoadChop(c, a.raw);
    LoadChop(c, b.raw);
  }

  lemma SegmentParsed(c: Codec, seg: seq<Record>, j: nat)
    requires Segment(c, seg) && j < |seg|
    ensures seg[j].parsed.Some?
  {
    assert j > 0 ==> Carries(seg[j], ChainHash(c, seg[j - 1]));
  }

  /** The tip hash of a segment determines the whole segment, record by record: with a
      collision-free hash two segments with the same tip carry the same lines. */
  lemma {:induction false} TipDeterminesSegment(c: Codec, a: seq<Record>, b: seq<Record>)
    requires CollisionFree(c) && Parsed(c, GENESIS_STRING).None?
    requires Segment(c, a) && Segment(c, b) && Genuine(c, a) && Genuine(c, b)
    requires ChainHash(c, a[|a| - 1]) == ChainHash(c, b[|b| - 1])
    ensures |a| == |b| && forall i :: 0 <= i < |a| ==> ChopCR(a[i].raw) == ChopCR(b[i].raw)
    decreases |a|
  {
    hide Load, CollisionFree, ChopCR;
    var x, y := a[|a| - 1], b[|b| - 1];
    EditChangesHash(c, x, y);
    SameLineSameMembers(c, x, y);
    if |a| == 1 && |b| > 1 {
      SegmentParsed(c, b, |b| - 2);
      NoRecordHashesToGenesis(c, b[|b| - 2]);
      assert false;
    } else if |a| > 1 && |b| == 1 {
      SegmentParsed(c, a, |a| - 2);
      NoRecordHashesToGenesis(c, a[|a| - 2]);
      assert false;
    } else if |a| > 1 {
      var a', b' := a[..|a| - 1], b[..|b| - 1];
      assert a'[|a'| - 1] == a[|a| - 2] && b'[|b'| - 1] == b[|b| - 2];
      TipDeterminesSegment(c, a', b');
      forall i | 0 <= i < |a| ensures ChopCR(a[i].raw) == ChopCR(b[i].raw) {
        if i < |a| - 1 {
          assert a[i] == a'[i] && b[i] == b'[i];
        }
      }
    }
  }

  /** The genesis hash is the hash of no record: its preimage is not a JSON object. */
  lemma NoRecordHashesToGenesis(c: Codec, r: Record)
    requires CollisionFree(c) && Parsed(c, GENESIS_STRING).None?
    requires r.parsed.Some? && r.parsed == Parsed(c, r.raw)
    ensures ChainHash(c, r) != Genesis(c)
  {
    hide Load;
    if ChainHash(c, r) == Genesis(c) {
      LoadChop(c, r.raw);
    }
  }
}
