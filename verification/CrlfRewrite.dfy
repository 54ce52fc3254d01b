/** A log rewritten through a tool that ends lines with CR LF
    (orchestrator/audit_integrity.py, `_chain_hash`). */
module CrlfRewrite {
  import opened Bytes
  import opened Codec
  import opened AuditRecords
  import opened AuditClassify
  import opened TextView
  import opened StartupGate
  import opened OtherVerifiers

  function ToCrlf(data: seq<byte>): seq<byte>
    decreases |data|
  {
    if |data| == 0 then []
    else (if data[0] == LF then [CR, LF] else [data[0]]) + ToCrlf(data[1..])
  }

  function AllToCrlf(files: seq<LogFile>): seq<LogFile>
    decreases |files|
  {
    if |files| == 0 then []
    else [files[0].(data := ToCrlf(files[0].data))] + AllToCrlf(files[1..])
  }

  lemma {:induction false} ToCrlfPlain(p: Line, rest: seq<byte>)
    requires LF !in p
    ensures ToCrlf(p + rest) == p + ToCrlf(rest)
    decreases |p|
  {
    if |p| == 0 {
      assert p + rest == rest;
    } else {
      assert p[0] in p;
      assert (p + rest)[0] == p[0] && (p + rest)[1..] == p[1..] + rest;
      ToCrlfPlain(p[1..], rest);
      Regroup([p[0]], p[1..], ToCrlf(rest));
      assert [p[0]] + p[1..] == p;
    }
  }

  lemma ToCrlfLine(l: Line, rest: seq<byte>)
    requires LF !in l
    ensures ToCrlf(l + ([LF] + rest)) == (l + [CR]) + ([LF] + ToCrlf(rest))
  {
    ToCrlfPlain(l, [LF] + rest);
    assert ([LF] + rest)[1..] == rest;
    assert [CR, LF] + ToCrlf(rest) == [CR] + ([LF] + ToCrlf(rest));
    Regroup(l, [CR], [LF] + ToCrlf(rest));
  }

  lemma FirstLineSplit(data: seq<byte>)
    requires |data| > 0
    ensures var nl := NextLF(data, 0);
      && LF !in data[..nl]
      && (nl < |data| ==> data == data[..nl] + ([LF] + data[nl + 1..]))
      && (nl == |data| ==> data[..nl] == data)
  {
    hide NextLF;
    var nl := NextLF(data, 0);
    assert LF !in data[..nl] by {
      forall i | 0 <= i < nl ensures data[..nl][i] != LF {
        assert data[i] != LF;
      }
    }
    if nl < |data| {
      Around(data, nl);
    } else {
      WholePrefix(data);
    }
  }

  lemma WholePrefix(data: seq<byte>)
    ensures data[..|data|] == data
  {
  }

  /** The rewritten file has the same lines, each followed by a carriage return. */
  lemma {:induction false} ToCrlfLines(data: seq<byte>)
    requires CR !in data
    ensures ChopAll(Lines(ToCrlf(data))) == Lines(data)
    decreases |data|
  {
    hide NextLF, ToCrlf;
    if |data| > 0 && NextLF(data, 0) < |data| {
      var l := data[..NextLF(data, 0)];
      var rest := data[NextLF(data, 0) + 1..];
      FirstLineSplit(data);
      ToCrlfLine(l, rest);
      LinesOfFirst(l + [CR], ToCrlf(rest));
      ToCrlfLines(rest);
      assert Lines(data) == [l] + Lines(rest);
      assert ChopAll([l + [CR]] + Lines(ToCrlf(rest))) == [l] + ChopAll(Lines(ToCrlf(rest)));
    } else if |data| > 0 {
      LastCrlfLine(data);
    } else {
      EmptyCrlf();
    }
  }

  lemma LastCrlfLine(data: seq<byte>)
    requires CR !in data && |data| > 0 && NextLF(data, 0) == |data|
    ensures ChopAll(Lines(ToCrlf(data))) == Lines(data)
  {
    hide NextLF;
    FirstLineSplit(data);
    ToCrlfPlain(data, []);
    assert data + [] == data && ToCrlf([]) == [];
    LinesOfLast(data);
    assert data[|data| - 1] in data;
    assert ChopCR(data) == data;
  }

  lemma EmptyCrlf()
    ensures ToCrlf([]) == [] && Lines([]) == []
  {
  }

  lemma {:induction false} LinesHaveNoCR(data: seq<byte>)
    requires CR !in data
    ensures forall i :: 0 <= i < |Lines(data)| ==> CR !in Lines(data)[i]
    decreases |data|
  {
    if |data| > 0 {
      LinesHaveNoCR(data[LineEnd(data, 0)..]);
    }
  }

  /** The records of the rewritten file are those of the original up to a carriage return. */
  lemma CrlfRecords(c: Codec, f: LogFile, index: nat)
    requires CR !in f.data
    ensures var g := f.(data := ToCrlf(f.data));
      Twins(c, FileRecords(c, f, index), FileRecords(c, g, index))
  {
    hide RecordsFrom, Blank, ToCrlf, Parsed, ChopCR;
    var g := f.(data := ToCrlf(f.data));
    var lines := Lines(g.data);
    ToCrlfLines(f.data);
    RecordsAreLines(c, f, index);
    RecordsAreLines(c, g, index);
    forall i | 0 <= i < |lines| ensures Keeps(SkipBlank, ChopCR(lines[i])) == Keeps(SkipBlank, lines[i]) {
      BlankChop(lines[i]);
    }
    FilterChop(SkipBlank, SkipBlank, lines);
    var a, b := FileRecords(c, f, index), FileRecords(c, g, index);
    assert Raws(a) == ChopAll(Raws(b));
    RecordsWellPlaced(c, f, 0, index);
    RecordsWellPlaced(c, g, 0, index);
    forall i | 0 <= i < |a| ensures TwinAt(c, a[i], b[i]) {
      assert a[i].raw == ChopCR(b[i].raw);
      assert WellPlaced(c, f, a[i]) && WellPlaced(c, g, b[i]);
      assert CR !in a[i].raw;
      TwinOfChop(c, a[i], b[i]);
    }
  }

  lemma TwinOfChop(c: Codec, a: Record, b: Record)
    requires a.raw == ChopCR(b.raw) && CR !in a.raw
    requires a.parsed == Parsed(c, a.raw) && b.parsed == Parsed(c, b.raw)
    requires a.file == b.file && a.index == b.index
    ensures TwinAt(c, a, b)
  {
    hide Load;
    LoadChop(c, b.raw);
    assert ChopCR(a.raw) == a.raw;
  }

  /** The same record as far as the chain is concerned. */
  predicate TwinAt(c: Codec, a: Record, b: Record) {
    a.file == b.file && a.index == b.index && a.parsed == b.parsed && ChainHash(c, a) == ChainHash(c, b)
  }

  ghost predicate Twins(c: Codec, a: seq<Record>, b: seq<Record>) {
    |a| == |b| && forall i :: 0 <= i < |a| ==> TwinAt(c, a[i], b[i])
  }

  lemma TwinsConcat(c: Codec, a: seq<Record>, b: seq<Record>, a': seq<Record>, b': seq<Record>)
    requires Twins(c, a, b) && Twins(c, a', b')
    ensures Twins(c, a + a', b + b')
  {
    hide TwinAt;
  }

  lemma {:induction false} AllCrlfRecords(c: Codec, files: seq<LogFile>, index: nat)
    requires forall i :: 0 <= i < |files| ==> CR !in files[i].data
    ensures Twins(c, RecordsOf(c, files, index), RecordsOf(c, AllToCrlf(files), index))
    decreases |files|
  {
    hide RecordsFrom, ToCrlf, Twins;
    if |files| > 0 {
      var first := FileRecords(c, files[0], index);
      var g := files[0].(data := ToCrlf(files[0].data));
      CrlfRecords(c, files[0], index);
      assert |first| == |FileRecords(c, g, index)| by { TwinsLength(c, first, FileRecords(c, g, index)); }
      AllCrlfRecords(c, files[1..], index + |first|);
      assert AllToCrlf(files)[0] == g && AllToCrlf(files)[1..] == AllToCrlf(files[1..]);
      TwinsConcat(c, first, FileRecords(c, g, index),
        RecordsOf(c, files[1..], index + |first|), RecordsOf(c, AllToCrlf(files[1..]), index + |first|));
    } else {
      NoTwins(c);
    }
  }

  lemma TwinsLength(c: Codec, a: seq<Record>, b: seq<Record>)
    requires Twins(c, a, b)
    ensures |a| == |b|
  {
  }

  lemma NoTwins(c: Codec)
    ensures Twins(c, [], [])
  {
  }

  lemma TwinLinks(c: Codec, a: seq<Record>, b: seq<Record>, i: nat)
    requires Twins(c, a, b) && i < |a|
    ensures Links(c, a, i) == Links(c, b, i)
    ensures i > 0 ==> CoherentAt(c, a, i) == CoherentAt(c, b, i)
  {
    hide ChainHash, Genesis;
    assert TwinAt(c, a[i], b[i]);
    if i > 0 {
      assert TwinAt(c, a[i - 1], b[i - 1]);
    }
  }

  lemma {:induction false} TwinCount(c: Codec, a: seq<Record>, b: seq<Record>)
    requires Twins(c, a, b)
    ensures CountGenesis(c, a) == CountGenesis(c, b)
    decreases |a|
  {
    hide ChainHash, Genesis;
    if |a| > 0 {
      var n := |a| - 1;
      assert TwinAt(c, a[n], b[n]);
      TwinCount(c, a[..n], b[..n]);
    }
  }

  /** Records that differ only by a carriage return get the same verdict; only the digest of the
      raw suffix bytes can differ. */
  lemma TwinVerdicts(c: Codec, a: seq<Record>, b: seq<Record>)
    requires Twins(c, a, b)
    ensures Classify(c, a).(corruptSuffix := None) == Classify(c, b).(corruptSuffix := None)
  {
    hide ChainHash, Genesis, Links, CoherentAt, SuffixBytes;
    forall i | 0 <= i < |a|
      ensures Links(c, a, i) == Links(c, b, i)
      ensures i > 0 ==> CoherentAt(c, a, i) == CoherentAt(c, b, i)
    {
      TwinLinks(c, a, b, i);
    }
    TwinCount(c, a, b);
    var f, g := FirstBreak(c, a), FirstBreak(c, b);
    assert f == g;
    if f >= 0 {
      assert HasCoherentContinuation(c, a, f) == HasCoherentContinuation(c, b, f);
    }
    if f > 0 {
      assert TwinAt(c, a[f - 1], b[f - 1]);
    }
    if |a| > 0 {
      assert TwinAt(c, a[|a| - 1], b[|a| - 1]);
    }
  }

  /** Rewriting every newline of a log to CR LF changes nothing the verifier reports about the
      chain: status, counts, first break, tip hash and segments are the same. */
  lemma CrlfKeepsVerdict(c: Codec, files: seq<LogFile>)
    requires forall i :: 0 <= i < |files| ==> CR !in files[i].data
    ensures VerifyFiles(c, AllToCrlf(files)).(corruptSuffix := None) ==
            VerifyFiles(c, files).(corruptSuffix := None)
  {
    hide RecordsOf, Classify, Twins;
    AllCrlfRecords(c, files, 0);
    TwinVerdicts(c, RecordsOf(c, files, 0), RecordsOf(c, AllToCrlf(files), 0));
  }
}
