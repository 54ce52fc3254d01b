/** The assumptions about SHA-256 and JSON can be met together: some codec is faithful, free of
    collisions and breaks at carriage returns as JSON does, and the genesis text is no record of
    it. */
module CodecExists {
  import opened Bytes
  import opened Codec
  import opened AuditRecords
  import opened TextView
  import opened TextPieces
  import opened GateWindow

  const ZERO: byte := 48
  const END_CHAR: byte := 49
  const END_STRING: byte := 50
  const START: byte := 51

  /** A character as that many zeros and an end mark. */
  function CharLine(c: char): Line {
    seq(c as int, _ => ZERO) + [END_CHAR]
  }

  function StringLine(s: string): Line {
    if |s| == 0 then [END_STRING] else CharLine(s[0]) + StringLine(s[1..])
  }

  function Fields(e: Event): Line {
    StringLine(e.sourceId) + StringLine(e.prevHash)
  }

  function Dump(e: Event): Line {
    [START] + Fields(e)
  }

  lemma CharsDiffer(a: char, b: char, x: Line, y: Line)
    requires CharLine(a) + x == CharLine(b) + y
    ensures a == b && x == y
  {
    var l, r := CharLine(a) + x, CharLine(b) + y;
    assert l[a as int] == END_CHAR && r[b as int] == END_CHAR;
    assert forall i :: 0 <= i < a as int ==> l[i] == ZERO;
    assert forall i :: 0 <= i < b as int ==> r[i] == ZERO;
    assert a as int == b as int;
    assert x == l[a as int + 1..] && y == r[b as int + 1..];
  }

  lemma StringLineStarts(s: string, x: Line)
    ensures |StringLine(s) + x| > 0
    ensures (StringLine(s) + x)[0] == END_STRING <==> s == ""
  {
  }

  /** No encoded string is the beginning of another one. */
  lemma {:induction false} StringsDiffer(a: string, b: string, x: Line, y: Line)
    requires StringLine(a) + x == StringLine(b) + y
    ensures a == b && x == y
    decreases |a|
  {
    StringLineStarts(a, x);
    StringLineStarts(b, y);
    if a == "" {
      assert x == (StringLine(a) + x)[1..] && y == (StringLine(b) + y)[1..];
    } else {
      var ra, rb := StringLine(a[1..]), StringLine(b[1..]);
      assert StringLine(a) + x == CharLine(a[0]) + (ra + x);
      assert StringLine(b) + y == CharLine(b[0]) + (rb + y);
      CharsDiffer(a[0], b[0], ra + x, rb + y);
      StringsDiffer(a[1..], b[1..], x, y);
      assert a == [a[0]] + a[1..] && b == [b[0]] + b[1..];
    }
  }

  lemma DumpsDiffer(a: Event, b: Event)
    requires Dump(a) == Dump(b)
    ensures a.sourceId == b.sourceId && a.prevHash == b.prevHash
  {
    assert Fields(a) == Dump(a)[1..] == Dump(b)[1..] == Fields(b);
    StringsDiffer(a.sourceId, b.sourceId, StringLine(a.prevHash), StringLine(b.prevHash));
    assert StringLine(a.prevHash) + [] == StringLine(a.prevHash) && StringLine(b.prevHash) + [] == StringLine(b.prevHash);
    StringsDiffer(a.prevHash, b.prevHash, [], []);
  }

  lemma {:induction false} StringLineBytes(s: string)
    ensures forall i :: 0 <= i < |StringLine(s)| ==> ZERO <= StringLine(s)[i] <= END_STRING
    ensures |StringLine(s)| > 0
    decreases |s|
  {
    if |s| > 0 {
      StringLineBytes(s[1..]);
    }
  }

  lemma DumpBytes(e: Event)
    ensures forall i :: 0 <= i < |Dump(e)| ==> ZERO <= Dump(e)[i] <= START && (Dump(e)[i] == START <==> i == 0)
    ensures |Dump(e)| > 2 && NoLineBreak(Dump(e)) && !StrBlank(Dump(e)) && Dump(e) != GENESIS_STRING
  {
    StringLineBytes(e.sourceId);
    StringLineBytes(e.prevHash);
    assert LeadingSpace(Dump(e)) == 0;
  }

  ghost predicate IsDump(l: Line, e: Event) {
    Dump(e) == l
  }

  /** Carriage returns are white space wherever they stand. */
  function DropCR(l: Line): Line {
    if |l| == 0 then [] else (if l[0] == CR then [] else [l[0]]) + DropCR(l[1..])
  }

  ghost function Parse(l: Line): Json {
    if exists e: Event :: IsDump(DropCR(l), e) then
      var e: Event :| IsDump(DropCR(l), e);
      Object(Some(e.prevHash), Some(e.sourceId))
    else Malformed
  }

  lemma {:induction false} DropNothing(l: Line)
    requires CR !in l
    ensures DropCR(l) == l
    decreases |l|
  {
    if |l| > 0 {
      assert l[0] in l;
      DropNothing(l[1..]);
    }
  }

  lemma {:induction false} DropConcat(a: Line, b: Line)
    ensures DropCR(a + b) == DropCR(a) + DropCR(b)
    decreases |a|
  {
    if |a| == 0 {
      assert a + b == b;
    } else {
      assert (a + b)[0] == a[0] && (a + b)[1..] == a[1..] + b;
      DropConcat(a[1..], b);
    }
  }

  lemma ParseBroken(l: Line, e: Event)
    requires DropCR(l) == Dump(e)
    ensures Parse(l) == Object(Some(e.prevHash), Some(e.sourceId))
  {
    assert IsDump(DropCR(l), e);
    forall other: Event | IsDump(DropCR(l), other) ensures other.prevHash == e.prevHash && other.sourceId == e.sourceId {
      DumpsDiffer(e, other);
    }
  }

  lemma ParseDump(e: Event)
    ensures Parse(Dump(e)) == Object(Some(e.prevHash), Some(e.sourceId))
  {
    DumpBytes(e);
    DropNothing(Dump(e));
    ParseBroken(Dump(e), e);
  }

  /** The bytes themselves, as characters. */
  function Digest(l: Line): Hash {
    seq(|l|, i requires 0 <= i < |l| => l[i] as char)
  }

  lemma DigestsDiffer(a: Line, b: Line)
    requires Digest(a) == Digest(b)
    ensures a == b
  {
    assert |a| == |Digest(a)| == |Digest(b)| == |b|;
    forall i | 0 <= i < |a| ensures a[i] == b[i] {
      assert Digest(a)[i] == Digest(b)[i];
    }
  }

  // ---------------------------------------------------------------- broken lines

  function Joined(lines: seq<Line>): Line {
    if |lines| == 0 then [] else lines[0] + Joined(lines[1..])
  }

  lemma {:induction false} SplitJoins(s: Line)
    ensures Joined(CrSplit(s)) == DropCR(s)
    decreases |s|
  {
    hide DropCR, NextCR, Joined;
    var n := NextCR(s);
    if n == |s| {
      NoCRWhole(s);
      DropNothing(s);
      JoinedOne(s);
    } else {
      var p, q := s[..n], s[n + 1..];
      Around(s, n);
      DropAround(p, q);
      SplitJoins(q);
      JoinedCons(p, CrSplit(q));
    }
  }

  lemma DropAround(p: Line, q: Line)
    requires CR !in p
    ensures DropCR(p + ([CR] + q)) == p + DropCR(q)
  {
    hide DropCR;
    DropConcat(p, [CR] + q);
    DropNothing(p);
    DropLeading(q);
  }

  lemma DropLeading(q: Line)
    ensures DropCR([CR] + q) == DropCR(q)
  {
    assert ([CR] + q)[1..] == q;
    assert [] + DropCR(q) == DropCR(q);
  }

  lemma JoinedCons(l: Line, lines: seq<Line>)
    ensures Joined([l] + lines) == l + Joined(lines)
  {
    assert ([l] + lines)[1..] == lines;
  }

  lemma JoinedOne(l: Line)
    ensures Joined([l]) == l
  {
    assert [l][1..] == [] && l + [] == l;
  }

  /** Leaving out blank pieces changes nothing when they are empty. */
  lemma {:induction false} FilterJoins(lines: seq<Line>)
    requires forall i :: 0 <= i < |Joined(lines)| ==> ZERO <= Joined(lines)[i] <= START
    ensures Joined(Filter(SkipStrBlank, lines)) == Joined(lines)
    decreases |lines|
  {
    hide StrBlank, LeadingSpace;
    if |lines| > 0 {
      var l, rest := lines[0], lines[1..];
      var all := Joined(lines);
      assert all == l + Joined(rest);
      assert forall i :: 0 <= i < |l| ==> l[i] == all[i];
      assert forall i :: 0 <= i < |Joined(rest)| ==> Joined(rest)[i] == all[|l| + i];
      FilterJoins(rest);
      if |l| > 0 {
        Inked(l);
        assert ([l] + Filter(SkipStrBlank, rest))[1..] == Filter(SkipStrBlank, rest);
      } else {
        EmptyBlank(l);
        assert l + Joined(rest) == Joined(rest);
        assert [] + Filter(SkipStrBlank, rest) == Filter(SkipStrBlank, rest);
      }
    }
  }

  lemma Inked(l: Line)
    requires |l| > 0 && ZERO <= l[0] <= START
    ensures !StrBlank(l)
  {
    assert LeadingSpace(l) == 0;
  }

  lemma EmptyBlank(l: Line)
    ensures |l| == 0 ==> StrBlank(l)
  {
  }

  lemma {:induction false} LastJoined(lines: seq<Line>)
    requires |lines| > 0
    ensures Joined(lines) == Joined(lines[..|lines| - 1]) + lines[|lines| - 1]
    decreases |lines|
  {
    if |lines| == 1 {
      assert lines[1..] == [] && lines[..0] == [];
    } else {
      var n := |lines| - 1;
      LastJoined(lines[1..]);
      assert lines[1..][..n - 1] == lines[..n][1..];
    }
  }

  lemma DropChop(raw: Line)
    ensures DropCR(ChopCR(raw)) == DropCR(raw)
  {
    if |raw| > 0 && raw[|raw| - 1] == CR {
      assert raw == ChopCR(raw) + [CR];
      DropConcat(ChopCR(raw), [CR]);
    }
  }

  lemma {:induction false} DropTrim(raw: Line)
    ensures DropCR(TrimCR(raw)) == DropCR(raw)
    decreases |raw|
  {
    DropChop(raw);
    if |raw| > 0 && raw[|raw| - 1] == CR {
      DropTrim(raw[..|raw| - 1]);
    } else if |raw| > 0 && raw[0] == CR {
      DropTrim(raw[1..]);
    }
  }

  ghost function SampleCodec(): Codec {
    Codec(Digest, Parse, Dump)
  }

  lemma LoadIsParse(raw: Line)
    ensures Load(SampleCodec(), raw) == if StrBlank(raw) then Malformed else Parse(raw)
    ensures Load(SampleCodec(), raw).Object? || Load(SampleCodec(), raw) == Malformed
  {
    DropTrim(raw);
    if e: Event :| IsDump(DropCR(raw), e) {
      ParseBroken(raw, e);
      ParseBroken(TrimCR(raw), e);
    }
  }

  lemma ObjectIsDump(raw: Line) returns (e: Event)
    requires Load(SampleCodec(), raw).Object?
    ensures DropCR(raw) == Dump(e)
  {
    LoadIsParse(raw);
    e :| IsDump(DropCR(raw), e);
  }

  /** The visible pieces of a record are its serialisation, broken. */
  lemma VisibleJoins(raw: Line, e: Event)
    requires DropCR(raw) == Dump(e)
    ensures Joined(Visible(raw)) == Dump(e)
  {
    DropChop(raw);
    SplitJoins(ChopCR(raw));
    DumpBytes(e);
    FilterJoins(CrSplit(ChopCR(raw)));
  }

  lemma SampleSplits(raw: Line)
    ensures SplitsAt(SampleCodec(), raw)
  {
    hide Visible, StrBlank, LeadingSpace, Pieces, Parse, DropCR;
    var c, shown := SampleCodec(), Visible(raw);
    forall l ensures Load(c, l) != Undecodable {
      LoadIsParse(l);
    }
    if Load(c, raw).Object? && |shown| > 0 {
      var e := ObjectIsDump(raw);
      VisibleJoins(raw, e);
      var n := |shown| - 1;
      VisibleHasNoCR(raw, n);
      LastJoined(shown);
      LoadIsParse(raw);
      LoadIsParse(shown[n]);
      DropNothing(shown[n]);
      if n == 0 {
        assert shown[..0] == [];
        assert Joined([]) + shown[0] == shown[0];
        ParseBroken(raw, e);
        ParseBroken(shown[0], e);
      } else {
        VisibleHasNoCR(raw, 0);
        SuffixIsNoDump(shown, e, raw);
      }
    }
  }

  /** A last piece among several does not open as a serialisation does. */
  lemma SuffixIsNoDump(shown: seq<Line>, e: Event, raw: Line)
    requires |shown| > 1 && shown == Visible(raw) && Joined(shown) == Dump(e)
    ensures !Load(SampleCodec(), shown[|shown| - 1]).Object?
  {
    hide Visible, StrBlank, LeadingSpace, Pieces, Parse;
    var n := |shown| - 1;
    LastJoined(shown);
    VisibleHasNoCR(raw, 0);
    VisibleHasNoCR(raw, n);
    EmptyBlank(shown[0]);
    assert Joined(shown[..n]) == shown[0] + Joined(shown[..n][1..]);
    DumpBytes(e);
    assert shown[n] == Dump(e)[|Joined(shown[..n])|..];
    DropNothing(shown[n]);
    if Load(SampleCodec(), shown[n]).Object? {
      var other := ObjectIsDump(shown[n]);
      DumpBytes(other);
    }
  }

  lemma DumpsAreFaithful()
    ensures Faithful(SampleCodec())
  {
    hide Dump, Parse, StrBlank;
    forall e: Event
      ensures NoLineBreak(Dump(e)) && !StrBlank(Dump(e)) && Parse(Dump(e)) == Object(Some(e.prevHash), Some(e.sourceId))
    {
      DumpBytes(e);
      ParseDump(e);
    }
  }

  lemma GenesisIsNoDump()
    ensures Parse(GENESIS_STRING) == Malformed
  {
    hide Dump, DropCR;
    assert CR !in GENESIS_STRING;
    DropNothing(GENESIS_STRING);
    forall e: Event ensures !IsDump(GENESIS_STRING, e) {
      DumpBytes(e);
    }
  }

  lemma AssumptionsAreConsistent() returns (c: Codec)
    ensures c == SampleCodec()
    ensures Faithful(c) && CollisionFree(c) && SplitsLikeJson(c)
    ensures c.parse(GENESIS_STRING) == Malformed
  {
    hide SplitsAt, Faithful, Parse, Dump, Digest;
    c := SampleCodec();
    DumpsAreFaithful();
    GenesisIsNoDump();
    forall a: Line, b: Line | Digest(a) == Digest(b) ensures a == b {
      DigestsDiffer(a, b);
    }
    forall raw: Line ensures SplitsAt(c, raw) {
      SampleSplits(raw);
    }
  }
}
