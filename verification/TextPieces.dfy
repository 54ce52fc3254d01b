/** Reading files in text mode without any condition on carriage returns: a physical line falls
    into pieces at every carriage return inside it. */
module TextPieces {
  import opened Bytes
  import opened Codec
  import opened AuditRecords
  import opened TextView

  /** Position of the first carriage return, or the length when there is none. */
  function NextCR(s: Line): (n: nat)
    ensures n <= |s| && (n < |s| ==> s[n] == CR) && CR !in s[..n]
    decreases |s|
  {
    if |s| == 0 || s[0] == CR then 0
    else
      var n := NextCR(s[1..]);
      assert s[..n + 1] == [s[0]] + s[1..][..n];
      n + 1
  }

  function CrSplit(s: Line): seq<Line>
    decreases |s|
  {
    var n := NextCR(s);
    if n == |s| then [s] else [s[..n]] + CrSplit(s[n + 1..])
  }

  /** What a physical line looks like in text mode. */
  function Pieces(raw: Line): seq<Line> {
    CrSplit(ChopCR(raw))
  }

  function AllPieces(lines: seq<Line>): seq<Line>
    decreases |lines|
  {
    if |lines| == 0 then [] else Pieces(lines[0]) + AllPieces(lines[1..])
  }

  // ---------------------------------------------------------------- text lines are pieces

  /** A carriage return that no line feed follows ends a text line. */
  lemma TextPiece(p: Line, rest: seq<byte>)
    requires CR !in p && LF !in p && (|rest| > 0 ==> rest[0] != LF)
    ensures TextLines(p + ([CR] + rest)) == [p] + TextLines(rest)
  {
    hide Lines, NextLF;
    UniversalPlain(p, [CR] + rest);
    assert ([CR] + rest)[0] == CR && ([CR] + rest)[1..] == rest;
    LinesOfFirst(p, Universal(rest));
  }

  predicate EndsLine(body: Line, nl: seq<byte>) {
    nl == [CR, LF] || (nl == [LF] && !(|body| > 0 && body[|body| - 1] == CR))
  }

  /** A line cut at its first carriage return. */
  lemma CutAtCR(s: Line) returns (p: Line, q: Line)
    requires NextCR(s) < |s| && LF !in s
    ensures s == p + ([CR] + q) && CR !in p && LF !in p && LF !in q
    ensures CrSplit(s) == [p] + CrSplit(q)
    ensures if |q| > 0 then q[|q| - 1] == s[|s| - 1] else s[|s| - 1] == CR
  {
    var n := NextCR(s);
    p, q := s[..n], s[n + 1..];
    Around(s, n);
    NotInParts(LF, p, [CR], q);
  }

  lemma NotInParts<T>(x: T, p: seq<T>, m: seq<T>, q: seq<T>)
    ensures x !in p + (m + q) ==> x !in p && x !in q
  {
    var s := p + (m + q);
    assert forall i :: 0 <= i < |p| ==> p[i] == s[i];
    assert forall i :: 0 <= i < |q| ==> q[i] == s[|p| + |m| + i];
  }

  lemma Around3<T>(p: seq<T>, x: seq<T>, q: seq<T>, t: seq<T>)
    ensures (p + (x + q)) + t == p + (x + (q + t))
  {
  }

  lemma NoCRWhole(s: Line)
    requires NextCR(s) == |s|
    ensures CR !in s && CrSplit(s) == [s]
  {
    assert s[..|s|] == s;
  }

  /** A terminated physical line. */
  lemma {:induction false} TextOfLine(body: Line, nl: seq<byte>, rest: seq<byte>)
    requires LF !in body && EndsLine(body, nl)
    ensures TextLines(body + (nl + rest)) == CrSplit(body) + TextLines(rest)
    decreases |body|
  {
    hide Universal, Lines, NextCR, CrSplit, TextLines;
    if NextCR(body) == |body| {
      NoCRWhole(body);
      TextOfWhole(body, nl, rest);
    } else {
      var p, q := CutAtCR(body);
      Around3(p, [CR], q, nl + rest);
      TextPiece(p, q + (nl + rest));
      TextOfLine(q, nl, rest);
      Regroup([p], CrSplit(q), TextLines(rest));
    }
  }

  lemma TextOfWhole(body: Line, nl: seq<byte>, rest: seq<byte>)
    requires LF !in body && CR !in body && (nl == [CR, LF] || nl == [LF])
    ensures TextLines(body + (nl + rest)) == [body] + TextLines(rest)
  {
    hide Universal, Lines;
    UniversalPlain(body, nl + rest);
    UniversalNewline(rest);
    LinesOfFirst(body, Universal(rest));
  }

  /** A final partial line. */
  lemma {:induction false} TextOfLast(body: Line, nl: seq<byte>)
    requires LF !in body && (nl == [CR] || (nl == [] && |body| > 0 && body[|body| - 1] != CR))
    ensures TextLines(body + nl) == CrSplit(body)
    decreases |body|
  {
    hide Universal, Lines, NextCR, CrSplit, TextLines;
    if NextCR(body) == |body| {
      NoCRWhole(body);
      TextOfLastWhole(body, nl);
    } else {
      var p, q := CutAtCR(body);
      Around3(p, [CR], q, nl);
      TextPiece(p, q + nl);
      TextOfLast(q, nl);
    }
  }

  lemma TextOfLastWhole(body: Line, nl: seq<byte>)
    requires LF !in body && CR !in body && (nl == [CR] || (nl == [] && |body| > 0))
    ensures TextLines(body + nl) == [body]
  {
    hide Universal, Lines;
    NoText();
    if nl == [CR] {
      assert nl == [CR] + [];
      TextPiece(body, []);
    } else {
      UniversalPlain(body, []);
      assert body + [] == body;
      LinesOfLast(body);
    }
  }

  lemma NoText()
    ensures Universal([]) == [] && TextLines([]) == []
  {
  }

  /** The bytes that end the first line, a carriage return before the newline included. */
  lemma FirstLineEnd(data: seq<byte>, n: nat) returns (nl: seq<byte>)
    requires n < |data| && data[n] == LF
    ensures var body := ChopCR(data[..n]);
      EndsLine(body, nl) && data == body + (nl + data[n + 1..])
  {
    var l := data[..n];
    var body := ChopCR(l);
    Around(data, n);
    if body == l {
      nl := [LF];
    } else {
      nl := [CR, LF];
      assert l == body + [CR];
      assert [CR] + [LF] == nl;
      Regroup(body, [CR], [LF] + data[n + 1..]);
      Regroup([CR], [LF], data[n + 1..]);
    }
  }

  /** Text mode sees exactly the pieces of the physical lines. */
  lemma {:induction false} TextLinesArePieces(data: seq<byte>)
    ensures TextLines(data) == AllPieces(Lines(data))
    decreases |data|
  {
    hide Universal, TextLines, NextLF, CrSplit;
    if |data| > 0 {
      var n := NextLF(data, 0);
      var l := data[..n];
      var body := ChopCR(l);
      assert LF !in l by { assert forall i :: 0 <= i < n ==> l[i] == data[i]; }
      assert LF !in body;
      if n < |data| {
        var rest := data[n + 1..];
        var nl := FirstLineEnd(data, n);
        TextOfLine(body, nl, rest);
        TextLinesArePieces(rest);
        assert Lines(data) == [l] + Lines(rest);
        assert ([l] + Lines(rest))[1..] == Lines(rest);
      } else {
        assert l == data;
        var nl := l[|body|..];
        assert data == body + nl;
        TextOfLast(body, nl);
        assert Lines(data) == [l] by { LinesOfLast(data); }
        OneLinePieces(l);
      }
    } else {
      NoText();
    }
  }

  lemma OneLinePieces(l: Line)
    ensures AllPieces([l]) == Pieces(l)
  {
    hide Pieces;
    assert [l][1..] == [];
    assert Pieces(l) + [] == Pieces(l);
  }

  lemma {:induction false} AllPiecesConcat(a: seq<Line>, b: seq<Line>)
    ensures AllPieces(a + b) == AllPieces(a) + AllPieces(b)
    decreases |a|
  {
    hide Pieces;
    if |a| == 0 {
      assert a + b == b;
    } else {
      assert (a + b)[0] == a[0] && (a + b)[1..] == a[1..] + b;
      AllPiecesConcat(a[1..], b);
      Regroup(Pieces(a[0]), AllPieces(a[1..]), AllPieces(b));
    }
  }

  // ---------------------------------------------------------------- facts about pieces

  lemma {:induction false} PiecesHaveNoCR(s: Line)
    ensures |CrSplit(s)| > 0 && forall i :: 0 <= i < |CrSplit(s)| ==> CR !in CrSplit(s)[i]
    decreases |s|
  {
    var n := NextCR(s);
    if n < |s| {
      PiecesHaveNoCR(s[n + 1..]);
    } else {
      assert s[..n] == s;
    }
  }

  lemma FoundCR(s: Line)
    ensures NextCR(s) < |s| ==> CR in s
  {
    if NextCR(s) < |s| {
      assert s[NextCR(s)] in s;
    }
  }

  lemma WholePiece(s: Line)
    requires CR !in s
    ensures CrSplit(s) == [s]
  {
    FoundCR(s);
    NoCRWhole(s);
  }

  lemma {:induction false} StrBlankConcat(a: Line, b: Line)
    requires StrBlank(a) && StrBlank(b)
    ensures StrBlank(a + b)
    decreases |a|
  {
    if |a| == 0 {
      assert a + b == b;
    } else {
      var k := LeadingSpace(a);
      assert LeadingSpace(a + b) == k;
      assert (a + b)[k..] == a[k..] + b;
      StrBlankConcat(a[k..], b);
    }
  }

  lemma StrBlankCR()
    ensures StrBlank([CR])
  {
    assert LeadingSpace([CR]) == 1;
    assert [CR][1..] == [];
  }

  lemma BlankAround(p: Line, q: Line)
    requires StrBlank(p) && StrBlank(q)
    ensures StrBlank(p + ([CR] + q))
  {
    hide StrBlank, LeadingSpace;
    StrBlankCR();
    StrBlankConcat([CR], q);
    StrBlankConcat(p, [CR] + q);
  }

  /** A line all of whose pieces are blank is blank. */
  lemma {:induction false} BlankPieces(s: Line)
    requires Filter(SkipStrBlank, CrSplit(s)) == []
    ensures StrBlank(s)
    decreases |s|
  {
    hide StrBlank, LeadingSpace;
    var n := NextCR(s);
    if n < |s| {
      var p, q := s[..n], s[n + 1..];
      FilterCons(SkipStrBlank, p, CrSplit(q));
      BlankPieces(q);
      BlankAround(p, q);
      Around(s, n);
    } else {
      FilterCons(SkipStrBlank, s, []);
      assert [s] + [] == [s];
    }
  }

  /** The pieces that a reader skipping white space keeps. */
  function Visible(raw: Line): seq<Line> {
    Filter(SkipStrBlank, Pieces(raw))
  }

  function AllVisible(raws: seq<Line>): seq<Line>
    decreases |raws|
  {
    if |raws| == 0 then [] else Visible(raws[0]) + AllVisible(raws[1..])
  }

  lemma {:induction false} FilterConcat(skip: Skip, a: seq<Line>, b: seq<Line>)
    ensures Filter(skip, a + b) == Filter(skip, a) + Filter(skip, b)
    decreases |a|
  {
    hide Keeps;
    if |a| == 0 {
      assert a + b == b;
    } else {
      assert a + b == [a[0]] + (a[1..] + b);
      FilterCons(skip, a[0], a[1..] + b);
      FilterConcat(skip, a[1..], b);
    }
  }

  lemma {:induction false} BlankHasNoPiece(s: Line)
    requires Blank(s)
    ensures Filter(SkipStrBlank, CrSplit(s)) == []
    decreases |s|
  {
    hide StrBlank;
    var n := NextCR(s);
    if n < |s| {
      var p, q := s[..n], s[n + 1..];
      BlankIsStrBlank(p);
      FilterCons(SkipStrBlank, p, CrSplit(q));
      BlankHasNoPiece(q);
    } else {
      BlankIsStrBlank(s);
      FilterCons(SkipStrBlank, s, []);
      assert [s] + [] == [s];
    }
  }

  lemma BlankIsInvisible(raw: Line)
    requires Blank(raw)
    ensures Visible(raw) == []
  {
    BlankChop(raw);
    BlankHasNoPiece(ChopCR(raw));
  }

  /** What text mode shows of a file is what it shows of the file's records. */
  lemma {:induction false} VisibleLines(lines: seq<Line>)
    ensures Filter(SkipStrBlank, AllPieces(lines)) == AllVisible(Filter(SkipBlank, lines))
    decreases |lines|
  {
    hide Pieces, Visible, Blank, StrBlank;
    if |lines| > 0 {
      VisibleLines(lines[1..]);
      FilterConcat(SkipStrBlank, Pieces(lines[0]), AllPieces(lines[1..]));
      VisibleIs(lines[0]);
      var kept := Filter(SkipBlank, lines[1..]);
      if Blank(lines[0]) {
        BlankIsInvisible(lines[0]);
        assert [] + kept == kept;
      } else {
        assert ([lines[0]] + kept)[1..] == kept;
      }
    } else {
      NothingVisible();
    }
  }

  lemma NothingVisible()
    ensures Filter(SkipStrBlank, []) == [] && AllVisible([]) == [] && AllPieces([]) == []
  {
  }

  lemma VisibleIs(raw: Line)
    ensures Visible(raw) == Filter(SkipStrBlank, Pieces(raw))
  {
  }

  lemma TextShowsRecords(c: Codec, f: LogFile, index: nat)
    ensures Filter(SkipStrBlank, TextLines(f.data)) == AllVisible(Raws(FileRecords(c, f, index)))
  {
    hide TextLines, AllPieces, AllVisible, Filter, RecordsFrom;
    TextLinesArePieces(f.data);
    VisibleLines(Lines(f.data));
    RecordsAreLines(c, f, index);
  }

  lemma {:induction false} AllVisibleConcat(a: seq<Line>, b: seq<Line>)
    ensures AllVisible(a + b) == AllVisible(a) + AllVisible(b)
    decreases |a|
  {
    hide Visible;
    if |a| == 0 {
      assert a + b == b;
    } else {
      assert (a + b)[0] == a[0] && (a + b)[1..] == a[1..] + b;
      AllVisibleConcat(a[1..], b);
      Regroup(Visible(a[0]), AllVisible(a[1..]), AllVisible(b));
    }
  }

  /** A line without inner carriage return is seen whole. */
  lemma WholeIsVisible(raw: Line)
    requires CR !in ChopCR(raw) && !StrBlank(raw)
    ensures Visible(raw) == [ChopCR(raw)]
  {
    hide StrBlank, LeadingSpace;
    var s := ChopCR(raw);
    WholePiece(s);
    if |raw| > 0 && raw[|raw| - 1] == CR {
      StrBlankChop(raw);
    }
    FilterCons(SkipStrBlank, s, []);
    assert [s] + [] == [s];
  }

  /** A line that is not white space shows something. */
  lemma SomethingVisible(raw: Line)
    requires !StrBlank(raw)
    ensures |Visible(raw)| > 0
  {
    hide StrBlank, LeadingSpace;
    if |raw| > 0 && raw[|raw| - 1] == CR {
      StrBlankChop(raw);
    }
    if Visible(raw) == [] {
      BlankPieces(ChopCR(raw));
    }
  }

  lemma {:induction false} FilterIn(skip: Skip, lines: seq<Line>, i: nat)
    requires i < |Filter(skip, lines)|
    ensures Filter(skip, lines)[i] in lines && Keeps(skip, Filter(skip, lines)[i])
    decreases |lines|
  {
    hide Keeps;
    if Keeps(skip, lines[0]) {
      if i > 0 {
        FilterIn(skip, lines[1..], i - 1);
      }
    } else {
      FilterIn(skip, lines[1..], i);
    }
  }

  lemma VisibleHasNoCR(raw: Line, i: nat)
    requires i < |Visible(raw)|
    ensures CR !in Visible(raw)[i] && !StrBlank(Visible(raw)[i])
  {
    hide StrBlank, CrSplit, Filter;
    PiecesHaveNoCR(ChopCR(raw));
    FilterIn(SkipStrBlank, Pieces(raw), i);
  }
}
