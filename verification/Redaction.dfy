/** Rewriting a text around its merged spans, and what that reveals
    (orchestrator/context_packager.py). */
module Redaction {
  import opened SpanMerging

  /** The classes with a generalizer, and what it makes of a matched text. */
  datatype Generalizers = Generalizers(known: set<string>, apply: (string, string) -> string)

  function Redacted(cls: string): string {
    "[REDACTED:" + cls + "]"
  }

  function Render(g: Generalizers, s: Span): string {
    match s.action
    case Strip => Redacted(s.cls)
    case Generalize => if s.cls in g.known then g.apply(s.cls, s.matched) else Redacted(s.cls)
    case Pass => s.matched
    case Other(_) => s.matched
  }

  // ---------------------------------------------------------------- the plan of a rewrite

  datatype Piece = Copy(from: nat, to: nat) | Replace(span: Span)

  /** Where copying resumes after the first `k` merged spans. */
  function Resume(merged: seq<Span>, k: nat): nat
    requires k <= |merged|
  {
    if k == 0 then 0 else merged[k - 1].end
  }

  function PlanUpTo(merged: seq<Span>, k: nat): seq<Piece>
    requires k <= |merged|
    decreases k
  {
    if k == 0 then []
    else PlanUpTo(merged, k - 1) + [Copy(Resume(merged, k - 1), merged[k - 1].start), Replace(merged[k - 1])]
  }

  /** Copied stretches and replacements of a text of length `n`, left to right. */
  function Plan(merged: seq<Span>, n: nat): seq<Piece> {
    PlanUpTo(merged, |merged|) + [Copy(Resume(merged, |merged|), n)]
  }

  ghost predicate InRange(spans: seq<Span>, n: nat) {
    forall i :: 0 <= i < |spans| ==> spans[i].start <= spans[i].end <= n
  }

  function Rendered(g: Generalizers, text: string, p: Piece): string {
    match p
    case Copy(from, to) => if from <= to <= |text| then text[from..to] else ""
    case Replace(span) => Render(g, span)
  }

  function Assemble(g: Generalizers, text: string, plan: seq<Piece>): string
    decreases |plan|
  {
    if |plan| == 0 then ""
    else Assemble(g, text, plan[..|plan| - 1]) + Rendered(g, text, plan[|plan| - 1])
  }

  lemma AssembleOne(g: Generalizers, text: string, plan: seq<Piece>, p: Piece)
    ensures Assemble(g, text, plan + [p]) == Assemble(g, text, plan) + Rendered(g, text, p)
  {
    assert (plan + [p])[..|plan|] == plan;
  }

  lemma AssembleSpan(g: Generalizers, text: string, merged: seq<Span>, k: nat)
    requires k < |merged|
    ensures Assemble(g, text, PlanUpTo(merged, k + 1))
      == Assemble(g, text, PlanUpTo(merged, k))
         + Rendered(g, text, Copy(Resume(merged, k), merged[k].start)) + Render(g, merged[k])
  {
    hide Rendered;
    var head, c, r := PlanUpTo(merged, k), Copy(Resume(merged, k), merged[k].start), Replace(merged[k]);
    AssembleOne(g, text, head, c);
    AssembleOne(g, text, head + [c], r);
    assert PlanUpTo(merged, k + 1) == (head + [c]) + [r];
    RenderedReplace(g, text, merged[k]);
  }

  lemma RenderedReplace(g: Generalizers, text: string, s: Span)
    ensures Rendered(g, text, Replace(s)) == Render(g, s)
  {
  }

  function Transform(g: Generalizers, text: string, spans: seq<Span>): string {
    Assemble(g, text, Plan(Merge(spans), |text|))
  }

  method TransformText(g: Generalizers, text: string, spans: seq<Span>) returns (result: string, applied: seq<Span>)
    requires InRange(spans, |text|)
    ensures applied == Merge(spans) && result == Transform(g, text, spans)
  {
    hide Merge, MergeOf, Assemble, PlanUpTo, Render;
    PlanStart(g, text, Merge(spans));
    if |spans| == 0 {
      NothingToMerge();
      AssembleOne(g, text, [], Copy(0, |text|));
      assert [] + [Copy(0, |text|)] == [Copy(0, |text|)];
      return text, [];
    }
    applied := MergeOverlapping(spans);
    MergedInRange(spans, |text|);
    result := "";
    var lastEnd := 0;
    for k := 0 to |applied|
      invariant lastEnd == Resume(applied, k)
      invariant result == Assemble(g, text, PlanUpTo(applied, k))
    {
      AssembleSpan(g, text, applied, k);
      result := result + text[lastEnd..applied[k].start];
      result := result + Render(g, applied[k]);
      lastEnd := applied[k].end;
    }
    AssembleOne(g, text, PlanUpTo(applied, |applied|), Copy(lastEnd, |text|));
    result := result + text[lastEnd..];
  }

  lemma PlanStart(g: Generalizers, text: string, merged: seq<Span>)
    ensures PlanUpTo(merged, 0) == [] && Assemble(g, text, []) == ""
  {
  }

  lemma MergedInRange(spans: seq<Span>, n: nat)
    requires InRange(spans, n)
    ensures InRange(Merge(spans), n)
    ensures forall k :: 0 <= k < |Merge(spans)| ==> Resume(Merge(spans), k) <= Merge(spans)[k].start <= Merge(spans)[k].end
  {
    hide Merge;
    var merged := Merge(spans);
    MergeMeaning(spans);
    forall k | 0 <= k < |merged| ensures merged[k].end <= n {
      if merged[k].start < merged[k].end {
        var p := merged[k].end - 1;
        assert Covers(merged, p);
        assert Covers(spans, p);
      } else {
        assert Justified(merged[k], spans);
      }
    }
  }

  // ---------------------------------------------------------------- every uncovered position once

  function Range(from: int, to: int): seq<int>
    decreases to - from
  {
    if from >= to then [] else Range(from, to - 1) + [to - 1]
  }

  function CopiedPositions(plan: seq<Piece>): seq<int>
    decreases |plan|
  {
    if |plan| == 0 then []
    else
      var p := plan[|plan| - 1];
      CopiedPositions(plan[..|plan| - 1]) + if p.Copy? then Range(p.from, p.to) else []
  }

  /** The positions below `n` outside all spans, ascending. */
  ghost function Outside(spans: seq<Span>, n: nat): seq<int>
    decreases n
  {
    if n == 0 then [] else Outside(spans, n - 1) + if Covers(spans, n - 1) then [] else [n - 1]
  }

  lemma {:induction false} OutsideGap(spans: seq<Span>, a: nat, b: nat)
    requires a <= b && forall p :: a <= p < b ==> !Covers(spans, p)
    ensures Outside(spans, b) == Outside(spans, a) + Range(a, b)
    decreases b
  {
    hide Covers;
    if a < b {
      OutsideGap(spans, a, b - 1);
    }
  }

  lemma {:induction false} OutsideSpan(spans: seq<Span>, a: nat, b: nat)
    requires a <= b && forall p :: a <= p < b ==> Covers(spans, p)
    ensures Outside(spans, b) == Outside(spans, a)
    decreases b
  {
    hide Covers;
    if a < b {
      OutsideSpan(spans, a, b - 1);
    }
  }

  lemma GapUncovered(merged: seq<Span>, k: nat, p: int)
    requires Separate(merged) && k <= |merged| && Resume(merged, k) <= p && (k < |merged| ==> p < merged[k].start)
    ensures !Covers(merged, p)
  {
    forall i | 0 <= i < |merged| ensures !(merged[i].start <= p < merged[i].end) {
      if i < k {
        assert i < k - 1 ==> merged[i].end <= merged[k - 1].start;
      }
    }
  }

  lemma CopiedOne(plan: seq<Piece>, p: Piece)
    ensures CopiedPositions(plan + [p]) == CopiedPositions(plan) + if p.Copy? then Range(p.from, p.to) else []
  {
    assert (plan + [p])[..|plan|] == plan;
  }

  lemma {:induction false} PlanCopies(merged: seq<Span>, k: nat)
    requires Separate(merged) && k <= |merged|
    ensures CopiedPositions(PlanUpTo(merged, k)) == Outside(merged, Resume(merged, k))
    decreases k
  {
    hide Covers, Range;
    if k > 0 {
      var a, s, b := Resume(merged, k - 1), merged[k - 1].start, merged[k - 1].end;
      var head, c, r := PlanUpTo(merged, k - 1), Copy(a, s), Replace(merged[k - 1]);
      PlanCopies(merged, k - 1);
      CopiedOne(head, c);
      CopiedOne(head + [c], r);
      assert PlanUpTo(merged, k) == (head + [c]) + [r];
      forall p | a <= p < s ensures !Covers(merged, p) {
        GapUncovered(merged, k - 1, p);
      }
      OutsideGap(merged, a, s);
      forall p | s <= p < b ensures Covers(merged, p) {
        SpanCovers(merged, k - 1, p);
      }
      OutsideSpan(merged, s, b);
    }
  }

  lemma SpanCovers(merged: seq<Span>, k: nat, p: int)
    requires k < |merged| && merged[k].start <= p < merged[k].end
    ensures Covers(merged, p)
  {
  }

  lemma {:induction false} SameOutside(a: seq<Span>, b: seq<Span>, n: nat)
    requires forall p :: Covers(a, p) <==> Covers(b, p)
    ensures Outside(a, n) == Outside(b, n)
    decreases n
  {
    hide Covers;
    if n > 0 {
      SameOutside(a, b, n - 1);
    }
  }

  /** The rewrite copies every position outside all spans exactly once, in order, and no other. */
  lemma CopiesTheOutside(spans: seq<Span>, n: nat)
    requires InRange(spans, n)
    ensures CopiedPositions(Plan(Merge(spans), n)) == Outside(spans, n)
  {
    hide Merge, Covers, Range, PlanUpTo;
    var merged := Merge(spans);
    MergedInRange(spans, n);
    MergeMeaning(spans);
    PlanCopies(merged, |merged|);
    var a := Resume(merged, |merged|);
    CopiedOne(PlanUpTo(merged, |merged|), Copy(a, n));
    forall p | a <= p < n ensures !Covers(merged, p) {
      GapUncovered(merged, |merged|, p);
    }
    OutsideGap(merged, a, n);
    SameOutside(merged, spans, n);
  }

  // ---------------------------------------------------------------- stripped text has no influence

  /** What the scan puts into a span. */
  ghost predicate Detected(spans: seq<Span>, text: string) {
    InRange(spans, |text|) && forall i :: 0 <= i < |spans| ==> spans[i].matched == text[spans[i].start..spans[i].end]
  }

  ghost predicate StripCovers(spans: seq<Span>, p: int) {
    exists i :: 0 <= i < |spans| && spans[i].action == Strip && spans[i].start <= p < spans[i].end
  }

  /** `s` shares a position with a strip span. */
  ghost predicate Touched(strips: seq<Span>, s: Span) {
    exists p: int :: s.start <= p < s.end && StripCovers(strips, p)
  }

  /** Equal, except that the matched texts may differ where a strip span touches. */
  ghost predicate Twin(strips: seq<Span>, a: Span, b: Span) {
    a.(matched := "") == b.(matched := "") && (a.matched == b.matched || Touched(strips, a))
  }

  ghost predicate Twins(strips: seq<Span>, a: seq<Span>, b: seq<Span>) {
    |a| == |b| && forall i :: 0 <= i < |a| ==> Twin(strips, a[i], b[i])
  }

  lemma TwinsOne(strips: seq<Span>, a: seq<Span>, b: seq<Span>, x: Span, y: Span)
    requires Twins(strips, a, b) && Twin(strips, x, y)
    ensures Twins(strips, a + [x], b + [y])
  {
  }

  lemma {:induction false} InsertTwins(strips: seq<Span>, a: seq<Span>, b: seq<Span>, x: Span, y: Span)
    requires Twins(strips, a, b) && Twin(strips, x, y)
    ensures Twins(strips, Insert(a, x), Insert(b, y))
    decreases |a|
  {
    hide Touched;
    var n := |a|;
    if n > 0 && Before(x, a[n - 1]) {
      InsertTwins(strips, a[..n - 1], b[..n - 1], x, y);
      TwinsOne(strips, Insert(a[..n - 1], x), Insert(b[..n - 1], y), a[n - 1], b[n - 1]);
    } else {
      TwinsOne(strips, a, b, x, y);
    }
  }

  lemma {:induction false} SortTwins(strips: seq<Span>, a: seq<Span>, b: seq<Span>)
    requires Twins(strips, a, b)
    ensures Twins(strips, Sort(a), Sort(b))
    decreases |a|
  {
    hide Twin, Insert;
    if |a| > 0 {
      var n := |a| - 1;
      SortTwins(strips, a[..n], b[..n]);
      InsertTwins(strips, Sort(a[..n]), Sort(b[..n]), a[n], b[n]);
    }
  }

  lemma JoinTwins(strips: seq<Span>, a: Span, b: Span, x: Span, y: Span)
    requires Twin(strips, a, b) && Twin(strips, x, y)
    ensures Twin(strips, Join(a, x), Join(b, y))
  {
    hide StripCovers;
    if a.matched != b.matched {
      var p: int :| a.start <= p < a.end && StripCovers(strips, p);
      assert Join(a, x).start <= p < Join(a, x).end;
    }
  }

  lemma StepTwins(strips: seq<Span>, a: seq<Span>, b: seq<Span>, x: Span, y: Span)
    requires Twins(strips, a, b) && Twin(strips, x, y)
    ensures Twins(strips, MergeStep(a, x), MergeStep(b, y))
  {
    hide Touched, Join;
    var n := |a|;
    if n > 0 && x.start < a[n - 1].end {
      JoinTwins(strips, a[n - 1], b[n - 1], x, y);
      TwinsOne(strips, a[..n - 1], b[..n - 1], Join(a[n - 1], x), Join(b[n - 1], y));
    } else {
      TwinsOne(strips, a, b, x, y);
    }
  }

  lemma {:induction false} MergeTwins(strips: seq<Span>, a: seq<Span>, b: seq<Span>)
    requires Twins(strips, a, b)
    ensures Twins(strips, MergeSorted(a), MergeSorted(b))
    decreases |a|
  {
    hide Twin, MergeStep;
    if |a| > 0 {
      var n := |a| - 1;
      MergeTwins(strips, a[..n], b[..n]);
      StepTwins(strips, MergeSorted(a[..n]), MergeSorted(b[..n]), a[n], b[n]);
    }
  }

  /** A merged span that a strip span touches is itself stripped. */
  lemma TouchedIsStripped(spans: seq<Span>, k: nat)
    requires WellFormed(spans) && k < |Merge(spans)| && Touched(spans, Merge(spans)[k])
    ensures Merge(spans)[k].action == Strip
  {
    hide Merge;
    var m := Merge(spans)[k];
    var p: int :| m.start <= p < m.end && StripCovers(spans, p);
    var i :| 0 <= i < |spans| && spans[i].action == Strip && spans[i].start <= p < spans[i].end;
    MergedIsMostRestrictive(spans, k, i, p);
  }

  lemma DetectedTwins(strips: seq<Span>, t1: string, t2: string, a: seq<Span>, b: seq<Span>)
    requires SameSpans(a, b) && Detected(a, t1) && Detected(b, t2)
    requires AgreeOutsideStrips(t1, t2, strips)
    ensures Twins(strips, a, b)
  {
    hide StripCovers;
    forall i | 0 <= i < |a| ensures Twin(strips, a[i], b[i]) {
      if !Touched(strips, a[i]) {
        assert t1[a[i].start..a[i].end] == t2[b[i].start..b[i].end];
      }
    }
  }

  /** The same matches found, whatever they read. */
  ghost predicate SameSpans(a: seq<Span>, b: seq<Span>) {
    |a| == |b| && forall i :: 0 <= i < |a| ==> a[i].(matched := "") == b[i].(matched := "")
  }

  ghost predicate AgreeOutsideStrips(t1: string, t2: string, spans: seq<Span>) {
    |t1| == |t2| && forall p :: 0 <= p < |t1| && !StripCovers(spans, p) ==> t1[p] == t2[p]
  }

  lemma {:induction false} AssembleSame(g: Generalizers, t1: string, t2: string, m1: seq<Span>, m2: seq<Span>, k: nat)
    requires |m1| == |m2| && |t1| == |t2| && k <= |m1|
    requires forall i :: 0 <= i < |m1| ==> m1[i].start == m2[i].start && m1[i].end == m2[i].end && Render(g, m1[i]) == Render(g, m2[i])
    requires forall i :: 0 <= i < |m1| ==>
      Rendered(g, t1, Copy(Resume(m1, i), m1[i].start)) == Rendered(g, t2, Copy(Resume(m1, i), m1[i].start))
    ensures Assemble(g, t1, PlanUpTo(m1, k)) == Assemble(g, t2, PlanUpTo(m2, k))
    decreases k
  {
    hide Render, Rendered, Assemble, PlanUpTo;
    PlanStart(g, t1, m1);
    PlanStart(g, t2, m2);
    if k > 0 {
      AssembleSame(g, t1, t2, m1, m2, k - 1);
      AssembleSpan(g, t1, m1, k - 1);
      AssembleSpan(g, t2, m2, k - 1);
    }
  }

  /** The two texts differ inside spans at most. */
  ghost predicate AgreeOutside(t1: string, t2: string, spans: seq<Span>) {
    |t1| == |t2| && forall p :: 0 <= p < |t1| && !Covers(spans, p) ==> t1[p] == t2[p]
  }

  /** A stretch between merged spans reads the same in both texts. */
  lemma GapAgrees(g: Generalizers, t1: string, t2: string, spans: seq<Span>, a: nat, b: nat)
    requires AgreeOutside(t1, t2, spans) && forall p :: a <= p < b ==> !Covers(spans, p)
    ensures Rendered(g, t1, Copy(a, b)) == Rendered(g, t2, Copy(a, b))
  {
    if a <= b <= |t1| {
      assert t1[a..b] == t2[a..b];
    }
  }

  /** Texts that agree outside all spans, and whose merged spans render the same. */
  lemma RenderedAlike(g: Generalizers, t1: string, t2: string, a: seq<Span>, b: seq<Span>)
    requires WellFormed(a) && AgreeOutside(t1, t2, a) && |Merge(a)| == |Merge(b)|
    requires forall i :: 0 <= i < |Merge(a)| ==>
      && Merge(a)[i].start == Merge(b)[i].start && Merge(a)[i].end == Merge(b)[i].end
      && Render(g, Merge(a)[i]) == Render(g, Merge(b)[i])
    ensures Transform(g, t1, a) == Transform(g, t2, b)
  {
    hide Merge, Rendered, Render, Assemble, PlanUpTo, AgreeOutside;
    var m1, m2, n := Merge(a), Merge(b), |t1|;
    SameLength(t1, t2, a);
    forall i | 0 <= i < |m1|
      ensures Rendered(g, t1, Copy(Resume(m1, i), m1[i].start)) == Rendered(g, t2, Copy(Resume(m1, i), m1[i].start))
    {
      GapIsOutside(a, i, n);
      GapAgrees(g, t1, t2, a, Resume(m1, i), m1[i].start);
    }
    AssembleSame(g, t1, t2, m1, m2, |m1|);
    GapIsOutside(a, |m1|, n);
    GapAgrees(g, t1, t2, a, Resume(m1, |m1|), n);
    AssembleOne(g, t1, PlanUpTo(m1, |m1|), Copy(Resume(m1, |m1|), n));
    AssembleOne(g, t2, PlanUpTo(m2, |m2|), Copy(Resume(m2, |m2|), n));
  }

  lemma SameLength(t1: string, t2: string, spans: seq<Span>)
    requires AgreeOutside(t1, t2, spans)
    ensures |t1| == |t2|
  {
  }

  lemma StripsAreSpans(t1: string, t2: string, spans: seq<Span>)
    requires AgreeOutsideStrips(t1, t2, spans)
    ensures AgreeOutside(t1, t2, spans)
  {
    forall p | 0 <= p < |t1| && !Covers(spans, p) ensures t1[p] == t2[p] {
      assert !StripCovers(spans, p);
    }
  }

  /** Whatever stands inside strip spans, the rewritten text is the same. */
  lemma StrippedTextHasNoInfluence(g: Generalizers, t1: string, t2: string, a: seq<Span>, b: seq<Span>)
    requires SameSpans(a, b) && Detected(a, t1) && Detected(b, t2)
    requires AgreeOutsideStrips(t1, t2, a)
    ensures Transform(g, t1, a) == Transform(g, t2, b)
  {
    hide Sort, MergeSorted, Covers, StripCovers, Touched, Detected, SameSpans, AgreeOutsideStrips, Transform, AgreeOutside;
    InRangeDetected(t1, t2, a, b);
    DetectedTwins(a, t1, t2, a, b);
    SortTwins(a, a, b);
    MergeTwins(a, Sort(a), Sort(b));
    forall i | 0 <= i < |Merge(a)| ensures Render(g, Merge(a)[i]) == Render(g, Merge(b)[i]) {
      assert Twin(a, Merge(a)[i], Merge(b)[i]);
      if Touched(a, Merge(a)[i]) {
        TouchedIsStripped(a, i);
      }
    }
    StripsAreSpans(t1, t2, a);
    RenderedAlike(g, t1, t2, a, b);
  }

  lemma GapIsOutside(spans: seq<Span>, k: nat, n: nat)
    requires WellFormed(spans) && k <= |Merge(spans)|
    ensures var m := Merge(spans);
      forall p :: Resume(m, k) <= p < (if k < |m| then m[k].start else n) ==> !Covers(spans, p)
  {
    hide Merge, Covers;
    var m := Merge(spans);
    MergeMeaning(spans);
    forall p | Resume(m, k) <= p < (if k < |m| then m[k].start else n) ensures !Covers(spans, p) {
      GapUncovered(m, k, p);
    }
  }

  lemma InRangeDetected(t1: string, t2: string, a: seq<Span>, b: seq<Span>)
    requires SameSpans(a, b) && Detected(a, t1) && Detected(b, t2)
    ensures |a| == |b| && WellFormed(a) && WellFormed(b)
  {
  }
}
