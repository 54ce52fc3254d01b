/** Merging detected spans and rewriting the text (orchestrator/context_packager.py). */
module SpanMerging {

  datatype Action = Strip | Generalize | Pass | Other(name: string)

  /** A detected match at positions `start` up to `end` of the text. */
  datatype Span = Span(start: nat, end: nat, cls: string, action: Action, pattern: string, matched: string)

  /** Lower is more restrictive; an action without precedence counts as pass. */
  function Precedence(a: Action): nat {
    match a
    case Strip => 0
    case Generalize => 1
    case Pass => 2
    case Other(_) => 2
  }

  // ---------------------------------------------------------------- sorting

  predicate Before(a: Span, b: Span) {
    a.start < b.start || (a.start == b.start && Precedence(a.action) < Precedence(b.action))
  }

  function Insert(sorted: seq<Span>, x: Span): seq<Span>
    decreases |sorted|
  {
    var n := |sorted|;
    if n > 0 && Before(x, sorted[n - 1]) then Insert(sorted[..n - 1], x) + [sorted[n - 1]] else sorted + [x]
  }

  /** Stable sort by start, then by precedence. */
  function Sort(spans: seq<Span>): seq<Span>
    decreases |spans|
  {
    if |spans| == 0 then [] else Insert(Sort(spans[..|spans| - 1]), spans[|spans| - 1])
  }

  ghost predicate Ordered(s: seq<Span>) {
    forall i, j :: 0 <= i < j < |s| ==> !Before(s[j], s[i])
  }

  lemma {:induction false} InsertOrdered(sorted: seq<Span>, x: Span)
    requires Ordered(sorted)
    ensures Ordered(Insert(sorted, x)) && multiset(Insert(sorted, x)) == multiset(sorted) + multiset{x}
    decreases |sorted|
  {
    var n := |sorted|;
    if n > 0 && Before(x, sorted[n - 1]) {
      InsertOrdered(sorted[..n - 1], x);
      var r := Insert(sorted[..n - 1], x);
      assert sorted == sorted[..n - 1] + [sorted[n - 1]];
      forall i | 0 <= i < |r| ensures !Before(sorted[n - 1], r[i]) {
        assert r[i] in multiset(r);
        assert r[i] == x || r[i] in sorted[..n - 1];
      }
    }
  }

  lemma {:induction false} SortOrders(spans: seq<Span>)
    ensures Ordered(Sort(spans)) && multiset(Sort(spans)) == multiset(spans)
    decreases |spans|
  {
    hide Insert, Before;
    if |spans| > 0 {
      var n := |spans| - 1;
      SortOrders(spans[..n]);
      InsertOrdered(Sort(spans[..n]), spans[n]);
      assert spans == spans[..n] + [spans[n]];
    }
  }

  /** In the sorted order starts ascend, and at one start the more restrictive come first. */
  lemma SortMeaning(spans: seq<Span>)
    ensures var s := Sort(spans);
      forall i, j :: 0 <= i < j < |s| ==>
        && s[i].start <= s[j].start
        && (s[i].start == s[j].start ==>
              && (s[j].action == Strip ==> s[i].action == Strip)
              && (s[j].action == Generalize ==> s[i].action == Strip || s[i].action == Generalize))
  {
    SortOrders(spans);
    var s := Sort(spans);
    forall i, j | 0 <= i < j < |s|
      ensures s[i].start <= s[j].start
      ensures s[i].start == s[j].start ==> Precedence(s[i].action) <= Precedence(s[j].action)
    {
      assert !Before(s[j], s[i]);
    }
  }

  lemma SortMembers(spans: seq<Span>, s: Span)
    ensures s in Sort(spans) <==> s in spans
  {
    SortOrders(spans);
    assert s in Sort(spans) <==> s in multiset(Sort(spans));
    assert s in spans <==> s in multiset(spans);
  }

  predicate SameKey(a: Span, b: Span) {
    a.start == b.start && Precedence(a.action) == Precedence(b.action)
  }

  function WithKey(s: seq<Span>, k: Span): seq<Span>
    decreases |s|
  {
    if |s| == 0 then []
    else WithKey(s[..|s| - 1], k) + if SameKey(s[|s| - 1], k) then [s[|s| - 1]] else []
  }

  lemma {:induction false} InsertStable(sorted: seq<Span>, x: Span, k: Span)
    ensures WithKey(Insert(sorted, x), k) == WithKey(sorted + [x], k)
    decreases |sorted|
  {
    var n := |sorted|;
    assert (sorted + [x])[..n] == sorted;
    if n > 0 && Before(x, sorted[n - 1]) {
      var r := Insert(sorted[..n - 1], x);
      InsertStable(sorted[..n - 1], x, k);
      assert (r + [sorted[n - 1]])[..|r|] == r;
      assert (sorted[..n - 1] + [x])[..n - 1] == sorted[..n - 1];
    }
  }

  /** Spans with equal keys keep their order. */
  lemma {:induction false} SortStable(spans: seq<Span>, k: Span)
    ensures WithKey(Sort(spans), k) == WithKey(spans, k)
    decreases |spans|
  {
    if |spans| > 0 {
      var n := |spans| - 1;
      SortStable(spans[..n], k);
      var r := Sort(spans[..n]);
      InsertStable(r, spans[n], k);
      assert (r + [spans[n]])[..|r|] == r;
    }
  }

  // ---------------------------------------------------------------- merging

  /** `prev` extended by an overlapping span; the more restrictive action wins, the text stays. */
  function Join(prev: Span, span: Span): Span {
    var tightened :=
      if Precedence(span.action) < Precedence(prev.action)
      then prev.(action := span.action, cls := span.cls, pattern := span.pattern) else prev;
    tightened.(end := if span.end > prev.end then span.end else prev.end)
  }

  function MergeStep(merged: seq<Span>, span: Span): seq<Span> {
    var n := |merged|;
    if n > 0 && span.start < merged[n - 1].end then merged[..n - 1] + [Join(merged[n - 1], span)] else merged + [span]
  }

  function MergeSorted(sorted: seq<Span>): seq<Span>
    decreases |sorted|
  {
    if |sorted| == 0 then [] else MergeStep(MergeSorted(sorted[..|sorted| - 1]), sorted[|sorted| - 1])
  }

  function Merge(spans: seq<Span>): seq<Span> {
    MergeSorted(Sort(spans))
  }

  lemma MergeNext(sorted: seq<Span>, i: nat)
    requires i < |sorted|
    ensures MergeSorted(sorted[..i + 1]) == MergeStep(MergeSorted(sorted[..i]), sorted[i])
    ensures MergeSorted(sorted[..1]) == [sorted[0]]
  {
    hide MergeStep;
    assert sorted[..i + 1][..i] == sorted[..i];
    assert sorted[..1][..0] == [];
    assert MergeStep([], sorted[0]) == [sorted[0]] by {
      MergeFirst(sorted[0]);
    }
  }

  lemma MergeFirst(span: Span)
    ensures MergeStep([], span) == [span]
  {
  }

  method MergeOverlapping(spans: seq<Span>) returns (merged: seq<Span>)
    ensures merged == Merge(spans)
  {
    hide Sort, MergeSorted;
    var sorted := Sort(spans);
    SortOrders(spans);
    assert |sorted| == |multiset(sorted)| == |multiset(spans)| == |spans|;
    if |spans| == 0 {
      NothingToMerge();
      return [];
    }
    merged := [sorted[0]];
    MergeNext(sorted, 0);
    for i := 1 to |sorted|
      invariant |merged| > 0
      invariant merged == MergeSorted(sorted[..i])
    {
      MergeNext(sorted, i);
      var span, last := sorted[i], |merged| - 1;
      if span.start < merged[last].end {
        var prev := merged[last];
        if Precedence(span.action) < Precedence(prev.action) {
          prev := prev.(action := span.action, cls := span.cls, pattern := span.pattern);
        }
        prev := prev.(end := if span.end > prev.end then span.end else prev.end);
        merged := merged[..last] + [prev];
      } else {
        merged := merged + [span];
      }
    }
    assert sorted[..|sorted|] == sorted;
  }

  lemma NothingToMerge()
    ensures Merge([]) == []
  {
  }

  // ---------------------------------------------------------------- what merging means

  ghost predicate WellFormed(spans: seq<Span>) {
    forall i :: 0 <= i < |spans| ==> spans[i].start <= spans[i].end
  }

  ghost predicate Covers(spans: seq<Span>, p: int) {
    exists i :: 0 <= i < |spans| && spans[i].start <= p < spans[i].end
  }

  /** In order and disjoint. */
  ghost predicate Separate(spans: seq<Span>) {
    && WellFormed(spans)
    && forall i, j :: 0 <= i < j < |spans| ==> spans[i].end <= spans[j].start
  }

  predicate Within(s: Span, m: Span) {
    m.start <= s.start && s.end <= m.end
  }

  /** `s` lies in `m`, which is at least as restrictive. */
  ghost predicate Absorbed(s: Span, merged: seq<Span>) {
    exists i :: 0 <= i < |merged| && Within(s, merged[i]) && Precedence(merged[i].action) <= Precedence(s.action)
  }

  /** Action, class and pattern of `m` are those of one span inside it. */
  ghost predicate Justified(m: Span, spans: seq<Span>) {
    exists i :: 0 <= i < |spans| && Within(spans[i], m)
      && spans[i].action == m.action && spans[i].cls == m.cls && spans[i].pattern == m.pattern
  }

  ghost predicate MergeOf(spans: seq<Span>, merged: seq<Span>) {
    && Separate(merged)
    && (forall p :: Covers(spans, p) <==> Covers(merged, p))
    && (forall i :: 0 <= i < |spans| ==> Absorbed(spans[i], merged))
    && (forall i :: 0 <= i < |merged| ==> Justified(merged[i], spans))
  }

  lemma StepSeparate(merged: seq<Span>, span: Span)
    requires Separate(merged) && span.start <= span.end
    ensures Separate(MergeStep(merged, span))
  {
  }

  lemma StepCovers(merged: seq<Span>, span: Span, p: int)
    requires |merged| > 0 ==> merged[|merged| - 1].start <= span.start
    ensures Covers(MergeStep(merged, span), p) <==> Covers(merged, p) || span.start <= p < span.end
  {
    var r, n := MergeStep(merged, span), |merged|;
    if n > 0 && span.start < merged[n - 1].end {
      assert r[n - 1].start <= p < r[n - 1].end <==> merged[n - 1].start <= p < merged[n - 1].end || span.start <= p < span.end;
      assert forall i :: 0 <= i < n - 1 ==> r[i] == merged[i];
    } else {
      assert r[n] == span;
      assert forall i :: 0 <= i < n ==> r[i] == merged[i];
    }
  }

  lemma StepAbsorbs(merged: seq<Span>, span: Span, s: Span)
    requires |merged| > 0 ==> merged[|merged| - 1].start <= span.start
    requires s == span || Absorbed(s, merged)
    ensures Absorbed(s, MergeStep(merged, span))
  {
    var r, n := MergeStep(merged, span), |merged|;
    if s == span {
      assert Within(s, r[|r| - 1]);
    } else {
      var i :| 0 <= i < n && Within(s, merged[i]) && Precedence(merged[i].action) <= Precedence(s.action);
      assert Within(s, r[i]);
    }
  }

  lemma StepJustified(sorted: seq<Span>, merged: seq<Span>, span: Span, k: nat)
    requires |merged| > 0 ==> merged[|merged| - 1].start <= span.start
    requires forall i :: 0 <= i < |merged| ==> Justified(merged[i], sorted)
    requires k < |MergeStep(merged, span)|
    ensures Justified(MergeStep(merged, span)[k], sorted + [span])
  {
    var r, n, all := MergeStep(merged, span), |merged|, sorted + [span];
    assert all[|sorted|] == span;
    if k < n {
      var i :| 0 <= i < |sorted| && Within(sorted[i], merged[k])
        && sorted[i].action == merged[k].action && sorted[i].cls == merged[k].cls && sorted[i].pattern == merged[k].pattern;
      assert all[i] == sorted[i];
    }
  }

  lemma {:induction false} LastStart(sorted: seq<Span>)
    requires |sorted| > 0 && Ordered(sorted)
    ensures |MergeSorted(sorted)| > 0
    ensures MergeSorted(sorted)[|MergeSorted(sorted)| - 1].start <= sorted[|sorted| - 1].start
    decreases |sorted|
  {
    var n := |sorted| - 1;
    if n > 0 {
      LastStart(sorted[..n]);
      assert !Before(sorted[n], sorted[n - 1]);
    }
  }

  lemma StepMerges(sorted: seq<Span>, merged: seq<Span>, span: Span)
    requires MergeOf(sorted, merged) && span.start <= span.end
    requires |merged| > 0 ==> merged[|merged| - 1].start <= span.start
    ensures MergeOf(sorted + [span], MergeStep(merged, span))
  {
    hide MergeStep, Covers, Absorbed, Justified, Separate;
    var all, r := sorted + [span], MergeStep(merged, span);
    StepSeparate(merged, span);
    forall p ensures Covers(all, p) <==> Covers(r, p) {
      StepCovers(merged, span, p);
      CoversAppend(sorted, span, p);
    }
    forall i | 0 <= i < |all| ensures Absorbed(all[i], r) {
      StepAbsorbs(merged, span, all[i]);
    }
    forall k | 0 <= k < |r| ensures Justified(r[k], all) {
      StepJustified(sorted, merged, span, k);
    }
  }

  lemma {:induction false} SortedMerges(sorted: seq<Span>)
    requires Ordered(sorted) && WellFormed(sorted)
    ensures MergeOf(sorted, MergeSorted(sorted))
    decreases |sorted|
  {
    hide MergeStep, Absorbed, Justified;
    if |sorted| > 0 {
      var n := |sorted| - 1;
      SortedMerges(sorted[..n]);
      if n > 0 {
        LastStart(sorted[..n]);
        assert !Before(sorted[n], sorted[n - 1]);
      }
      StepMerges(sorted[..n], MergeSorted(sorted[..n]), sorted[n]);
      assert sorted == sorted[..n] + [sorted[n]];
    }
  }

  lemma CoversAppend(spans: seq<Span>, span: Span, p: int)
    ensures Covers(spans + [span], p) <==> Covers(spans, p) || span.start <= p < span.end
  {
    var all := spans + [span];
    assert all[|spans|] == span;
    assert forall i :: 0 <= i < |spans| ==> all[i] == spans[i];
  }

  lemma CoversSorted(spans: seq<Span>, p: int)
    ensures Covers(Sort(spans), p) <==> Covers(spans, p)
  {
    forall s ensures s in Sort(spans) <==> s in spans {
      SortMembers(spans, s);
    }
    if Covers(spans, p) {
      var i :| 0 <= i < |spans| && spans[i].start <= p < spans[i].end;
      assert spans[i] in Sort(spans);
    }
    if Covers(Sort(spans), p) {
      var i :| 0 <= i < |Sort(spans)| && Sort(spans)[i].start <= p < Sort(spans)[i].end;
      assert Sort(spans)[i] in spans;
    }
  }

  /** The merged spans are in order and disjoint, cover exactly the same positions, absorb every
      span into one at least as restrictive, and take their action from a span inside. */
  lemma MergeMeaning(spans: seq<Span>)
    requires WellFormed(spans)
    ensures MergeOf(spans, Merge(spans))
  {
    hide Covers, Absorbed, Justified, Separate, MergeSorted;
    var sorted, merged := Sort(spans), Merge(spans);
    SortOrders(spans);
    forall s ensures s in sorted <==> s in spans {
      SortMembers(spans, s);
    }
    assert forall i :: 0 <= i < |sorted| ==> sorted[i] in spans;
    SortedMerges(sorted);
    forall p ensures Covers(spans, p) <==> Covers(merged, p) {
      CoversSorted(spans, p);
    }
    forall i | 0 <= i < |spans| ensures Absorbed(spans[i], merged) {
      assert spans[i] in sorted;
    }
    forall i | 0 <= i < |merged| ensures Justified(merged[i], spans) {
      JustifiedFrom(merged[i], sorted, spans);
    }
  }

  lemma JustifiedFrom(m: Span, a: seq<Span>, b: seq<Span>)
    requires Justified(m, a) && forall i :: 0 <= i < |a| ==> a[i] in b
    ensures Justified(m, b)
  {
    var i :| 0 <= i < |a| && Within(a[i], m) && a[i].action == m.action && a[i].cls == m.cls && a[i].pattern == m.pattern;
    assert a[i] in b;
  }

  /** A merged span is as restrictive as the most restrictive span it shares a position with. */
  lemma MergedIsMostRestrictive(spans: seq<Span>, k: nat, i: nat, p: int)
    requires WellFormed(spans) && k < |Merge(spans)| && i < |spans|
    requires Merge(spans)[k].start <= p < Merge(spans)[k].end && spans[i].start <= p < spans[i].end
    ensures Precedence(Merge(spans)[k].action) <= Precedence(spans[i].action)
  {
    hide Merge, Covers, Justified;
    MergeMeaning(spans);
    assert Absorbed(spans[i], Merge(spans));
  }
}
