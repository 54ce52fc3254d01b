/** What stands where in a rewritten text, and what the hidden text can still influence
    (orchestrator/context_packager.py). */
module RedactionMeaning {
  import opened SpanMerging
  import opened Redaction

  // ---------------------------------------------------------------- which spans make up a merged one

  /** The greatest end of spans that are merged, as the next one finds it. */
  function Reach(group: seq<Span>): nat
    requires |group| > 0
    decreases |group|
  {
    var n := |group| - 1;
    if n == 0 || Reach(group[..n]) < group[n].end then group[n].end else Reach(group[..n])
  }

  /** `m` is what becomes of overlapping spans in their sorted order: it begins and reads as the first
      of them, reaches as far as the furthest, and has action, class and pattern of the first among
      the most restrictive. */
  ghost predicate MergedFrom(group: seq<Span>, m: Span) {
    && |group| > 0
    && m.start == group[0].start && m.matched == group[0].matched && m.end == Reach(group)
    && (forall j :: 0 < j < |group| ==> group[j].start < Reach(group[..j]))
    && exists w ::
         && 0 <= w < |group| && m.action == group[w].action && m.cls == group[w].cls && m.pattern == group[w].pattern
         && (forall j :: 0 <= j < |group| ==> Precedence(group[w].action) <= Precedence(group[j].action))
         && (forall j :: 0 <= j < w ==> Precedence(group[w].action) < Precedence(group[j].action))
  }

  /** Strip is more restrictive than generalize, which is more restrictive than anything else. */
  lemma MoreRestrictive(a: Action, b: Action)
    ensures Precedence(a) < Precedence(b) <==>
      (a == Strip && b != Strip) || (a == Generalize && b != Strip && b != Generalize)
  {
  }

  function Concat(groups: seq<seq<Span>>): seq<Span>
    decreases |groups|
  {
    if |groups| == 0 then [] else Concat(groups[..|groups| - 1]) + groups[|groups| - 1]
  }

  /** The sorted spans cut into groups, one for each merged span, where no group overlaps the merged
      span before it. */
  ghost predicate Grouped(sorted: seq<Span>, merged: seq<Span>, groups: seq<seq<Span>>) {
    && |groups| == |merged| && Concat(groups) == sorted
    && (forall k :: 0 <= k < |merged| ==> MergedFrom(groups[k], merged[k]))
    && (forall k :: 0 < k < |merged| ==> merged[k - 1].end <= merged[k].start)
  }

  lemma JoinGrows(group: seq<Span>, m: Span, span: Span)
    requires MergedFrom(group, m) && span.start < m.end
    ensures MergedFrom(group + [span], Join(m, span))
  {
    hide Reach;
    var more, n := group + [span], |group|;
    ReachNext(group, span);
    forall j | 0 < j < |more| ensures more[j].start < Reach(more[..j]) {
      if j < n {
        assert more[..j] == group[..j];
      }
    }
    var w :|
      && 0 <= w < |group| && m.action == group[w].action && m.cls == group[w].cls && m.pattern == group[w].pattern
      && (forall j :: 0 <= j < |group| ==> Precedence(group[w].action) <= Precedence(group[j].action))
      && (forall j :: 0 <= j < w ==> Precedence(group[w].action) < Precedence(group[j].action));
    if Precedence(span.action) < Precedence(m.action) {
      assert more[n] == span;
    } else {
      assert more[w] == group[w];
    }
  }

  lemma ReachNext(group: seq<Span>, span: Span)
    requires |group| > 0
    ensures Reach(group + [span]) == if Reach(group) < span.end then span.end else Reach(group)
    ensures (group + [span])[..|group|] == group
  {
    assert (group + [span])[..|group|] == group;
  }

  lemma ConcatNext(groups: seq<seq<Span>>, group: seq<Span>)
    ensures Concat(groups + [group]) == Concat(groups) + group
  {
    assert (groups + [group])[..|groups|] == groups;
  }

  /** One more sorted span joins the last group or opens one. */
  lemma GroupsStep(sorted: seq<Span>, merged: seq<Span>, groups: seq<seq<Span>>, span: Span) returns (next: seq<seq<Span>>)
    requires Grouped(sorted, merged, groups)
    ensures Grouped(sorted + [span], MergeStep(merged, span), next)
  {
    hide MergedFrom, Concat;
    var n := |merged|;
    if n > 0 && span.start < merged[n - 1].end {
      var before, last := groups[..n - 1], groups[n - 1];
      assert groups == before + [last];
      ConcatNext(before, last);
      ConcatNext(before, last + [span]);
      JoinGrows(last, merged[n - 1], span);
      assert Join(merged[n - 1], span).start == merged[n - 1].start;
      hide Join;
      next := before + [last + [span]];
    } else {
      ConcatNext(groups, [span]);
      AloneInGroup(span);
      next := groups + [[span]];
    }
  }

  lemma AloneInGroup(span: Span)
    ensures MergedFrom([span], span)
  {
    assert [span][0] == span;
  }

  lemma {:induction false} SortedGroups(sorted: seq<Span>) returns (groups: seq<seq<Span>>)
    ensures Grouped(sorted, MergeSorted(sorted), groups)
    decreases |sorted|
  {
    hide MergeStep, MergedFrom;
    if |sorted| == 0 {
      groups := [];
    } else {
      var n := |sorted| - 1;
      groups := SortedGroups(sorted[..n]);
      assert sorted[..n] + [sorted[n]] == sorted;
      hide Grouped;
      groups := GroupsStep(sorted[..n], MergeSorted(sorted[..n]), groups, sorted[n]);
    }
  }

  /** The merged spans are the groups of overlapping spans, in sorted order. */
  lemma MergeGroups(spans: seq<Span>) returns (groups: seq<seq<Span>>)
    ensures Grouped(Sort(spans), Merge(spans), groups)
  {
    groups := SortedGroups(Sort(spans));
  }

  // ---------------------------------------------------------------- what stands where

  /** Spans in order from `from` on, within a text of length `n`. */
  ghost predicate InOrder(from: nat, merged: seq<Span>, n: nat) {
    && from <= n && InRange(merged, n)
    && (|merged| > 0 ==> from <= merged[0].start)
    && forall k :: 0 < k < |merged| ==> merged[k - 1].end <= merged[k].start
  }

  lemma InOrderRest(from: nat, merged: seq<Span>, n: nat)
    requires InOrder(from, merged, n) && |merged| > 0
    ensures InOrder(merged[0].end, merged[1..], n)
  {
    assert forall k :: 0 <= k < |merged| - 1 ==> merged[1..][k] == merged[k + 1];
  }

  /** The text from `from` on with the merged spans replaced, left to right. */
  ghost function Interleave(text: string, from: nat, merged: seq<Span>, replacements: seq<string>): string
    requires |merged| == |replacements| && InOrder(from, merged, |text|)
    decreases |merged|
  {
    if |merged| == 0 then text[from..]
    else
      InOrderRest(from, merged, |text|);
      text[from..merged[0].start] + replacements[0]
      + Interleave(text, merged[0].end, merged[1..], replacements[1..])
  }

  /** What replaces one merged span: the marker of its class for a strip, the generalizer's value for a
      generalize of a known class and the marker for any other, the matched text for any other action. */
  ghost predicate Replaces(g: Generalizers, m: Span, r: string) {
    && (m.action == Strip ==> r == "[REDACTED:" + m.cls + "]")
    && (m.action == Generalize ==> r == if m.cls in g.known then g.apply(m.cls, m.matched) else "[REDACTED:" + m.cls + "]")
    && (m.action != Strip && m.action != Generalize ==> r == m.matched)
  }

  /** The rewritten text is, left to right, the text outside the merged spans and, at each of them, its
      replacement. */
  lemma RewrittenText(g: Generalizers, text: string, spans: seq<Span>, replacements: seq<string>)
    requires InRange(spans, |text|) && |replacements| == |Merge(spans)|
    requires forall k :: 0 <= k < |replacements| ==> Replaces(g, Merge(spans)[k], replacements[k])
    ensures InOrder(0, Merge(spans), |text|)
    ensures Transform(g, text, spans) == Interleave(text, 0, Merge(spans), replacements)
  {
    hide Merge, Assemble, PlanUpTo, Interleave, Rendered, Replaces;
    var merged := Merge(spans);
    MergedInRange(spans, |text|);
    assert forall k :: 0 < k < |merged| ==> Resume(merged, k) <= merged[k].start;
    RenderIsReplacement(g, merged, replacements);
    PlanStart(g, text, merged);
    AssembleOne(g, text, PlanUpTo(merged, |merged|), Copy(Resume(merged, |merged|), |text|));
    assert merged[0..] == merged && replacements[0..] == replacements;
    RestInOrder(merged, |text|, 0);
    RestOfText(g, text, merged, replacements, 0);
    var rest := Interleave(text, 0, merged, replacements);
    assert "" + rest == rest;
  }

  lemma RenderIsReplacement(g: Generalizers, merged: seq<Span>, replacements: seq<string>)
    requires |merged| == |replacements| && forall k :: 0 <= k < |merged| ==> Replaces(g, merged[k], replacements[k])
    ensures forall k :: 0 <= k < |merged| ==> Render(g, merged[k]) == replacements[k]
  {
    forall k | 0 <= k < |merged| ensures Render(g, merged[k]) == replacements[k] {
      assert Replaces(g, merged[k], replacements[k]);
    }
  }

  lemma RestInOrder(merged: seq<Span>, n: nat, k: nat)
    requires InOrder(0, merged, n) && k <= |merged|
    ensures InOrder(Resume(merged, k), merged[k..], n)
  {
    assert forall i :: 0 <= i < |merged| - k ==> merged[k..][i] == merged[i + k];
  }

  /** What the first `k` spans have produced, followed by the rest, is the whole. */
  lemma {:induction false} RestOfText(g: Generalizers, text: string, merged: seq<Span>, replacements: seq<string>, k: nat)
    requires InOrder(0, merged, |text|) && |replacements| == |merged| && k <= |merged|
    requires forall i :: 0 <= i < |merged| ==> Render(g, merged[i]) == replacements[i]
    ensures InOrder(Resume(merged, k), merged[k..], |text|)
    ensures Assemble(g, text, PlanUpTo(merged, k)) + Interleave(text, Resume(merged, k), merged[k..], replacements[k..])
      == Assemble(g, text, PlanUpTo(merged, |merged|)) + Rendered(g, text, Copy(Resume(merged, |merged|), |text|))
    decreases |merged| - k
  {
    hide Assemble, PlanUpTo, Render, InOrder, Interleave;
    RestInOrder(merged, |text|, k);
    if k < |merged| {
      RestOfText(g, text, merged, replacements, k + 1);
      AssembleSpan(g, text, merged, k);
      var done := Assemble(g, text, PlanUpTo(merged, k));
      var gap := Rendered(g, text, Copy(Resume(merged, k), merged[k].start));
      InterleaveNext(g, text, merged, replacements, k);
      hide Rendered, Resume;
      Regroup(done, gap, replacements[k], Interleave(text, merged[k].end, merged[k + 1..], replacements[k + 1..]));
    } else {
      InterleaveEnd(g, text, merged, replacements);
    }
  }

  lemma InterleaveNext(g: Generalizers, text: string, merged: seq<Span>, replacements: seq<string>, k: nat)
    requires k < |merged| == |replacements| && InOrder(Resume(merged, k), merged[k..], |text|)
    ensures InOrder(merged[k].end, merged[k + 1..], |text|)
    ensures Interleave(text, Resume(merged, k), merged[k..], replacements[k..])
      == Rendered(g, text, Copy(Resume(merged, k), merged[k].start)) + replacements[k]
         + Interleave(text, merged[k].end, merged[k + 1..], replacements[k + 1..])
  {
    InOrderRest(Resume(merged, k), merged[k..], |text|);
    assert merged[k..][1..] == merged[k + 1..] && replacements[k..][1..] == replacements[k + 1..];
  }

  lemma InterleaveEnd(g: Generalizers, text: string, merged: seq<Span>, replacements: seq<string>)
    requires |merged| == |replacements| && InOrder(Resume(merged, |merged|), merged[|merged|..], |text|)
    ensures Interleave(text, Resume(merged, |merged|), merged[|merged|..], replacements[|merged|..])
      == Rendered(g, text, Copy(Resume(merged, |merged|), |text|))
  {
  }

  lemma Regroup(a: string, b: string, c: string, d: string)
    ensures ((a + b) + c) + d == a + ((b + c) + d)
  {
  }

  // ---------------------------------------------------------------- hidden text has no influence

  ghost predicate HiddenCovers(spans: seq<Span>, p: int) {
    exists i :: 0 <= i < |spans| && (spans[i].action == Strip || spans[i].action == Generalize)
      && spans[i].start <= p < spans[i].end
  }

  ghost predicate AgreeOutsideHidden(t1: string, t2: string, spans: seq<Span>) {
    |t1| == |t2| && forall p :: 0 <= p < |t1| && !HiddenCovers(spans, p) ==> t1[p] == t2[p]
  }

  /** The spans with every generalize counted as a strip. */
  function AsStrips(spans: seq<Span>): seq<Span> {
    seq(|spans|, i requires 0 <= i < |spans| => if spans[i].action == Generalize then spans[i].(action := Strip) else spans[i])
  }

  lemma HiddenAsStrips(spans: seq<Span>, p: int)
    ensures StripCovers(AsStrips(spans), p) <==> HiddenCovers(spans, p)
  {
    var strips := AsStrips(spans);
    assert forall i :: 0 <= i < |spans| ==>
      (strips[i].action == Strip <==> spans[i].action == Strip || spans[i].action == Generalize)
      && strips[i].start == spans[i].start && strips[i].end == spans[i].end;
    if HiddenCovers(spans, p) {
      var i :| 0 <= i < |spans| && (spans[i].action == Strip || spans[i].action == Generalize)
        && spans[i].start <= p < spans[i].end;
      assert strips[i].action == Strip;
    }
  }

  /** A merged span that hidden text touches is itself stripped or generalized. */
  lemma TouchedIsHidden(spans: seq<Span>, k: nat)
    requires WellFormed(spans) && k < |Merge(spans)| && Touched(AsStrips(spans), Merge(spans)[k])
    ensures Merge(spans)[k].action == Strip || Merge(spans)[k].action == Generalize
  {
    hide Merge;
    var m := Merge(spans)[k];
    var p: int :| m.start <= p < m.end && StripCovers(AsStrips(spans), p);
    HiddenAsStrips(spans, p);
    var i :| 0 <= i < |spans| && (spans[i].action == Strip || spans[i].action == Generalize)
      && spans[i].start <= p < spans[i].end;
    MergedIsMostRestrictive(spans, k, i, p);
  }

  /** Two texts in which the same spans are found, and which differ inside strip and generalize spans
      only, are rewritten to the same text whenever the generalizers agree on what the merged
      generalize spans of known classes read; a class without a generalizer asks nothing. */
  lemma HiddenTextHasNoInfluence(g: Generalizers, t1: string, t2: string, a: seq<Span>, b: seq<Span>)
    requires SameSpans(a, b) && Detected(a, t1) && Detected(b, t2)
    requires AgreeOutsideHidden(t1, t2, a)
    requires forall k :: 0 <= k < |Merge(a)| && k < |Merge(b)| ==>
      var m := Merge(a)[k];
      m.action == Generalize && m.cls in g.known ==> g.apply(m.cls, m.matched) == g.apply(m.cls, Merge(b)[k].matched)
    ensures Transform(g, t1, a) == Transform(g, t2, b)
  {
    hide Sort, MergeSorted, Covers, StripCovers, HiddenCovers, Touched, Detected, SameSpans, Transform, AsStrips, AgreeOutside,
      AgreeOutsideHidden;
    var hidden := AsStrips(a);
    InRangeDetected(t1, t2, a, b);
    AgreeAsStrips(t1, t2, a);
    DetectedTwins(hidden, t1, t2, a, b);
    SortTwins(hidden, a, b);
    MergeTwins(hidden, Sort(a), Sort(b));
    forall i | 0 <= i < |Merge(a)| ensures Render(g, Merge(a)[i]) == Render(g, Merge(b)[i]) {
      assert Twin(hidden, Merge(a)[i], Merge(b)[i]);
      if Touched(hidden, Merge(a)[i]) {
        TouchedIsHidden(a, i);
      }
    }
    RenderedAlike(g, t1, t2, a, b);
  }

  lemma AgreeAsStrips(t1: string, t2: string, spans: seq<Span>)
    requires AgreeOutsideHidden(t1, t2, spans)
    ensures AgreeOutsideStrips(t1, t2, AsStrips(spans)) && AgreeOutside(t1, t2, spans)
  {
    hide HiddenCovers, StripCovers;
    forall p | 0 <= p < |t1| && !StripCovers(AsStrips(spans), p) ensures t1[p] == t2[p] {
      HiddenAsStrips(spans, p);
    }
    forall p | 0 <= p < |t1| && !Covers(spans, p) ensures t1[p] == t2[p] {
      HiddenIsCovered(spans, p);
    }
  }

  lemma HiddenIsCovered(spans: seq<Span>, p: int)
    requires !Covers(spans, p)
    ensures !HiddenCovers(spans, p)
  {
  }
}
