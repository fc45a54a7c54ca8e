/** Masking when spans overlap: which characters of the text are left, for any number of spans. */
module MaskingOverlaps {
  import opened Wrappers
  import opened Sequences
  import opened Findings
  import opened Masking
  import opened MaskingProofs

  // ---------- Where the characters of the masked text come from ----------

  /** A character of the text, by its position, or one of a mask. */
  datatype Origin = Original(index: nat) | Inserted

  ghost predicate Forward(fs: seq<Finding>) {
    forall f :: f in fs ==> 0 <= f.location.start < f.location.end
  }

  /** A stretch replaced; positions past the end are taken for the end. */
  function Cut<T>(s: seq<T>, from: nat, to: nat, m: seq<T>): seq<T> {
    s[..Min(from, |s|)] + m + s[Min(to, |s|)..]
  }

  ghost function Front(fs: seq<Finding>): seq<Finding>
    requires fs != []
  {
    fs[..|fs| - 1]
  }

  ghost function Last(fs: seq<Finding>): Finding
    requires fs != []
  {
    fs[|fs| - 1]
  }

  /** The mask that the last of the spans is given: it is made of what the earlier ones have left there. */
  ghost function LastMask(text: string, fs: seq<Finding>): string
    requires fs != []
  {
    Mask(Last(fs), JsSlice(SpliceAll(text, Front(fs)), Last(fs).location.start, Last(fs).location.end))
  }

  function Inserts(n: nat): (r: seq<Origin>)
    ensures |r| == n && forall i :: 0 <= i < n ==> r[i] == Inserted
  {
    seq(n, i => Inserted)
  }

  /** The masked text, character by character, by origin. */
  ghost function Origins(text: string, fs: seq<Finding>): seq<Origin>
    requires Forward(fs)
    decreases |fs|
  {
    if fs == [] then seq(|text|, i requires 0 <= i < |text| => Original(i))
    else
      var l := Last(fs).location;
      Cut(Origins(text, Front(fs)), l.start, l.end, Inserts(|LastMask(text, fs)|))
  }

  /** How far the spans that start at or before a position move what stands behind them. */
  ghost function Drift(text: string, fs: seq<Finding>, p: int): int
    decreases |fs|
  {
    if fs == [] then 0
    else
      var l := Last(fs).location;
      Drift(text, Front(fs), p) + if l.start <= p then |LastMask(text, fs)| - (l.end - l.start) else 0
  }

  /** The condition, in span ends and mask lengths alone: at the turn of every span that starts at or before the
      position, the spans before it have not moved the character to a place before the end of this one. */
  ghost predicate Survives(text: string, fs: seq<Finding>, p: int)
    decreases |fs|
  {
    fs == []
    || (Survives(text, Front(fs), p)
        && (Last(fs).location.start <= p ==> p + Drift(text, Front(fs), p) >= Last(fs).location.end))
  }

  lemma SpliceIsCut(safe: string, f: Finding)
    requires 0 <= f.location.start < f.location.end
    ensures var l := f.location; Splice(safe, f) == Cut(safe, l.start, l.end, Mask(f, JsSlice(safe, l.start, l.end)))
  {
    hide Mask;
  }

  lemma SpliceAllIsCut(text: string, fs: seq<Finding>)
    requires fs != [] && Forward(fs)
    ensures var l := Last(fs).location;
      SpliceAll(text, fs) == Cut(SpliceAll(text, Front(fs)), l.start, l.end, LastMask(text, fs))
  {
    hide SpliceAll, Splice, Mask, JsSlice, Cut;
    assert fs == Front(fs) + [Last(fs)];
    SpliceAllSnoc(text, Front(fs), Last(fs));
    SpliceIsCut(SpliceAll(text, Front(fs)), Last(fs));
  }

  lemma {:induction false} NothingBefore(text: string, fs: seq<Finding>, p: int)
    requires forall f :: f in fs ==> p < f.location.start
    ensures Drift(text, fs, p) == 0 && Survives(text, fs, p)
    decreases |fs|
  {
    hide LastMask;
    if fs != [] {
      NothingBefore(text, Front(fs), p);
    }
  }

  /** A surviving character never gets in front of the lowest start at or before it. */
  lemma StaysBehind(text: string, fs: seq<Finding>, s: int, p: int)
    requires Descending(fs) && Forward(fs) && (forall f :: f in fs ==> s <= f.location.start)
    requires s <= p && Survives(text, fs, p)
    ensures s <= p + Drift(text, fs, p)
  {
    hide LastMask;
    if fs != [] && p < Last(fs).location.start {
      forall f | f in fs ensures p < f.location.start {
        var i :| 0 <= i < |fs| && fs[i] == f;
      }
      NothingBefore(text, fs, p);
    }
  }

  /** One character, at one turn. */
  lemma CutMoves<T>(s: seq<T>, from: nat, to: nat, m: seq<T>, q: nat)
    requires from < to && q < |s|
    ensures q < from ==> q < |Cut(s, from, to, m)| && Cut(s, from, to, m)[q] == s[q]
    ensures q >= to ==>
      var r := q + |m| - (to - from);
      from <= r < |Cut(s, from, to, m)| && Cut(s, from, to, m)[r] == s[q]
  {
  }

  /** And back: a character of the result is from in front, from the mask, or from behind. */
  lemma CutComes<T>(s: seq<T>, from: nat, to: nat, m: seq<T>, r: nat)
    requires from < to && r < |Cut(s, from, to, m)|
    ensures
      || (r < from && r < |s| && Cut(s, from, to, m)[r] == s[r])
      || (exists k :: 0 <= k < |m| && Cut(s, from, to, m)[r] == m[k])
      || (var q := r - |m| + (to - from); to <= q < |s| && Cut(s, from, to, m)[r] == s[q])
  {
    var a := Min(from, |s|);
    if a <= r < a + |m| {
      assert Cut(s, from, to, m)[r] == m[r - a];
    }
  }

  /** A surviving character stands where the drift has taken it. */
  ghost predicate StandsAt(text: string, fs: seq<Finding>, p: nat)
    requires p < |text| && Forward(fs)
  {
    var q := p + Drift(text, fs, p);
    && 0 <= q < |Origins(text, fs)| && q < |SpliceAll(text, fs)|
    && Origins(text, fs)[q] == Original(p) && SpliceAll(text, fs)[q] == text[p]
  }

  /** Any character of the text in the result is a surviving one, where it should be. */
  ghost predicate ComesFrom(text: string, fs: seq<Finding>, r: nat)
    requires Forward(fs)
  {
    r < |Origins(text, fs)| && Origins(text, fs)[r].Original? ==>
      var p := Origins(text, fs)[r].index;
      p < |text| && Survives(text, fs, p) && r == p + Drift(text, fs, p)
  }

  lemma {:induction false} OriginsAreExact(text: string, fs: seq<Finding>)
    requires Descending(fs) && Forward(fs)
    ensures |Origins(text, fs)| == |SpliceAll(text, fs)|
    ensures forall p: nat :: p < |text| && Survives(text, fs, p) ==> StandsAt(text, fs, p)
    ensures forall r: nat :: r < |Origins(text, fs)| ==> ComesFrom(text, fs, r)
    decreases |fs|
  {
    if fs == [] {
      SpliceNone(text);
    } else {
      hide Origins, SpliceAll, LastMask, Survives, Drift, StandsAt, ComesFrom, Cut;
      OriginsAreExact(text, Front(fs));
      OriginsOfLast(text, fs);
      SpliceAllIsCut(text, fs);
      CutLength(text, fs);
      forall p: nat | p < |text| && Survives(text, fs, p) ensures StandsAt(text, fs, p) {
        SurvivorMoves(text, fs, p);
      }
      forall r: nat | r < |Origins(text, fs)| ensures ComesFrom(text, fs, r) {
        OriginMoved(text, fs, r);
      }
    }
  }

  lemma OriginsOfLast(text: string, fs: seq<Finding>)
    requires fs != [] && Forward(fs)
    ensures var l := Last(fs).location;
      Origins(text, fs) == Cut(Origins(text, Front(fs)), l.start, l.end, Inserts(|LastMask(text, fs)|))
  {
    hide LastMask, Cut;
  }

  lemma CutLength(text: string, fs: seq<Finding>)
    requires fs != [] && Forward(fs) && |Origins(text, Front(fs))| == |SpliceAll(text, Front(fs))|
    ensures |Origins(text, fs)| == |SpliceAll(text, fs)|
  {
    hide Origins, SpliceAll, LastMask;
    OriginsOfLast(text, fs);
    SpliceAllIsCut(text, fs);
  }

  lemma TurnOf(text: string, fs: seq<Finding>, p: nat)
    requires fs != [] && Forward(fs) && Descending(fs) && Survives(text, fs, p)
    ensures var l := Last(fs).location;
      && Survives(text, Front(fs), p) && Forward(Front(fs)) && 0 <= l.start < l.end
      && (p < l.start ==> Drift(text, Front(fs), p) == Drift(text, fs, p) == 0)
      && (p >= l.start ==>
            && p + Drift(text, Front(fs), p) >= l.end
            && Drift(text, fs, p) == Drift(text, Front(fs), p) + |LastMask(text, fs)| - (l.end - l.start))
  {
    hide LastMask;
    if p < Last(fs).location.start {
      FrontStartsLater(fs, p);
      NothingBefore(text, Front(fs), p);
    }
  }

  lemma SurvivorMoves(text: string, fs: seq<Finding>, p: nat)
    requires fs != [] && Forward(fs) && Descending(fs) && p < |text| && Survives(text, fs, p)
    requires Survives(text, Front(fs), p) ==> StandsAt(text, Front(fs), p)
    ensures StandsAt(text, fs, p)
  {
    hide Origins, SpliceAll, LastMask, Cut, Survives, Drift, Descending, Forward, Front, Last, Inserts;
    var l := Last(fs).location;
    TurnOf(text, fs, p);
    OriginsOfLast(text, fs);
    SpliceAllIsCut(text, fs);
    var q := p + Drift(text, Front(fs), p);
    CutMoves(Origins(text, Front(fs)), l.start, l.end, Inserts(|LastMask(text, fs)|), q);
    CutMoves(SpliceAll(text, Front(fs)), l.start, l.end, LastMask(text, fs), q);
  }

  lemma FrontStartsLater(fs: seq<Finding>, p: int)
    requires fs != [] && Descending(fs) && p < Last(fs).location.start
    ensures forall f :: f in Front(fs) ==> p < f.location.start
  {
    forall f | f in Front(fs) ensures p < f.location.start {
      var i :| 0 <= i < |Front(fs)| && Front(fs)[i] == f;
      assert fs[i].location.start >= fs[|fs| - 1].location.start;
    }
  }

  lemma OriginMoved(text: string, fs: seq<Finding>, r: nat)
    requires fs != [] && Forward(fs) && Descending(fs) && r < |Origins(text, fs)|
    requires forall q: nat :: q < |Origins(text, Front(fs))| ==> ComesFrom(text, Front(fs), q)
    ensures ComesFrom(text, fs, r)
  {
    hide Origins, LastMask, Cut;
    var l := Last(fs).location;
    var before, m := Origins(text, Front(fs)), Inserts(|LastMask(text, fs)|);
    OriginsOfLast(text, fs);
    CutComes(before, l.start, l.end, m, r);
    var o := Origins(text, fs)[r];
    if o.Original? {
      var q := if r < l.start && r < |before| && before[r] == o then r else r - |m| + (l.end - l.start);
      assert ComesFrom(text, Front(fs), q);
      var p := o.index;
      if p < l.start {
        FrontStartsLater(fs, p);
        NothingBefore(text, Front(fs), p);
      } else {
        LastIsLowest(fs);
        StaysBehind(text, Front(fs), l.start, p);
      }
    }
  }

  lemma LastIsLowest(fs: seq<Finding>)
    requires fs != [] && Descending(fs)
    ensures forall f :: f in Front(fs) ==> Last(fs).location.start <= f.location.start
  {
    forall f | f in Front(fs) ensures Last(fs).location.start <= f.location.start {
      var i :| 0 <= i < |Front(fs)| && Front(fs)[i] == f;
      assert fs[i].location.start >= fs[|fs| - 1].location.start;
    }
  }

  // ---------- The masked text of any findings ----------

  /** The spans in the order in which they are masked. */
  ghost function Spans(findings: seq<Finding>): seq<Finding> {
    SortFromRight(MaskableOf(findings))
  }

  /** A character is left in the masked text. */
  ghost predicate IsLeft(text: string, fs: seq<Finding>, p: nat)
    requires Forward(fs)
  {
    Original(p) in Origins(text, fs)
  }

  lemma SpansAreForward(findings: seq<Finding>)
    requires forall f :: f in findings && Maskable(f) ==> 0 <= f.location.start
    ensures Forward(Spans(findings)) && Descending(Spans(findings))
    ensures forall f :: f in Spans(findings) <==> f in findings && Maskable(f)
  {
    SortMembers(MaskableOf(findings));
    SortIsDescending(MaskableOf(findings));
  }

  /** Any number of spans, overlapping, equal or running past the end: a character is left in the masked text if and
      only if it survives every turn, and then it stands where the drift has taken it, once. */
  lemma LeftIffSurvives(text: string, findings: seq<Finding>, p: nat)
    requires p < |text| && forall f :: f in findings && Maskable(f) ==> 0 <= f.location.start
    ensures var fs := Spans(findings);
      && Forward(fs)
      && |Origins(text, fs)| == |MaskedText(text, findings)|
      && (IsLeft(text, fs, p) <==> Survives(text, fs, p))
      && (Survives(text, fs, p) ==>
            var q := p + Drift(text, fs, p);
            0 <= q < |MaskedText(text, findings)| && MaskedText(text, findings)[q] == text[p])
      && forall r :: 0 <= r < |Origins(text, fs)| && Origins(text, fs)[r] == Original(p) ==> r == p + Drift(text, fs, p)
  {
    hide Survives, Drift, Origins, SpliceAll, Spans, Forward, Descending;
    var fs := Spans(findings);
    SpansAreForward(findings);
    OriginsAreExact(text, fs);
    MaskedTextOfSpans(text, findings);
    forall r: nat | r < |Origins(text, fs)| && Origins(text, fs)[r] == Original(p)
      ensures r == p + Drift(text, fs, p) && Survives(text, fs, p)
    {
      assert ComesFrom(text, fs, r);
    }
    assert Survives(text, fs, p) ==> StandsAt(text, fs, p);
  }

  lemma MaskedTextOfSpans(text: string, findings: seq<Finding>)
    ensures MaskedText(text, findings) == SpliceAll(text, Spans(findings))
  {
  }

  // ---------- Leaks and losses ----------

  ghost predicate Covered(fs: seq<Finding>, p: int) {
    exists f :: f in fs && f.location.start <= p < f.location.end
  }

  /** A character of some span is left in the masked text. */
  ghost predicate LeaksAt(text: string, fs: seq<Finding>, p: nat)
    requires Forward(fs)
  {
    p < |text| && Covered(fs, p) && IsLeft(text, fs, p)
  }

  /** A character of no span is gone from it. */
  ghost predicate LosesAt(text: string, fs: seq<Finding>, p: nat)
    requires Forward(fs)
  {
    p < |text| && !Covered(fs, p) && !IsLeft(text, fs, p)
  }

  /** Positions between which no span starts have moved alike. */
  lemma {:induction false} SurvivesAlong(text: string, fs: seq<Finding>, p: int, q: int)
    requires p <= q && forall f :: f in fs ==> !(p < f.location.start <= q)
    ensures Drift(text, fs, p) == Drift(text, fs, q)
    ensures Survives(text, fs, p) ==> Survives(text, fs, q)
    decreases |fs|
  {
    hide LastMask;
    if fs != [] {
      SurvivesAlong(text, Front(fs), p, q);
    }
  }

  /** Where leaking can stop: right before a span starts or where one ends. */
  ghost predicate Edge(fs: seq<Finding>, p: int) {
    exists f :: f in fs && (p == f.location.start || p == f.location.end)
  }

  lemma LeakRunsToAnEdge(text: string, fs: seq<Finding>, p: nat) returns (q: nat)
    requires Forward(fs) && InText(text, fs) && p < |text| && Covered(fs, p) && Survives(text, fs, p)
    ensures p <= q < |text| && Covered(fs, q) && Survives(text, fs, q) && Edge(fs, q + 1)
    decreases |text| - p
  {
    hide Survives;
    if Edge(fs, p + 1) {
      q := p;
    } else {
      var f :| f in fs && f.location.start <= p < f.location.end;
      assert p + 1 < f.location.end;
      SurvivesAlong(text, fs, p, p + 1);
      q := LeakRunsToAnEdge(text, fs, p + 1);
    }
  }

  lemma LossRunsBackToAnEnd(text: string, fs: seq<Finding>, p: nat) returns (q: nat)
    requires Forward(fs) && p < |text| && !Covered(fs, p) && !Survives(text, fs, p)
    ensures q <= p && !Covered(fs, q) && !Survives(text, fs, q)
    ensures exists f :: f in fs && f.location.end == q
    decreases p
  {
    hide Survives;
    if f :| f in fs && f.location.end == p {
      q := p;
    } else {
      forall f | f in fs ensures f.location.start != p {
        assert f.location.start == p ==> Covered(fs, p);
      }
      if p == 0 {
        NothingBefore(text, fs, p);
      } else {
        SurvivesAlong(text, fs, p - 1, p);
        forall f | f in fs ensures !(f.location.start <= p - 1 < f.location.end) {
          assert f.location.start <= p < f.location.end ==> Covered(fs, p);
        }
        q := LossRunsBackToAnEnd(text, fs, p - 1);
      }
    }
  }

  /** Characters of spans leak if and only if one does right before an edge of a span, by ends and mask lengths. */
  lemma LeaksIff(text: string, findings: seq<Finding>)
    requires InText(text, MaskableOf(findings))
    ensures var fs := Spans(findings);
      && Forward(fs)
      && ((exists p: nat :: LeaksAt(text, fs, p))
          <==> exists q: nat :: q < |text| && Edge(fs, q + 1) && Covered(fs, q) && Survives(text, fs, q))
  {
    hide Survives, Edge, Origins, SpliceAll;
    var fs := Spans(findings);
    SpansAreForward(findings);
    SortMembers(MaskableOf(findings));
    if p: nat :| LeaksAt(text, fs, p) {
      LeftIffSurvives(text, findings, p);
      var q := LeakRunsToAnEdge(text, fs, p);
    }
    if q: nat :| q < |text| && Edge(fs, q + 1) && Covered(fs, q) && Survives(text, fs, q) {
      LeftIffSurvives(text, findings, q);
      assert LeaksAt(text, fs, q);
    }
  }

  /** Text outside all spans is lost if and only if it is lost right behind the end of some span. */
  lemma LosesIff(text: string, findings: seq<Finding>)
    requires forall f :: f in findings && Maskable(f) ==> 0 <= f.location.start
    ensures var fs := Spans(findings);
      && Forward(fs)
      && ((exists p: nat :: LosesAt(text, fs, p))
          <==> exists f :: f in fs && f.location.end < |text| && !Covered(fs, f.location.end)
                           && !Survives(text, fs, f.location.end))
  {
    hide Survives, Origins, SpliceAll;
    var fs := Spans(findings);
    SpansAreForward(findings);
    if p: nat :| LosesAt(text, fs, p) {
      LeftIffSurvives(text, findings, p);
      var q := LossRunsBackToAnEnd(text, fs, p);
    }
    if f :| f in fs && f.location.end < |text| && !Covered(fs, f.location.end) && !Survives(text, fs, f.location.end) {
      LeftIffSurvives(text, findings, f.location.end);
      assert LosesAt(text, fs, f.location.end);
    }
  }

  // ---------- Spans that do not overlap ----------

  lemma {:induction false} StackedFromTheEnd(fs: seq<Finding>)
    requires fs != [] && Stacked(fs)
    ensures Stacked(Front(fs)) && forall f :: f in Front(fs) ==> Last(fs).location.end <= f.location.start
    decreases |fs|
  {
    if |fs| > 1 {
      StackedFromTheEnd(fs[1..]);
      assert Front(fs) == [fs[0]] + Front(fs[1..]) && Last(fs[1..]) == Last(fs);
      assert Last(fs) in fs[1..];
      assert Front(fs)[1..] == Front(fs[1..]);
      assert forall f :: f in Front(fs[1..]) ==> f in fs[1..];
    }
  }

  /** For them surviving is being in no span: the condition asks for nothing else. */
  lemma {:induction false} StackedSurvivesIffNotCovered(text: string, fs: seq<Finding>, p: nat)
    requires Stacked(fs) && Forward(fs) && Descending(fs)
    ensures Survives(text, fs, p) <==> !Covered(fs, p)
    decreases |fs|
  {
    hide LastMask, Stacked;
    if fs != [] {
      var l := Last(fs).location;
      StackedFromTheEnd(fs);
      StackedSurvivesIffNotCovered(text, Front(fs), p);
      assert forall f :: f in fs <==> f in Front(fs) || f == Last(fs);
      if p < l.end {
        NothingBefore(text, Front(fs), p);
      } else if Survives(text, Front(fs), p) {
        StaysBehind(text, Front(fs), l.end, p);
      }
    }
  }

  /** Nothing leaks and nothing is lost if no two spans share a character. */
  lemma SeparateSpansAreExact(text: string, findings: seq<Finding>, p: nat)
    requires InText(text, MaskableOf(findings)) && Separate(MaskableOf(findings))
    ensures Forward(Spans(findings))
    ensures !LeaksAt(text, Spans(findings), p) && !LosesAt(text, Spans(findings), p)
  {
    hide Survives, Origins, SpliceAll, Stacked, Separate;
    SpansAreForward(findings);
    SortedIsStacked(MaskableOf(findings));
    if p < |text| {
      StackedSurvivesIffNotCovered(text, Spans(findings), p);
      LeftIffSurvives(text, findings, p);
    }
  }

  // ---------- Two spans ----------

  /** What the span masked first gains or loses. */
  ghost function Gain(text: string, g: Finding): int
    requires 0 <= g.location.start < g.location.end <= |text|
  {
    |Mask(g, Raw(text, g))| - (g.location.end - g.location.start)
  }

  lemma SurvivesTwo(text: string, f: Finding, g: Finding, p: int)
    requires InText(text, [g, f])
    ensures 0 <= g.location.start < g.location.end <= |text|
    ensures Survives(text, [g, f], p) <==>
      && (g.location.start <= p ==> g.location.end <= p)
      && (f.location.start <= p ==> f.location.end <= p + if g.location.start <= p then Gain(text, g) else 0)
  {
    hide Mask, SpliceAll;
    assert g in [g, f];
    assert Front([g, f]) == [g] && Last([g, f]) == f && Front([g]) == [] && Last([g]) == g;
    SpliceNone(text);
    assert LastMask(text, [g]) == Mask(g, Raw(text, g));
    assert Drift(text, [], p) == 0 && Survives(text, [], p);
    assert Drift(text, [g], p) == if g.location.start <= p then Gain(text, g) else 0;
    assert Survives(text, [g], p) <==> (g.location.start <= p ==> g.location.end <= p);
  }

  /** Two spans, the one with the later start masked first: the outer one leaves characters of itself standing exactly
      if the inner one ends before it and its mask is longer than what it masks. */
  lemma TwoSpansLeakIff(text: string, findings: seq<Finding>, f: Finding, g: Finding)
    requires Spans(findings) == [g, f] && InText(text, [g, f]) && f.location.start <= g.location.start
    ensures Forward([g, f])
    ensures 0 <= g.location.start < g.location.end <= |text|
    ensures (exists p: nat :: LeaksAt(text, [g, f], p)) <==> g.location.end < f.location.end && Gain(text, g) > 0
  {
    hide Survives, Origins, SpliceAll, Mask;
    var fs := [g, f];
    assert f in fs && g in fs;
    StartsFromInText(text, findings);
    forall p: nat | p < |text| ensures LeaksAt(text, fs, p) <==>
      Covered(fs, p) && Survives(text, fs, p)
    {
      LeftIffSurvives(text, findings, p);
    }
    if p: nat :| LeaksAt(text, fs, p) {
      SurvivesTwo(text, f, g, p);
    }
    if g.location.end < f.location.end && Gain(text, g) > 0 {
      SurvivesTwo(text, f, g, f.location.end - 1);
      assert LeaksAt(text, fs, f.location.end - 1);
    }
  }

  /** And text behind both is lost exactly if there is any, and the mask of the inner span is so short that the outer
      end reaches past it: the end of the later-ending span, moved, falls short of the outer end. */
  lemma TwoSpansLoseIff(text: string, findings: seq<Finding>, f: Finding, g: Finding)
    requires Spans(findings) == [g, f] && InText(text, [g, f]) && f.location.start <= g.location.start
    ensures Forward([g, f])
    ensures 0 <= g.location.start < g.location.end <= |text|
    ensures (exists p: nat :: LosesAt(text, [g, f], p)) <==>
      var behind := Max(f.location.end, g.location.end);
      behind < |text| && behind + Gain(text, g) < f.location.end
  {
    hide Survives, Origins, SpliceAll, Mask;
    var fs := [g, f];
    assert f in fs && g in fs;
    StartsFromInText(text, findings);
    forall p: nat | p < |text| ensures LosesAt(text, fs, p) <==> !Covered(fs, p) && !Survives(text, fs, p) {
      LeftIffSurvives(text, findings, p);
    }
    GainAtLeast(text, g);
    if p: nat :| LosesAt(text, fs, p) {
      SurvivesTwo(text, f, g, p);
    }
    var behind := Max(f.location.end, g.location.end);
    if behind < |text| && behind + Gain(text, g) < f.location.end {
      SurvivesTwo(text, f, g, behind);
      assert LosesAt(text, fs, behind);
    }
  }

  lemma GainAtLeast(text: string, g: Finding)
    requires 0 <= g.location.start < g.location.end <= |text|
    ensures g.location.end + Gain(text, g) >= g.location.start
  {
  }

  lemma StartsFromInText(text: string, findings: seq<Finding>)
    requires InText(text, Spans(findings))
    ensures forall f :: f in findings && Maskable(f) ==> 0 <= f.location.start
  {
    SortMembers(MaskableOf(findings));
  }

  /** Two findings on one and the same span: nothing leaks, and text behind is lost exactly if there is any and the mask
      applied first is shorter than the span. */
  lemma EqualSpans(text: string, findings: seq<Finding>, f: Finding, g: Finding)
    requires Spans(findings) == [g, f] && InText(text, [g, f])
    requires f.location.start == g.location.start && f.location.end == g.location.end
    ensures Forward([g, f])
    ensures 0 <= g.location.start < g.location.end <= |text|
    ensures !exists p: nat :: LeaksAt(text, [g, f], p)
    ensures (exists p: nat :: LosesAt(text, [g, f], p)) <==> g.location.end < |text| && Gain(text, g) < 0
  {
    hide LeaksAt, LosesAt, Mask;
    TwoSpansLeakIff(text, findings, f, g);
    TwoSpansLoseIff(text, findings, f, g);
  }

  /** The masked text of two spans, overlapping or not. */
  lemma TwoSpansText(text: string, findings: seq<Finding>, f: Finding, g: Finding)
    requires Spans(findings) == [g, f] && InText(text, [g, f]) && f.location.start <= g.location.start
    ensures 0 <= g.location.start < g.location.end <= |text|
    ensures
      var s := text[..g.location.start] + Mask(g, Raw(text, g)) + text[g.location.end..];
      var cut := Min(f.location.end, |s|);
      && 0 <= f.location.start <= cut
      && MaskedText(text, findings) == text[..f.location.start] + Mask(f, s[f.location.start..cut]) + s[cut..]
  {
    hide Mask, JsSlice, Splice;
    assert f in [g, f] && g in [g, f];
    assert [g, f][1..] == [f] && [f][1..] == [];
    var s := text[..g.location.start] + Mask(g, Raw(text, g)) + text[g.location.end..];
    SpliceInText(text, g);
    Assoc(text[..g.location.start], Mask(g, Raw(text, g)), text[g.location.end..]);
    assert Splice(text, g) == s;
    SpliceIsCut(s, f);
    SliceForward(s, f.location.start, f.location.end);
    assert s[..f.location.start] == text[..f.location.start];
    assert SpliceAll(text, [g, f]) == SpliceAll(s, [f]) == Splice(s, f);
  }

  lemma SliceForward(s: string, from: nat, to: nat)
    requires from < to && from <= |s|
    ensures JsSlice(s, from, to) == s[from..Min(to, |s|)]
  {
  }

  // ---------- One input for each failure ----------

  lemma SpliceOfFixed(safe: string, f: Finding, before: string, raw: string, after: string, mask: string)
    requires safe == before + raw + after && f.maskedValue == Some(mask) && mask != ""
    requires f.location.start == |before| < f.location.end && f.location.end == |before| + |raw|
    ensures Splice(safe, f) == before + mask + after
  {
    hide MaskValue;
    assert safe[..|before|] == before && safe[|before| + |raw|..] == after;
  }

  lemma SpliceTwo(text: string, f: Finding, g: Finding)
    requires Maskable(f) && Maskable(g) && f.location.start < g.location.start
    ensures MaskedText(text, [f, g]) == Splice(Splice(text, g), f)
  {
    hide Splice, Maskable;
    assert [f, g][1..] == [g] && [g][1..] == [] && [g, f][1..] == [f] && [f][1..] == [];
    assert Filter(Maskable, [g]) == [g] + Filter(Maskable, []);
    assert MaskableOf([f, g]) == [f, g];
    assert SortFromRight([g]) == InsertByStart(g, []);
    assert InsertByStart(f, [g]) == [g] + InsertByStart(f, []);
    assert SortFromRight([f, g]) == [g, f];
    assert SpliceAll(text, [g, f]) == SpliceAll(Splice(text, g), [f]);
  }

  lemma {:induction false} BeforeAtIs(front: string, back: string)
    requires '@' !in front && (back == "" || back[0] == '@')
    ensures BeforeAt(front + back) == front
  {
    if front == "" {
      assert front + back == back;
    } else {
      assert (front + back)[1..] == front[1..] + back;
      BeforeAtIs(front[1..], back);
    }
  }

  lemma AddressMask()
    ensures MaskValue("EMAIL", "a@b.co") == "a***@b.co"
  {
    assert "a" + "@b.co" == "a@b.co" && "b.co" + "" == "b.co" && "a@b.co"[2..] == "b.co";
    BeforeAtIs("a", "@b.co");
    BeforeAtIs("b.co", "");
    hide BeforeAt;
    assert Stars(3) == "***" && ['a'] + "***" + "@" + "b.co" == "a***@b.co";
  }

  /** A span inside another whose mask is longer than it by as much as `tail`: the outer cut leaves that tail
    standing. */
  lemma InnerMaskLeaks(before: string, head: string, inner: string, middle: string, tail: string, outerMask: string,
                       innerMask: string, f: Finding, g: Finding)
    requires Maskable(f) && f.location.start == |before| && f.maskedValue == Some(outerMask) && outerMask != ""
    requires f.location.end == |before| + |head| + |inner| + |middle| + |tail|
    requires Maskable(g) && g.location.start == |before| + |head| && g.maskedValue == Some(innerMask) && innerMask != ""
    requires g.location.end == g.location.start + |inner|
    requires head != "" && inner != "" && |innerMask| == |inner| + |tail|
    ensures MaskedText(before + head + inner + (middle + tail), [f, g]) == before + outerMask + tail
  {
    hide Splice, Maskable, MaskedText, MaskValue;
    var text := before + head + inner + (middle + tail);
    SpliceOfFixed(text, g, before + head, inner, middle + tail, innerMask);
    var safe := before + head + innerMask + (middle + tail);
    assert safe == before + (head + innerMask + middle) + tail;
    SpliceOfFixed(safe, f, before, head + innerMask + middle, tail, outerMask);
    SpliceTwo(text, f, g);
  }

  /** A password with an address in it, both reported with the masks the detectors give them: the mask of the address is
      three characters longer than the address, and the last three of the password are left standing. */
  lemma PasswordTailLeaks(f: Finding, g: Finding)
    requires Maskable(f) && f.location.start == 3 && f.location.end == 25
    requires f.maskedValue == Some("pas-************")
    requires Maskable(g) && g.location.start == 12 && g.location.end == 18
    requires g.maskedValue == Some(MaskValue("EMAIL", "a@b.co"))
    ensures MaskedText("my password=a@b.co;tail99", [f, g]) == "my pas-************l99"
  {
    hide Maskable, MaskedText, MaskValue;
    AddressMask();
    InnerMaskLeaks("my ", "password=", "a@b.co", ";tai", "l99", "pas-************", "a***@b.co", f, g);
    assert "my " + "password=" + "a@b.co" + (";tai" + "l99") == "my password=a@b.co;tail99";
    assert "my " + "pas-************" + "l99" == "my pas-************l99";
  }

  /** Two different findings at one start: the order in which they are listed shows. */
  lemma EqualStartsShowOrder(f: Finding, g: Finding)
    requires Maskable(f) && f.location.start == 0 && f.location.end == 2 && f.maskedValue == Some("#")
    requires Maskable(g) && g.location.start == 0 && g.location.end == 2 && g.maskedValue == Some("*")
    ensures MaskedText("ab", [f, g]) == "*" && MaskedText("ab", [g, f]) == "#"
  {
    hide Splice, Maskable, MaskedText;
    assert "ab" == "" + "ab" + "" && "" + "#" + "" == "#" && "" + "*" + "" == "*";
    SpliceOfFixed("ab", f, "", "ab", "", "#");
    SpliceOfFixed("ab", g, "", "ab", "", "*");
    ListedFirstIsMaskedFirst("ab", f, g);
    ListedFirstIsMaskedFirst("ab", g, f);
    MaskOverRest("#", g, "*");
    MaskOverRest("*", f, "#");
  }

  lemma ListedFirstIsMaskedFirst(text: string, f: Finding, g: Finding)
    requires Maskable(f) && Maskable(g) && f.location.start == g.location.start
    ensures MaskedText(text, [f, g]) == Splice(Splice(text, f), g)
  {
    hide Splice, Maskable;
    assert [f, g][1..] == [g] && [g][1..] == [];
    assert Filter(Maskable, [g]) == [g] + Filter(Maskable, []);
    assert MaskableOf([f, g]) == [f, g];
    assert SortFromRight([g]) == InsertByStart(g, []);
    assert SortFromRight([f, g]) == [f, g];
    assert SpliceAll(text, [f, g]) == SpliceAll(Splice(text, f), [g]);
  }

  lemma TokenMask(token: string)
    requires |token| > 4
    ensures |MaskValue("JWT", token)| == Min(16, |token|)
  {
    hide MaskValue, StyleOf;
    ShownAtBothEnds();
    OtherMask("JWT", token);
  }

  /** A mask over a span that may reach beyond the end. */
  lemma SpliceOver(safe: string, f: Finding, before: string, rest: string, mask: string)
    requires safe == before + rest && f.maskedValue == Some(mask) && mask != ""
    requires f.location.start == |before| < f.location.end
    ensures Splice(safe, f) == before + mask + rest[Min(f.location.end - |before|, |rest|)..]
  {
    hide MaskValue;
    assert safe[..|before|] == before;
    if f.location.end <= |safe| {
      assert safe[f.location.end..] == rest[f.location.end - |before|..];
    }
  }

  /** Every JSON web token is also reported as a service account token, on the same span and after it. The first mask
      has at most sixteen characters, so the second cut takes as much of the text behind as the token is longer. */
  lemma TextBehindTokenIsLost(before: string, token: string, after: string, jwt: Finding, service: Finding)
    requires |token| > 4
    requires Maskable(jwt) && jwt.location.start == |before| && jwt.location.end == |before| + |token|
    requires Maskable(service) && service.location.start == |before| && service.location.end == |before| + |token|
    requires jwt.maskedValue == Some(MaskValue("JWT", token))
    requires service.maskedValue == Some(token[..4] + "************")
    ensures 0 <= Min(Max(0, |token| - 16), |after|) <= |after|
    ensures MaskedText(before + token + after, [jwt, service])
         == before + token[..4] + "************" + after[Min(Max(0, |token| - 16), |after|)..]
  {
    hide Splice, Maskable, MaskedText, MaskValue;
    TokenMask(token);
    var first, second := MaskValue("JWT", token), token[..4] + "************";
    SpliceOfFixed(before + token + after, jwt, before, token, after, first);
    Assoc(before, first, after);
    SpliceOver(before + first + after, service, before, first + after, second);
    ListedFirstIsMaskedFirst(before + token + after, jwt, service);
    DropBehind(first, after, |token|);
    Assoc(before, token[..4], "************");
  }

  lemma DropBehind(first: string, after: string, n: nat)
    requires |first| <= n
    ensures 0 <= Min(n, |first + after|) <= |first + after|
    ensures (first + after)[Min(n, |first + after|)..] == after[Min(n - |first|, |after|)..]
  {
  }

  /** One such text: everything behind the token is gone. */
  lemma TokenSwallowsTheRest(jwt: Finding, service: Finding)
    requires Maskable(jwt) && jwt.location.start == 0 && jwt.location.end == 26
    requires Maskable(service) && service.location.start == 0 && service.location.end == 26
    requires jwt.maskedValue == Some(MaskValue("JWT", "eyJhbGci.eyJzdWIi.c2lnbmF0"))
    requires service.maskedValue == Some("eyJh************")
    ensures MaskedText("eyJhbGci.eyJzdWIi.c2lnbmF0 is over", [jwt, service]) == "eyJh************"
  {
    hide Maskable, MaskedText, MaskValue;
    var token := "eyJhbGci.eyJzdWIi.c2lnbmF0";
    assert token[..4] == "eyJh" && "" + token + " is over" == "eyJhbGci.eyJzdWIi.c2lnbmF0 is over";
    assert "eyJh" + "************" == "eyJh************";
    TextBehindTokenIsLost("", token, " is over", jwt, service);
  }

  lemma MaskOverRest(rest: string, f: Finding, mask: string)
    requires f.location.start == 0 && f.location.end > |rest| && f.maskedValue == Some(mask) && mask != ""
    ensures Splice(rest, f) == mask
  {
    hide MaskValue;
  }
}
