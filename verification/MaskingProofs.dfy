/** What masking promises: one left-to-right substitution, whatever the order of the findings. */
module MaskingProofs {
  import opened Wrappers
  import opened Sequences
  import opened Findings
  import opened Masking

  // ---------- One pass over the text ----------

  ghost predicate InText(text: string, fs: seq<Finding>) {
    forall f :: f in fs ==> 0 <= f.location.start < f.location.end <= |text|
  }

  ghost predicate Apart(f: Finding, g: Finding) {
    f.location.end <= g.location.start || g.location.end <= f.location.start
  }

  /** No finding twice, and no two share a character. */
  ghost predicate Separate(fs: seq<Finding>) {
    && (forall f :: f in fs ==> multiset(fs)[f] == 1)
    && forall f, g :: f in fs && g in fs && f != g ==> Apart(f, g)
  }

  ghost function StartingAt(fs: seq<Finding>, p: int): (r: Option<Finding>)
    ensures r.Some? ==> r.value in fs && r.value.location.start == p
    ensures r.None? ==> forall f :: f in fs ==> f.location.start != p
  {
    if fs == [] then None
    else if fs[0].location.start == p then Some(fs[0])
    else StartingAt(fs[1..], p)
  }

  function Raw(text: string, f: Finding): string
    requires 0 <= f.location.start < f.location.end <= |text|
  {
    text[f.location.start..f.location.end]
  }

  /** Read from position `p`: a span is replaced where it starts, everything else is copied. */
  ghost function OnePass(text: string, fs: seq<Finding>, p: nat): string
    requires p <= |text| && InText(text, fs)
    decreases |text| - p
  {
    if p == |text| then ""
    else
      var f := StartingAt(fs, p);
      if f.None? then [text[p]] + OnePass(text, fs, p + 1)
      else Mask(f.value, Raw(text, f.value)) + OnePass(text, fs, f.value.location.end)
  }

  // ---------- Spans from the right, one below the other ----------

  ghost predicate AllEndBy(fs: seq<Finding>, p: int) {
    forall f :: f in fs ==> f.location.end <= p
  }

  ghost predicate Stacked(fs: seq<Finding>)
    decreases |fs|
  {
    fs == [] || (AllEndBy(fs[1..], fs[0].location.start) && Stacked(fs[1..]))
  }

  lemma InsertMembers(f: Finding, s: seq<Finding>)
    ensures forall x :: x in InsertByStart(f, s) <==> x == f || x in s
  {
    forall x ensures x in InsertByStart(f, s) <==> x == f || x in s {
      assert x in InsertByStart(f, s) <==> x in multiset(InsertByStart(f, s));
    }
  }

  lemma {:induction false} InsertStacked(f: Finding, s: seq<Finding>)
    requires Stacked(s)
    requires forall g :: g in s ==> Apart(f, g) && g.location.start < g.location.end
    requires f.location.start < f.location.end
    ensures Stacked(InsertByStart(f, s))
    decreases |s|
  {
    if s != [] {
      var r := InsertByStart(f, s);
      assert Apart(f, s[0]);
      if f.location.start >= s[0].location.start {
        assert r == [f] + s && r[1..] == s;
        forall g | g in s ensures g.location.end <= f.location.start {
          assert g == s[0] || g in s[1..];
        }
      } else {
        InsertStacked(f, s[1..]);
        InsertMembers(f, s[1..]);
        assert r[1..] == InsertByStart(f, s[1..]);
      }
    }
  }

  lemma SeparateTail(fs: seq<Finding>)
    requires fs != [] && Separate(fs)
    ensures Separate(fs[1..])
    ensures forall g :: g in fs[1..] ==> Apart(fs[0], g)
  {
    var m, t := multiset(fs), multiset(fs[1..]);
    assert fs == [fs[0]] + fs[1..];
    assert m == multiset{fs[0]} + t;
    forall g | g in fs[1..] ensures t[g] == 1 && g != fs[0] {
      assert g in t && g in fs && m[g] == 1;
    }
  }

  lemma {:induction false} SortedIsStacked(fs: seq<Finding>)
    requires Separate(fs) && forall f :: f in fs ==> f.location.start < f.location.end
    ensures Stacked(SortFromRight(fs))
    decreases |fs|
  {
    if fs != [] {
      SeparateTail(fs);
      SortedIsStacked(fs[1..]);
      SortMembers(fs[1..]);
      InsertStacked(fs[0], SortFromRight(fs[1..]));
    }
  }

  lemma SortMembers(fs: seq<Finding>)
    ensures forall x :: x in SortFromRight(fs) <==> x in fs
  {
    forall x ensures x in SortFromRight(fs) <==> x in fs {
      assert x in SortFromRight(fs) <==> x in multiset(SortFromRight(fs));
    }
  }

  // ---------- The splice against the pass ----------

  /** Text up to a span, its mask, the text behind it. */
  ghost function Behind(text: string, f: Finding): string
    requires 0 <= f.location.start < f.location.end <= |text|
  {
    Mask(f, Raw(text, f)) + text[f.location.end..]
  }

  lemma SpliceInText(text: string, f: Finding)
    requires 0 <= f.location.start < f.location.end <= |text|
    ensures Splice(text, f) == text[..f.location.start] + Behind(text, f)
  {
    hide Mask;
  }

  lemma BehindExtends(text: string, tail: string, f: Finding)
    requires 0 <= f.location.start < f.location.end <= |text|
    ensures Behind(text + tail, f) == Behind(text, f) + tail
    ensures (text + tail)[..f.location.start] == text[..f.location.start]
  {
    hide Mask;
    assert Raw(text + tail, f) == Raw(text, f);
    assert (text + tail)[f.location.end..] == text[f.location.end..] + tail;
  }

  /** What stands behind every span is carried along. */
  lemma {:induction false} SpliceKeepsTail(text: string, tail: string, fs: seq<Finding>)
    requires Stacked(fs) && InText(text, fs)
    ensures SpliceAll(text + tail, fs) == SpliceAll(text, fs) + tail
    decreases |fs|
  {
    hide Splice, Behind;
    if fs != [] {
      var f := fs[0];
      var front := text[..f.location.start];
      SpliceInText(text, f);
      SpliceInText(text + tail, f);
      BehindExtends(text, tail, f);
      SpliceKeepsTail(Splice(text, f), tail, fs[1..]);
      assert Splice(text + tail, f) == Splice(text, f) + tail;
    }
  }

  lemma SpliceCut(text: string, fs: seq<Finding>)
    requires fs != [] && Stacked(fs) && InText(text, fs)
    ensures var f := fs[0];
      var front := text[..f.location.start];
      InText(front, fs[1..]) && SpliceAll(text, fs) == SpliceAll(front, fs[1..]) + Behind(text, f)
  {
    hide Splice, Behind;
    SpliceInText(text, fs[0]);
    SpliceKeepsTail(text[..fs[0].location.start], Behind(text, fs[0]), fs[1..]);
  }

  lemma {:induction false} NothingStarts(text: string, fs: seq<Finding>, p: nat)
    requires p <= |text| && InText(text, fs)
    requires forall f :: f in fs ==> f.location.start < p
    ensures OnePass(text, fs, p) == text[p..]
    decreases |text| - p
  {
    if p < |text| {
      NothingStarts(text, fs, p + 1);
      assert text[p..] == [text[p]] + text[p + 1..];
    }
  }

  lemma {:induction false} OnePassCut(text: string, fs: seq<Finding>, p: nat)
    requires fs != [] && Stacked(fs) && InText(text, fs) && p <= fs[0].location.start
    ensures var front := text[..fs[0].location.start];
      InText(front, fs[1..]) && OnePass(text, fs, p) == OnePass(front, fs[1..], p) + Behind(text, fs[0])
    decreases |text| - p
  {
    hide Mask;
    var f := fs[0];
    var front := text[..f.location.start];
    if p == f.location.start {
      NothingStarts(text, fs, f.location.end);
    } else {
      var g := StartingAt(fs[1..], p);
      assert StartingAt(fs, p) == g;
      if g.None? {
        OnePassCut(text, fs, p + 1);
        Assoc([text[p]], OnePass(front, fs[1..], p + 1), Behind(text, f));
      } else {
        OnePassCut(text, fs, g.value.location.end);
        assert Raw(front, g.value) == Raw(text, g.value);
        Assoc(Mask(g.value, Raw(text, g.value)), OnePass(front, fs[1..], g.value.location.end), Behind(text, f));
      }
    }
  }

  lemma {:induction false} StackedIsOnePass(text: string, fs: seq<Finding>)
    requires Stacked(fs) && InText(text, fs)
    ensures SpliceAll(text, fs) == OnePass(text, fs, 0)
    decreases |fs|
  {
    if fs == [] {
      NothingStarts(text, fs, 0);
    } else {
      hide Mask, Behind, Splice, OnePass, SpliceAll;
      SpliceCut(text, fs);
      OnePassCut(text, fs, 0);
      StackedIsOnePass(text[..fs[0].location.start], fs[1..]);
    }
  }

  /** The pass does not care in which order the findings are listed. */
  lemma {:induction false} OnePassByMembers(text: string, fs: seq<Finding>, gs: seq<Finding>, p: nat)
    requires p <= |text| && InText(text, fs) && forall f :: f in fs <==> f in gs
    requires forall f, g :: f in fs && g in fs && f.location.start == g.location.start ==> f == g
    ensures OnePass(text, fs, p) == OnePass(text, gs, p)
    decreases |text| - p
  {
    hide Mask;
    if p < |text| {
      var f := StartingAt(fs, p);
      assert StartingAt(gs, p) == f;
      OnePassByMembers(text, fs, gs, if f.None? then p + 1 else f.value.location.end);
    }
  }

  lemma SeparateStartsDiffer(text: string, fs: seq<Finding>)
    requires Separate(fs) && InText(text, fs)
    ensures forall f, g :: f in fs && g in fs && f.location.start == g.location.start ==> f == g
  {
    forall f, g | f in fs && g in fs && f.location.start == g.location.start ensures f == g {
      assert f != g ==> Apart(f, g);
    }
  }

  /** Refinement: the right-to-left splice is the left-to-right substitution of the original text. */
  lemma MaskingIsOnePass(text: string, findings: seq<Finding>)
    requires InText(text, MaskableOf(findings)) && Separate(MaskableOf(findings))
    ensures MaskedText(text, findings) == OnePass(text, MaskableOf(findings), 0)
  {
    hide OnePass, SpliceAll;
    var fs := MaskableOf(findings);
    SortMembers(fs);
    SortedIsStacked(fs);
    StackedIsOnePass(text, SortFromRight(fs));
    SeparateStartsDiffer(text, fs);
    OnePassByMembers(text, fs, SortFromRight(fs), 0);
  }

  // ---------- In any order ----------

  ghost predicate Descending(fs: seq<Finding>) {
    forall i, j :: 0 <= i < j < |fs| ==> fs[i].location.start >= fs[j].location.start
  }

  lemma {:induction false} InsertDescending(f: Finding, s: seq<Finding>)
    requires Descending(s)
    ensures Descending(InsertByStart(f, s))
  {
    if s != [] && f.location.start < s[0].location.start {
      var rest := InsertByStart(f, s[1..]);
      InsertDescending(f, s[1..]);
      InsertMembers(f, s[1..]);
      forall j | 0 <= j < |rest| ensures s[0].location.start >= rest[j].location.start {
        assert rest[j] in rest;
        if rest[j] != f {
          var k :| 0 <= k < |s[1..]| && s[1..][k] == rest[j];
          assert s[k + 1] == rest[j];
        }
      }
    }
  }

  lemma {:induction false} SortIsDescending(fs: seq<Finding>)
    ensures Descending(SortFromRight(fs))
  {
    if fs != [] {
      SortIsDescending(fs[1..]);
      InsertDescending(fs[0], SortFromRight(fs[1..]));
    }
  }

  /** No two different findings start at one position. They may overlap. */
  ghost predicate OneAtEachStart(fs: seq<Finding>) {
    forall f, g :: f in fs && g in fs && f.location.start == g.location.start ==> f == g
  }

  lemma {:induction false} DescendingIsUnique(fs: seq<Finding>, gs: seq<Finding>)
    requires Descending(fs) && Descending(gs) && OneAtEachStart(fs) && multiset(fs) == multiset(gs)
    ensures fs == gs
  {
    hide *;
    assert |fs| == |multiset(fs)| && |gs| == |multiset(gs)|;
    if fs != [] {
      HeadsAgree(fs, gs);
      TailOfMultiset(fs);
      TailOfMultiset(gs);
      TailKeeps(fs);
      TailKeeps(gs);
      DescendingIsUnique(fs[1..], gs[1..]);
      assert fs == [fs[0]] + fs[1..] && gs == [gs[0]] + gs[1..];
    }
  }

  lemma TailKeeps(fs: seq<Finding>)
    requires fs != [] && Descending(fs)
    ensures Descending(fs[1..])
    ensures OneAtEachStart(fs) ==> OneAtEachStart(fs[1..])
  {
    assert forall f :: f in fs[1..] ==> f in fs;
  }

  lemma HeadsAgree(fs: seq<Finding>, gs: seq<Finding>)
    requires Descending(fs) && Descending(gs) && OneAtEachStart(fs) && multiset(fs) == multiset(gs)
    requires fs != [] && gs != []
    ensures fs[0] == gs[0]
  {
    assert fs[0] in multiset(gs) && gs[0] in multiset(fs);
    var i :| 0 <= i < |gs| && gs[i] == fs[0];
    var j :| 0 <= j < |fs| && fs[j] == gs[0];
  }

  lemma TailOfMultiset(fs: seq<Finding>)
    requires fs != []
    ensures multiset(fs[1..]) == multiset(fs) - multiset{fs[0]}
  {
    assert fs == [fs[0]] + fs[1..];
  }

  /** The order in which the detectors report does not show in the masked text, overlaps or not, unless two
      different findings start at one position. */
  lemma MaskingIgnoresOrder(text: string, findings: seq<Finding>, others: seq<Finding>)
    requires multiset(findings) == multiset(others) && OneAtEachStart(MaskableOf(findings))
    ensures MaskedText(text, findings) == MaskedText(text, others)
  {
    hide SpliceAll, Filter, Maskable, SortFromRight;
    var fs, gs := MaskableOf(findings), MaskableOf(others);
    forall f ensures multiset(fs)[f] == multiset(gs)[f] {
      FilterCounts(Maskable, findings, f);
      FilterCounts(Maskable, others, f);
    }
    assert multiset(fs) == multiset(gs);
    SortIsDescending(fs);
    SortIsDescending(gs);
    SortMembers(fs);
    DescendingIsUnique(SortFromRight(fs), SortFromRight(gs));
  }

  // ---------- Lengths and positions ----------

  /** How far the text behind position `p` moves: what the spans ending by `p` gain or lose. */
  ghost function Shift(text: string, fs: seq<Finding>, p: int): int
    requires InText(text, fs)
  {
    if fs == [] then 0
    else
      var f := fs[0];
      (if f.location.end <= p then |Mask(f, Raw(text, f))| - (f.location.end - f.location.start) else 0)
      + Shift(text, fs[1..], p)
  }

  lemma {:induction false} ShiftOfFront(text: string, front: string, fs: seq<Finding>, p: int, q: int)
    requires front <= text && InText(front, fs) && InText(text, fs)
    requires forall f :: f in fs ==> (f.location.end <= p <==> f.location.end <= q)
    ensures Shift(front, fs, p) == Shift(text, fs, q)
  {
    hide Mask;
    if fs != [] {
      assert Raw(front, fs[0]) == Raw(text, fs[0]);
      ShiftOfFront(text, front, fs[1..], p, q);
    }
  }

  lemma {:induction false} ShiftInsert(text: string, f: Finding, s: seq<Finding>, p: int)
    requires InText(text, [f] + s) && InText(text, InsertByStart(f, s))
    ensures Shift(text, InsertByStart(f, s), p) == Shift(text, [f] + s, p)
  {
    hide Mask;
    if s != [] && f.location.start < s[0].location.start {
      var r := InsertByStart(f, s);
      assert r == [s[0]] + InsertByStart(f, s[1..]) && r[1..] == InsertByStart(f, s[1..]);
      InsertMembers(f, s[1..]);
      ShiftInsert(text, f, s[1..], p);
      assert ([f] + s)[1..] == s && ([f] + s[1..])[1..] == s[1..];
      assert ([f] + s)[0] == f && ([f] + s[1..])[0] == f;
    }
  }

  lemma {:induction false} ShiftOfSorted(text: string, fs: seq<Finding>, p: int)
    requires InText(text, fs) && InText(text, SortFromRight(fs))
    ensures Shift(text, SortFromRight(fs), p) == Shift(text, fs, p)
  {
    hide Mask, InsertByStart;
    if fs != [] {
      SortMembers(fs);
      SortMembers(fs[1..]);
      var s := SortFromRight(fs[1..]);
      ShiftOfSorted(text, fs[1..], p);
      ShiftInsert(text, fs[0], s, p);
      assert ([fs[0]] + s)[1..] == s;
    }
  }

  /** All that is known of a stack: its length, its copied characters, its masks. */
  lemma {:induction false} StackedLength(text: string, fs: seq<Finding>)
    requires Stacked(fs) && InText(text, fs)
    ensures |SpliceAll(text, fs)| == |text| + Shift(text, fs, |text|)
    decreases |fs|
  {
    hide Mask, Splice;
    if fs != [] {
      var front := text[..fs[0].location.start];
      SpliceCut(text, fs);
      StackedLength(front, fs[1..]);
      ShiftOfFront(text, front, fs[1..], |front|, |text|);
    }
  }

  lemma {:induction false} StackedKeeps(text: string, fs: seq<Finding>, p: nat)
    requires Stacked(fs) && InText(text, fs) && p < |text|
    requires forall f :: f in fs ==> !(f.location.start <= p < f.location.end)
    ensures 0 <= p + Shift(text, fs, p) < |SpliceAll(text, fs)|
    ensures SpliceAll(text, fs)[p + Shift(text, fs, p)] == text[p]
    decreases |fs|
  {
    hide Mask, Splice, SpliceAll;
    if fs == [] {
      SpliceNone(text);
    } else {
      var f, rest := fs[0], fs[1..];
      var front := text[..f.location.start];
      SpliceCut(text, fs);
      if p < f.location.start {
        StackedKeeps(front, rest, p);
        ShiftOfFront(text, front, rest, p, p);
      } else {
        StackedLength(front, rest);
        ShiftOfFront(text, front, rest, |front|, p);
      }
    }
  }

  lemma {:induction false} StackedMasks(text: string, fs: seq<Finding>, f: Finding)
    requires Stacked(fs) && InText(text, fs) && f in fs
    ensures var q, m := f.location.start + Shift(text, fs, f.location.start), Mask(f, Raw(text, f));
      0 <= q <= q + |m| <= |SpliceAll(text, fs)| && SpliceAll(text, fs)[q..q + |m|] == m
    decreases |fs|
  {
    hide Mask, Splice, SpliceAll;
    var top, rest := fs[0], fs[1..];
    var front := text[..top.location.start];
    SpliceCut(text, fs);
    if f in rest {
      StackedMasks(front, rest, f);
      ShiftOfFront(text, front, rest, f.location.start, f.location.start);
      assert Raw(front, f) == Raw(text, f);
    } else {
      StackedLength(front, rest);
      ShiftOfFront(text, front, rest, |front|, f.location.start);
    }
  }

  /** The length of the safe text: what every mask gains or loses, summed up. */
  lemma MaskedLength(text: string, findings: seq<Finding>)
    requires InText(text, MaskableOf(findings)) && Separate(MaskableOf(findings))
    ensures |MaskedText(text, findings)| == |text| + Shift(text, MaskableOf(findings), |text|)
  {
    hide Shift, SpliceAll, SortFromRight, MaskableOf, Stacked, Separate;
    var fs := MaskableOf(findings);
    SortMembers(fs);
    SortedIsStacked(fs);
    StackedLength(text, SortFromRight(fs));
    ShiftOfSorted(text, fs, |text|);
  }

  /** A character outside every span survives, moved by the spans before it and nothing else. */
  lemma UnmaskedSurvives(text: string, findings: seq<Finding>, p: nat)
    requires InText(text, MaskableOf(findings)) && Separate(MaskableOf(findings)) && p < |text|
    requires forall f :: f in MaskableOf(findings) ==> !(f.location.start <= p < f.location.end)
    ensures var q := p + Shift(text, MaskableOf(findings), p);
      0 <= q < |MaskedText(text, findings)| && MaskedText(text, findings)[q] == text[p]
  {
    hide Shift, SpliceAll, SortFromRight, MaskableOf, Stacked, Separate;
    var fs := MaskableOf(findings);
    SortMembers(fs);
    SortedIsStacked(fs);
    StackedKeeps(text, SortFromRight(fs), p);
    ShiftOfSorted(text, fs, p);
  }

  /** In the place of every span stands its mask, made of the original text. */
  lemma MaskStandsInPlace(text: string, findings: seq<Finding>, f: Finding)
    requires InText(text, MaskableOf(findings)) && Separate(MaskableOf(findings))
    requires f in MaskableOf(findings)
    ensures
      var q := f.location.start + Shift(text, MaskableOf(findings), f.location.start);
      var m := Mask(f, Raw(text, f));
      0 <= q <= q + |m| <= |MaskedText(text, findings)| && MaskedText(text, findings)[q..q + |m|] == m
  {
    hide Shift, SpliceAll, SortFromRight, MaskableOf, Stacked, Separate;
    var fs := MaskableOf(findings);
    SortMembers(fs);
    SortedIsStacked(fs);
    StackedMasks(text, SortFromRight(fs), f);
    ShiftOfSorted(text, fs, f.location.start);
  }

  // ---------- Whatever the spans ----------

  lemma {:induction false} SpliceKeepsFront(safe: string, fs: seq<Finding>, p: nat)
    requires p <= |safe| && forall f :: f in fs ==> p <= f.location.start < f.location.end
    ensures p <= |SpliceAll(safe, fs)| && SpliceAll(safe, fs)[..p] == safe[..p]
    decreases |fs|
  {
    hide Mask;
    if fs != [] {
      var next := Splice(safe, fs[0]);
      assert JsSlice(safe, 0, fs[0].location.start)[..p] == safe[..p];
      assert next[..p] == safe[..p];
      SpliceKeepsFront(next, fs[1..], p);
    }
  }

  /** Whatever the spans, overlapping or past the end: text before the first of them is untouched. */
  lemma TextBeforeSpansSurvives(text: string, findings: seq<Finding>, p: nat)
    requires p <= |text|
    requires forall f :: f in findings && Maskable(f) ==> p <= f.location.start
    ensures p <= |MaskedText(text, findings)| && MaskedText(text, findings)[..p] == text[..p]
  {
    hide SpliceAll;
    SortMembers(MaskableOf(findings));
    SpliceKeepsFront(text, SortFromRight(MaskableOf(findings)), p);
  }

  // ---------- What a mask tells ----------

  lemma EmailMaskTells(c: char, n: nat, d: string, c': char, n': nat, d': string)
    ensures [c] + Stars(n) + "@" + d == [c'] + Stars(n') + "@" + d' <==> c == c' && n == n' && d == d'
  {
    var l, r := [c] + Stars(n) + "@" + d, [c'] + Stars(n') + "@" + d';
    if l == r {
      assert l[0] == c && r[0] == c';
      assert l[1 + n] == '@' && r[1 + n'] == '@';
      assert forall i :: 1 <= i < 1 + n ==> l[i] == '*';
      assert forall i :: 1 <= i < 1 + n' ==> r[i] == '*';
      assert n' <= n <= n';
      assert l[2 + n..] == d && r[2 + n'..] == d';
    }
  }

  lemma EndsMaskTells(a: string, n: nat, b: string, a': string, n': nat, b': string)
    requires |a| == |a'| == |b| == |b'| == 2
    ensures a + Stars(n) + b == a' + Stars(n') + b' <==> a == a' && n == n' && b == b'
  {
    var l, r := a + Stars(n) + b, a' + Stars(n') + b';
    if l == r {
      assert |l| == 4 + n && |r| == 4 + n';
      assert l[..2] == a && r[..2] == a';
      assert l[2 + n..] == b && r[2 + n'..] == b';
    }
  }

  lemma HeadMaskTells(a: string, a': string, tail: string)
    ensures a + tail == a' + tail <==> a == a'
  {
    if a + tail == a' + tail {
      assert |a| == |a'|;
      assert (a + tail)[..|a|] == a && (a' + tail)[..|a'|] == a';
    }
  }

  lemma EmailTells(kind: string, v: string, w: string)
    requires StyleOf(kind) == Email
    ensures MaskValue(kind, v) == MaskValue(kind, w) <==> ShownBy(kind, v) == ShownBy(kind, w)
  {
    hide BeforeAt, Domain, Stars, StyleOf;
    var a, b := BeforeAt(v), BeforeAt(w);
    EmailMaskTells(if a == "" then '*' else a[0], Max(3, |a| - 1), Domain(v),
      if b == "" then '*' else b[0], Max(3, |b| - 1), Domain(w));
  }

  lemma SecretTells(kind: string, v: string, w: string)
    requires StyleOf(kind) == Secret
    ensures MaskValue(kind, v) == MaskValue(kind, w) <==> ShownBy(kind, v) == ShownBy(kind, w)
  {
    hide BeforeAt, Domain, Stars, StyleOf;
    HeadMaskTells(JsSlice(v, 0, 3), JsSlice(w, 0, 3), "-************");
  }

  lemma OtherMask(kind: string, v: string)
    requires StyleOf(kind) == Other && |v| > 4
    ensures MaskValue(kind, v) == v[..2] + Stars(Min(12, |v| - 4)) + v[|v| - 2..]
    ensures |MaskValue(kind, v)| > 4
  {
    hide BeforeAt, Domain, Stars, StyleOf;
  }

  lemma OtherTells(kind: string, v: string, w: string)
    requires StyleOf(kind) == Other
    ensures MaskValue(kind, v) == MaskValue(kind, w) <==> ShownBy(kind, v) == ShownBy(kind, w)
  {
    hide BeforeAt, Domain, Stars, StyleOf, JsSlice;
    if |v| > 4 { OtherMask(kind, v); }
    if |w| > 4 { OtherMask(kind, w); }
    if |v| > 4 && |w| > 4 {
      EndsMaskTells(v[..2], Min(12, |v| - 4), v[|v| - 2..], w[..2], Min(12, |w| - 4), w[|w| - 2..]);
    }
  }

  lemma LettersOfContained(s: string, w: string, c: char)
    requires c in w
    ensures Contains(s, w) ==> c in s
  {
    if Contains(s, w) {
      var i :| 0 <= i <= |s| && w <= s[i..];
      var k :| 0 <= k < |w| && w[k] == c;
      assert s[i..][k] == c;
    }
  }

  /** A letter that is missing tells that a word is not inside. */
  lemma ShowsEnds(kind: string, c: char, d: char)
    requires kind != "EMAIL" && kind != "KR_RRN" && kind != "PASSWORD_SECRET"
    requires c in "KEY" && c !in kind && d in "TOKEN" && d !in kind
    ensures StyleOf(kind) == Other
  {
    hide Contains;
    LettersOfContained(kind, "KEY", c);
    LettersOfContained(kind, "TOKEN", d);
  }

  /** The types whose masks show both ends. */
  lemma ShownAtBothEnds()
    ensures StyleOf("PHONE") == Other && StyleOf("BANK_ACCOUNT") == Other && StyleOf("JWT") == Other
  {
    hide StyleOf;
    assert "KEY"[0] == 'K' && "KEY"[1] == 'E' && "TOKEN"[0] == 'T' && "TOKEN"[2] == 'K' && "TOKEN"[3] == 'E';
    ShowsEnds("PHONE", 'K', 'T');
    ShowsEnds("BANK_ACCOUNT", 'E', 'E');
    ShowsEnds("JWT", 'K', 'K');
  }

  /** Two values get one mask exactly if they agree on what the mask is meant to show. */
  lemma MaskTellsOnlyShown(kind: string, v: string, w: string)
    ensures MaskValue(kind, v) == MaskValue(kind, w) <==> ShownBy(kind, v) == ShownBy(kind, w)
  {
    match StyleOf(kind)
    case Email => EmailTells(kind, v, w);
    case ResidentNumber =>
    case Secret => SecretTells(kind, v, w);
    case Other => OtherTells(kind, v, w);
  }
}
