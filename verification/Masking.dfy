/** The masking engine of the input-control demo: the right-to-left splice and what it amounts to. */
module Masking {
  import opened Wrappers
  import opened Sequences
  import opened Findings

  datatype MaskingResult = MaskingResult(
    maskingApplied: bool,
    maskedTypes: seq<string>,
    maskedCount: nat,
    safeText: string,
    residualFindings: seq<Finding>)

  /** The regular-expression detectors, run again over the masked text. */
  type Detector = string -> seq<Finding>

  function Or(t: Option<string>, other: string): string {
    if t.Some? && t.value != "" then t.value else other
  }

  // ---------- Mask text ----------

  function Stars(n: nat): (r: string)
    ensures |r| == n && forall i :: 0 <= i < n ==> r[i] == '*'
  {
    if n == 0 then "" else ['*'] + Stars(n - 1)
  }

  /** The text before the first `@`. */
  function BeforeAt(v: string): (r: string)
    ensures '@' !in r && r <= v
    ensures r == v || v[|r|] == '@'
  {
    if v == [] || v[0] == '@' then "" else [v[0]] + BeforeAt(v[1..])
  }

  /** `v.split('@')[1]` as a template writes it: without an `@` there is nothing there. */
  function Domain(v: string): string {
    var a := BeforeAt(v);
    if |a| == |v| then "undefined" else BeforeAt(v[|a| + 1..])
  }

  predicate Contains(s: string, w: string) {
    exists i :: 0 <= i <= |s| && w <= s[i..]
  }

  datatype Style = Email | ResidentNumber | Secret | Other

  function StyleOf(kind: string): Style {
    if kind == "EMAIL" then Email
    else if kind == "KR_RRN" then ResidentNumber
    else if Contains(kind, "KEY") || Contains(kind, "TOKEN") || kind == "PASSWORD_SECRET" then Secret
    else Other
  }

  /** `maskValue` */
  function MaskValue(kind: string, v: string): string {
    match StyleOf(kind)
    case Email =>
      var a := BeforeAt(v);
      [if a == "" then '*' else a[0]] + Stars(Max(3, |a| - 1)) + "@" + Domain(v)
    case ResidentNumber => "******-*******"
    case Secret => JsSlice(v, 0, 3) + "-************"
    case Other =>
      if |v| <= 4 then "****" else JsSlice(v, 0, 2) + Stars(Min(12, |v| - 4)) + JsSlice(v, -2, |v|)
  }

  /** What a reader of a mask learns about the value behind it. */
  datatype Shown =
    | Nothing
    | Head(front: string)
    | Ends(front: string, gap: nat, back: string)
    | Address(first: char, stars: nat, domain: string)

  ghost function ShownBy(kind: string, v: string): Shown {
    match StyleOf(kind)
    case Email =>
      var a := BeforeAt(v);
      Address(if a == "" then '*' else a[0], Max(3, |a| - 1), Domain(v))
    case ResidentNumber => Nothing
    case Secret => Head(v[..Min(3, |v|)])
    case Other => if |v| <= 4 then Nothing else Ends(v[..2], Min(12, |v| - 4), v[|v| - 2..])
  }

  // ---------- Which findings are masked, and in which order ----------

  predicate Maskable(f: Finding) {
    && f.kind != Some("PERSON_NAME")
    && f.maskingRequired != Some(false)
    && f.category !in {"PROMPT_INJECTION", "FILE_SAFETY", "PUBLIC_IDENTIFIER", "RISK_CONTEXT"}
    && f.location.source != "file_metadata"
    && f.location.end > f.location.start
  }

  function MaskableOf(fs: seq<Finding>): (r: seq<Finding>)
    ensures forall f :: f in r <==> f in fs && Maskable(f)
  {
    Filter(Maskable, fs)
  }

  function InsertByStart(f: Finding, sorted: seq<Finding>): (r: seq<Finding>)
    ensures multiset(r) == multiset(sorted) + multiset{f}
  {
    if sorted == [] then [f]
    else if f.location.start >= sorted[0].location.start then [f] + sorted
    else
      assert sorted == [sorted[0]] + sorted[1..];
      [sorted[0]] + InsertByStart(f, sorted[1..])
  }

  /** `sort((a, b) => b.location.start - a.location.start)`, which is stable. */
  function SortFromRight(fs: seq<Finding>): (r: seq<Finding>)
    ensures multiset(r) == multiset(fs)
  {
    if fs == [] then []
    else
      assert fs == [fs[0]] + fs[1..];
      InsertByStart(fs[0], SortFromRight(fs[1..]))
  }

  // ---------- The splice ----------

  function Mask(f: Finding, raw: string): string {
    Or(f.maskedValue, MaskValue(Or(f.kind, ""), raw))
  }

  /** One turn of the loop. */
  function Splice(safe: string, f: Finding): string {
    var l := f.location;
    JsSlice(safe, 0, l.start) + Mask(f, JsSlice(safe, l.start, l.end)) + JsSlice(safe, l.end, |safe|)
  }

  function SpliceAll(safe: string, fs: seq<Finding>): string
    decreases |fs|
  {
    if fs == [] then safe else SpliceAll(Splice(safe, fs[0]), fs[1..])
  }

  function MaskedText(text: string, fs: seq<Finding>): string {
    SpliceAll(text, SortFromRight(MaskableOf(fs)))
  }

  predicate Residual(f: Finding) {
    Or(f.kind, "") !in {"EMAIL", "PHONE", "KR_RRN", "CREDIT_CARD", "IP_ADDRESS"}
  }

  function Kinds(fs: seq<Finding>): (r: seq<string>)
    ensures |r| == |fs| && forall i :: 0 <= i < |fs| ==> r[i] == Or(fs[i].kind, "UNKNOWN")
  {
    seq(|fs|, i requires 0 <= i < |fs| => Or(fs[i].kind, "UNKNOWN"))
  }

  lemma SpliceNone(safe: string)
    ensures SpliceAll(safe, []) == safe
  {
  }

  lemma {:induction false} SpliceAllSnoc(safe: string, fs: seq<Finding>, f: Finding)
    ensures SpliceAll(safe, fs + [f]) == Splice(SpliceAll(safe, fs), f)
    decreases |fs|
  {
    hide Splice;
    if fs == [] {
      assert fs + [f] == [f] && [f][1..] == [];
    } else {
      assert (fs + [f])[0] == fs[0] && (fs + [f])[1..] == fs[1..] + [f];
      SpliceAllSnoc(Splice(safe, fs[0]), fs[1..], f);
    }
  }

  method MaskText(text: string, findings: seq<Finding>, detect: Detector) returns (r: MaskingResult)
    ensures r == MaskingResult(
      MaskableOf(findings) != [],
      Dedup(Kinds(MaskableOf(findings))),
      |MaskableOf(findings)|,
      MaskedText(text, findings),
      Filter(Residual, detect(MaskedText(text, findings))))
  {
    hide MaskValue, JsSlice, Or, Filter, SortFromRight, Dedup, SpliceAll;
    var maskable := MaskableOf(findings);
    var sorted := SortFromRight(maskable);
    var safe := text;
    SpliceNone(text);
    for i := 0 to |sorted|
      invariant safe == SpliceAll(text, sorted[..i])
    {
      var f := sorted[i];
      SpliceAllSnoc(text, sorted[..i], f);
      assert sorted[..i + 1] == sorted[..i] + [f];
      var raw := JsSlice(safe, f.location.start, f.location.end);
      safe := JsSlice(safe, 0, f.location.start) + Mask(f, raw) + JsSlice(safe, f.location.end, |safe|);
    }
    assert sorted[..|sorted|] == sorted;
    r := MaskingResult(|maskable| > 0, Dedup(Kinds(maskable)), |maskable|, safe, Filter(Residual, detect(safe)));
  }

  /** The masked types that are reported are those of the maskable findings. */
  lemma KindsOfMaskable(fs: seq<Finding>)
    ensures forall t :: t in Kinds(MaskableOf(fs)) <==> exists f :: f in fs && Maskable(f) && t == Or(f.kind, "UNKNOWN")
  {
    var ms := MaskableOf(fs);
    forall t | t in Kinds(ms) ensures exists f :: f in fs && Maskable(f) && t == Or(f.kind, "UNKNOWN") {
      var i :| 0 <= i < |Kinds(ms)| && Kinds(ms)[i] == t;
      assert ms[i] in ms;
    }
    forall f | f in fs && Maskable(f) ensures Or(f.kind, "UNKNOWN") in Kinds(ms) {
      assert f in ms;
      var i :| 0 <= i < |ms| && ms[i] == f;
      assert Kinds(ms)[i] == Or(f.kind, "UNKNOWN");
    }
  }
}
