/** `stableStringify` is canonical: its text determines the value up to member order, and it hides
    member order exactly when the key comparison separates distinct keys. */
module CanonicalJsonProofs {
  import opened CanonicalJson
  import opened Sequences

  // ---------- Canonical values and their text ----------

  /** The value the serializer really writes: members sorted, non-finite numbers replaced by null. */
  ghost function Canon(le: KeyOrder, v: Json): Json
    decreases Size(v), 0
  {
    match v
    case Arr(items) => Arr(CanonItems(le, items))
    case Obj(fields) =>
      SortSize(le, fields);
      Obj(CanonFields(le, SortByKey(le, fields)))
    case Num(n) => if n.Finite? then v else Null
    case _ => v
  }

  ghost function CanonItems(le: KeyOrder, items: seq<Json>): (r: seq<Json>)
    ensures |r| == |items|
    ensures forall i :: 0 <= i < |items| ==> Size(items[i]) <= SizeItems(items) && r[i] == Canon(le, items[i])
    decreases SizeItems(items), 1
  {
    if items == [] then [] else [Canon(le, items[0])] + CanonItems(le, items[1..])
  }

  ghost function CanonFields(le: KeyOrder, fields: seq<Field>): (r: seq<Field>)
    ensures |r| == |fields|
    ensures forall i :: 0 <= i < |fields| ==>
      Size(fields[i].value) <= SizeFields(fields) && r[i] == Field(fields[i].key, Canon(le, fields[i].value))
    decreases SizeFields(fields), 1
  {
    if fields == [] then []
    else [Field(fields[0].key, Canon(le, fields[0].value))] + CanonFields(le, fields[1..])
  }

  /** JSON text of a value with its members in the order they have. */
  ghost function Text(v: Json): string
    decreases v, 0
  {
    match v
    case Arr(items) => ['['] + TextItems(items, true) + [']']
    case Obj(fields) => ['{'] + TextFields(fields, true) + ['}']
    case _ => Scalar(v)
  }

  ghost function TextItems(items: seq<Json>, first: bool): string
    decreases items, 1
  {
    if items == [] then []
    else (if first then [] else [',']) + (Text(items[0]) + TextItems(items[1..], false))
  }

  ghost function TextFields(fields: seq<Field>, first: bool): string
    decreases fields, 1
  {
    if fields == [] then []
    else
      (if first then [] else [','])
      + (Quote(fields[0].key) + ([':'] + (Text(fields[0].value) + TextFields(fields[1..], false))))
  }

  lemma {:induction false} StringifyIsTextOfCanon(le: KeyOrder, v: Json)
    ensures Stringify(le, v) == Text(Canon(le, v))
    decreases Size(v), 0
  {
    match v
    case Arr(items) => StringifyItemsIsText(le, items, true);
    case Obj(fields) =>
      SortSize(le, fields);
      StringifyFieldsIsText(le, SortByKey(le, fields), true);
    case _ =>
  }

  lemma {:induction false} StringifyItemsIsText(le: KeyOrder, items: seq<Json>, first: bool)
    ensures StringifyItems(le, items, first) == TextItems(CanonItems(le, items), first)
    decreases SizeItems(items), 1
  {
    if items != [] {
      StringifyIsTextOfCanon(le, items[0]);
      StringifyItemsIsText(le, items[1..], false);
      assert CanonItems(le, items)[1..] == CanonItems(le, items[1..]);
    }
  }

  lemma {:induction false} StringifyFieldsIsText(le: KeyOrder, fields: seq<Field>, first: bool)
    ensures StringifyFields(le, fields, first) == TextFields(CanonFields(le, fields), first)
    decreases SizeFields(fields), 1
  {
    if fields != [] {
      StringifyIsTextOfCanon(le, fields[0].value);
      StringifyFieldsIsText(le, fields[1..], false);
      assert CanonFields(le, fields)[1..] == CanonFields(le, fields[1..]);
    }
  }

  // ---------- Unique decodability ----------

  /** What may follow a value inside a text. Numbers are not prefix-free, so this is what delimits them. */
  ghost predicate Boundary(rest: string) {
    rest == [] || rest[0] == ',' || rest[0] == ']' || rest[0] == '}'
  }

  /** Values whose every number is finite number text. */
  ghost predicate Plain(v: Json) {
    match v
    case Num(n) => n.Finite? && NumberText(n.text)
    case Arr(items) => forall i :: 0 <= i < |items| ==> Plain(items[i])
    case Obj(fields) => forall i :: 0 <= i < |fields| ==> Plain(fields[i].value)
    case _ => true
  }

  ghost function NumberPrefix(s: string): nat {
    if s == [] || !NumberChar(s[0]) then 0 else 1 + NumberPrefix(s[1..])
  }

  lemma {:induction false} NumberPrefixIsTheNumber(t: string, rest: string)
    requires forall i :: 0 <= i < |t| ==> NumberChar(t[i])
    requires Boundary(rest)
    ensures NumberPrefix(t + rest) == |t|
  {
    if t == [] {
      assert t + rest == rest;
    } else {
      assert (t + rest)[1..] == t[1..] + rest;
      NumberPrefixIsTheNumber(t[1..], rest);
    }
  }

  lemma SplitAt<T>(a: seq<T>, b: seq<T>, x: seq<T>, y: seq<T>)
    requires a + x == b + y && |a| == |b|
    ensures a == b && x == y
  {
    assert a == (a + x)[..|a|] == (b + y)[..|b|] == b;
    assert x == (a + x)[|a|..] == (b + y)[|b|..] == y;
  }

  lemma EscapeCharPrefixFree(c: char, d: char, x: string, y: string)
    requires EscapeChar(c) + x == EscapeChar(d) + y
    ensures c == d && x == y
  {
    var left, right := EscapeChar(c) + x, EscapeChar(d) + y;
    assert left[0] == EscapeChar(c)[0] && right[0] == EscapeChar(d)[0];
    if left[0] == '\\' {
      assert left[1] == EscapeChar(c)[1] && right[1] == EscapeChar(d)[1];
      if left[1] == 'u' {
        assert left[4] == EscapeChar(c)[4] && right[4] == EscapeChar(d)[4];
        assert left[5] == EscapeChar(c)[5] && right[5] == EscapeChar(d)[5];
      }
    }
    SplitAt(EscapeChar(c), EscapeChar(d), x, y);
  }

  lemma EscapeEnds(s: string, rest: string)
    ensures (Escape(s) + ['"'] + rest)[0] == '"' <==> s == []
  {
    if s != [] {
      assert (Escape(s) + ['"'] + rest)[0] == EscapeChar(s[0])[0];
    }
  }

  lemma EscapeUnfolds(s: string, rest: string)
    requires s != []
    ensures Escape(s) + ['"'] + rest == EscapeChar(s[0]) + (Escape(s[1..]) + ['"'] + rest)
  {
    var head, tail := EscapeChar(s[0]), Escape(s[1..]);
    Assoc(head, tail, ['"']);
    Assoc(head, tail + ['"'], rest);
  }

  lemma {:induction false} EscapeDecodes(s: string, t: string, x: string, y: string)
    requires Escape(s) + ['"'] + x == Escape(t) + ['"'] + y
    ensures s == t && x == y
  {
    EscapeEnds(s, x);
    EscapeEnds(t, y);
    if s == [] {
      assert Escape(s) + ['"'] + x == ['"'] + x && Escape(t) + ['"'] + y == ['"'] + y;
      SplitAt(['"'], ['"'], x, y);
    } else {
      var restS, restT := Escape(s[1..]) + ['"'] + x, Escape(t[1..]) + ['"'] + y;
      EscapeUnfolds(s, x);
      EscapeUnfolds(t, y);
      EscapeCharPrefixFree(s[0], t[0], restS, restT);
      EscapeDecodes(s[1..], t[1..], x, y);
      assert s == [s[0]] + s[1..] && t == [t[0]] + t[1..];
    }
  }

  /** A quoted string needs no delimiter: its text is a prefix code. */
  lemma QuoteDecodes(s: string, t: string, x: string, y: string)
    requires Quote(s) + x == Quote(t) + y
    ensures s == t && x == y
  {
    assert Quote(s) + x == ['"'] + (Escape(s) + ['"'] + x);
    assert Quote(t) + y == ['"'] + (Escape(t) + ['"'] + y);
    SplitAt(['"'], ['"'], Escape(s) + ['"'] + x, Escape(t) + ['"'] + y);
    EscapeDecodes(s, t, x, y);
  }

  /** The first character of a text tells which kind of value was written. */
  lemma Lead(v: Json)
    requires Plain(v)
    ensures Text(v) != []
    ensures Text(v)[0] == 'n' <==> v.Null?
    ensures Text(v)[0] == 't' <==> v == Bool(true)
    ensures Text(v)[0] == 'f' <==> v == Bool(false)
    ensures NumberChar(Text(v)[0]) <==> v.Num?
    ensures Text(v)[0] == '"' <==> v.Str?
    ensures Text(v)[0] == '[' <==> v.Arr?
    ensures Text(v)[0] == '{' <==> v.Obj?
  {
    match v
    case Bool(b) => assert Text(v) == if b then "true" else "false";
    case _ =>
  }

  lemma Bracket(open: char, body: string, close: char, rest: string)
    ensures ([open] + body + [close]) + rest == [open] + (body + ([close] + rest))
  {
    Assoc([open] + body, [close], rest);
    Assoc([open], body, [close] + rest);
  }

  /** Two texts, each followed by a boundary, can only coincide if value and remainder do. */
  lemma {:induction false} TextDecodes(v: Json, w: Json, x: string, y: string)
    requires Plain(v) && Plain(w) && Boundary(x) && Boundary(y)
    requires Text(v) + x == Text(w) + y
    ensures v == w && x == y
    decreases v, 0
  {
    Lead(v);
    Lead(w);
    assert Text(v)[0] == (Text(v) + x)[0] == (Text(w) + y)[0] == Text(w)[0];
    match v
    case Null => SplitAt(Text(v), Text(w), x, y);
    case Bool(_) => SplitAt(Text(v), Text(w), x, y);
    case Num(n) =>
      NumberPrefixIsTheNumber(n.text, x);
      NumberPrefixIsTheNumber(w.n.text, y);
      SplitAt(n.text, w.n.text, x, y);
    case Str(s) => QuoteDecodes(s, w.s, x, y);
    case Arr(items) =>
      Bracket('[', TextItems(items, true), ']', x);
      Bracket('[', TextItems(w.items, true), ']', y);
      SplitAt(['['], ['['], TextItems(items, true) + ([']'] + x), TextItems(w.items, true) + ([']'] + y));
      TextItemsDecode(items, w.items, true, x, y);
    case Obj(fields) =>
      Bracket('{', TextFields(fields, true), '}', x);
      Bracket('{', TextFields(w.fields, true), '}', y);
      SplitAt(['{'], ['{'], TextFields(fields, true) + (['}'] + x), TextFields(w.fields, true) + (['}'] + y));
      TextFieldsDecode(fields, w.fields, true, x, y);
  }

  lemma ItemsEnd(items: seq<Json>, first: bool, x: string)
    requires forall i :: 0 <= i < |items| ==> Plain(items[i])
    ensures (TextItems(items, first) + ([']'] + x))[0] == ']' <==> items == []
    ensures !first ==> Boundary(TextItems(items, first) + ([']'] + x))
  {
    if items != [] {
      Lead(items[0]);
    }
  }

  lemma ItemsUnfold(items: seq<Json>, first: bool, rest: string)
    requires items != []
    ensures TextItems(items, first) + rest
         == (if first then [] else [',']) + (Text(items[0]) + (TextItems(items[1..], false) + rest))
  {
    var sep: string := if first then [] else [','];
    Assoc(sep, Text(items[0]) + TextItems(items[1..], false), rest);
    Assoc(Text(items[0]), TextItems(items[1..], false), rest);
  }

  lemma {:induction false} TextItemsDecode(a: seq<Json>, b: seq<Json>, first: bool, x: string, y: string)
    requires forall i :: 0 <= i < |a| ==> Plain(a[i])
    requires forall i :: 0 <= i < |b| ==> Plain(b[i])
    requires TextItems(a, first) + ([']'] + x) == TextItems(b, first) + ([']'] + y)
    ensures a == b && x == y
    decreases a, 1
  {
    ItemsEnd(a, first, x);
    ItemsEnd(b, first, y);
    if a == [] {
      assert TextItems(a, first) + ([']'] + x) == [']'] + x && TextItems(b, first) + ([']'] + y) == [']'] + y;
      SplitAt([']'], [']'], x, y);
    } else {
      var sep: string := if first then [] else [','];
      var restA, restB := TextItems(a[1..], false) + ([']'] + x), TextItems(b[1..], false) + ([']'] + y);
      ItemsEnd(a[1..], false, x);
      ItemsEnd(b[1..], false, y);
      ItemsUnfold(a, first, [']'] + x);
      ItemsUnfold(b, first, [']'] + y);
      SplitAt(sep, sep, Text(a[0]) + restA, Text(b[0]) + restB);
      TextDecodes(a[0], b[0], restA, restB);
      TextItemsDecode(a[1..], b[1..], false, x, y);
      assert a == [a[0]] + a[1..] && b == [b[0]] + b[1..];
    }
  }

  lemma FieldsEnd(fields: seq<Field>, first: bool, x: string)
    ensures (TextFields(fields, first) + (['}'] + x))[0] == '}' <==> fields == []
    ensures !first ==> Boundary(TextFields(fields, first) + (['}'] + x))
  {
    if fields != [] {
      assert Quote(fields[0].key)[0] == '"';
    }
  }

  lemma FieldsUnfold(fields: seq<Field>, first: bool, rest: string)
    requires fields != []
    ensures TextFields(fields, first) + rest
         == (if first then [] else [','])
            + (Quote(fields[0].key) + ([':'] + (Text(fields[0].value) + (TextFields(fields[1..], false) + rest))))
  {
    var sep: string := if first then [] else [','];
    var key, value, tail := Quote(fields[0].key), Text(fields[0].value), TextFields(fields[1..], false);
    Assoc(sep, key + ([':'] + (value + tail)), rest);
    Assoc(key, [':'] + (value + tail), rest);
    Assoc([':'], value + tail, rest);
    Assoc(value, tail, rest);
  }

  lemma {:induction false} TextFieldsDecode(a: seq<Field>, b: seq<Field>, first: bool, x: string, y: string)
    requires forall i :: 0 <= i < |a| ==> Plain(a[i].value)
    requires forall i :: 0 <= i < |b| ==> Plain(b[i].value)
    requires TextFields(a, first) + (['}'] + x) == TextFields(b, first) + (['}'] + y)
    ensures a == b && x == y
    decreases a, 1
  {
    FieldsEnd(a, first, x);
    FieldsEnd(b, first, y);
    if a == [] {
      assert TextFields(a, first) + (['}'] + x) == ['}'] + x && TextFields(b, first) + (['}'] + y) == ['}'] + y;
      SplitAt(['}'], ['}'], x, y);
    } else {
      var sep: string := if first then [] else [','];
      var restA, restB := TextFields(a[1..], false) + (['}'] + x), TextFields(b[1..], false) + (['}'] + y);
      FieldsEnd(a[1..], false, x);
      FieldsEnd(b[1..], false, y);
      var tailA, tailB := [':'] + (Text(a[0].value) + restA), [':'] + (Text(b[0].value) + restB);
      FieldsUnfold(a, first, ['}'] + x);
      FieldsUnfold(b, first, ['}'] + y);
      SplitAt(sep, sep, Quote(a[0].key) + tailA, Quote(b[0].key) + tailB);
      QuoteDecodes(a[0].key, b[0].key, tailA, tailB);
      SplitAt([':'], [':'], Text(a[0].value) + restA, Text(b[0].value) + restB);
      TextDecodes(a[0].value, b[0].value, restA, restB);
      TextFieldsDecode(a[1..], b[1..], false, x, y);
      assert a == [a[0]] + a[1..] && b == [b[0]] + b[1..];
    }
  }

  lemma {:induction false} CanonIsPlain(le: KeyOrder, v: Json)
    requires WellFormed(v)
    ensures Plain(Canon(le, v))
    decreases Size(v)
  {
    match v
    case Arr(items) =>
      forall i | 0 <= i < |items| ensures Plain(CanonItems(le, items)[i]) {
        assert CanonItems(le, items)[i] == Canon(le, items[i]);
        CanonIsPlain(le, items[i]);
      }
    case Obj(fields) =>
      var sorted := SortByKey(le, fields);
      SortSize(le, fields);
      SortMembers(le, fields);
      forall i | 0 <= i < |sorted| ensures Plain(CanonFields(le, sorted)[i].value) {
        assert sorted[i] in fields;
        assert CanonFields(le, sorted)[i].value == Canon(le, sorted[i].value);
        CanonIsPlain(le, sorted[i].value);
      }
    case _ =>
  }

  // ---------- Canonical form and equality up to member order ----------

  lemma MemberIsUnique(fields: seq<Field>, i: int)
    requires 0 <= i < |fields| && DistinctKeys(fields)
    ensures HasMember(fields, fields[i].key) && Member(fields, fields[i].key) == fields[i].value
  {
    var j :| 0 <= j < |fields| && fields[j] == Field(fields[i].key, Member(fields, fields[i].key));
    assert i == j;
  }

  /** Objects with the same keys in the same order are the same exactly if they are so key by key. */
  lemma SameKeyByKey(f: seq<Field>, g: seq<Field>)
    requires |f| == |g| && DistinctKeys(g)
    requires forall i :: 0 <= i < |f| ==> f[i].key == g[i].key
    ensures Same(Obj(f), Obj(g)) <==> forall i :: 0 <= i < |f| ==> Same(f[i].value, g[i].value)
  {
    forall i | 0 <= i < |f| ensures HasMember(g, f[i].key) && Member(g, f[i].key) == g[i].value {
      MemberIsUnique(g, i);
    }
  }

  /** Equal canonical member lists pair each member of one object with a member of the other. */
  lemma CanonPartner(le: KeyOrder, f: seq<Field>, g: seq<Field>, i: int) returns (j: int)
    requires CanonFields(le, SortByKey(le, f)) == CanonFields(le, SortByKey(le, g))
    requires 0 <= i < |f|
    ensures 0 <= j < |g| && g[j].key == f[i].key && Canon(le, g[j].value) == Canon(le, f[i].value)
    ensures Size(f[i].value) <= SizeFields(f)
  {
    var sf, sg := SortByKey(le, f), SortByKey(le, g);
    SortSize(le, f);
    SortMembers(le, f);
    SortMembers(le, g);
    assert f[i] in sf;
    var p :| 0 <= p < |sf| && sf[p] == f[i];
    assert CanonFields(le, sf)[p] == CanonFields(le, sg)[p];
    assert sg[p] in g;
    j :| 0 <= j < |g| && g[j] == sg[p];
  }

  /** Equal canonical forms come from values equal up to member order, whatever the key comparison. */
  lemma {:induction false} CanonReflectsSame(le: KeyOrder, v: Json, w: Json)
    requires WellFormed(v) && WellFormed(w)
    requires Canon(le, v) == Canon(le, w)
    ensures Same(v, w)
    decreases Size(v)
  {
    match v
    case Arr(a) =>
      assert CanonItems(le, a) == CanonItems(le, w.items);
      forall i | 0 <= i < |a| ensures Same(a[i], w.items[i]) {
        assert CanonItems(le, a)[i] == CanonItems(le, w.items)[i];
        CanonReflectsSame(le, a[i], w.items[i]);
      }
    case Obj(f) =>
      var g := w.fields;
      assert CanonFields(le, SortByKey(le, f)) == CanonFields(le, SortByKey(le, g));
      forall i | 0 <= i < |f| ensures HasMember(g, f[i].key) && Same(f[i].value, Member(g, f[i].key)) {
        var j := CanonPartner(le, f, g, i);
        MemberIsUnique(g, j);
        CanonReflectsSame(le, f[i].value, g[j].value);
      }
    case _ =>
  }

  /** A strictly sorted sequence contained in another of the same length is that sequence. */
  lemma {:induction false} SortedInclusion(le: KeyOrder, a: seq<Field>, b: seq<Field>)
    requires Separates(le) && Sorted(le, a) && Sorted(le, b) && DistinctKeys(a) && DistinctKeys(b)
    requires forall x :: x in a ==> x in b
    ensures |a| <= |b| && (|a| == |b| ==> a == b)
    decreases |b|
  {
    if a != [] {
      assert a[0] in b;
      if a[0] == b[0] {
        forall x | x in a[1..] ensures x in b[1..] {
          var i :| 0 <= i < |a[1..]| && a[1..][i] == x;
          assert a[i + 1] in b && a[0].key != a[i + 1].key;
        }
        SortedInclusion(le, a[1..], b[1..]);
        assert a == [a[0]] + a[1..] && b == [b[0]] + b[1..];
      } else {
        var p :| 0 <= p < |b| && b[p] == a[0];
        assert le(b[0].key, a[0].key) && b[0].key != b[p].key;
        forall x | x in a ensures x in b[1..] {
          var i :| 0 <= i < |a| && a[i] == x;
          var q :| 0 <= q < |b| && b[q] == x;
          assert i > 0 ==> le(a[0].key, a[i].key);
          assert q != 0;
          assert b[1..][q - 1] == x;
        }
        SortedInclusion(le, a, b[1..]);
      }
    }
  }

  lemma CanonFieldsSorted(le: KeyOrder, fields: seq<Field>)
    requires TotalPreorder(le) && DistinctKeys(fields)
    ensures Sorted(le, CanonFields(le, SortByKey(le, fields)))
    ensures DistinctKeys(CanonFields(le, SortByKey(le, fields)))
  {
    SortSorts(le, fields);
    SortKeepsDistinctKeys(le, fields);
  }

  lemma CanonOrigin(le: KeyOrder, f: seq<Field>, p: int) returns (i: int)
    requires 0 <= p < |f|
    ensures 0 <= i < |f| && Size(f[i].value) <= SizeFields(f)
    ensures CanonFields(le, SortByKey(le, f))[p] == Field(f[i].key, Canon(le, f[i].value))
  {
    var sf := SortByKey(le, f);
    SortSize(le, f);
    SortMembers(le, f);
    assert CanonFields(le, sf)[p] == Field(sf[p].key, Canon(le, sf[p].value));
    assert sf[p] in f;
    i :| 0 <= i < |f| && f[i] == sf[p];
  }

  lemma CanonImage(le: KeyOrder, g: seq<Field>, j: int)
    requires 0 <= j < |g|
    ensures Field(g[j].key, Canon(le, g[j].value)) in CanonFields(le, SortByKey(le, g))
  {
    var sg := SortByKey(le, g);
    SortMembers(le, g);
    assert g[j] in sg;
    var q :| 0 <= q < |sg| && sg[q] == g[j];
    assert CanonFields(le, sg)[q] == Field(g[j].key, Canon(le, g[j].value));
  }

  /** Values equal up to member order have one canonical form, if the comparison separates keys. */
  lemma {:induction false} SameHasOneCanon(le: KeyOrder, v: Json, w: Json)
    requires TotalPreorder(le) && Separates(le)
    requires WellFormed(v) && WellFormed(w) && Same(v, w)
    ensures Canon(le, v) == Canon(le, w)
    decreases Size(v)
  {
    match v
    case Arr(a) =>
      forall i | 0 <= i < |a| ensures CanonItems(le, a)[i] == CanonItems(le, w.items)[i] {
        assert CanonItems(le, a)[i] == Canon(le, a[i]);
        SameHasOneCanon(le, a[i], w.items[i]);
      }
      assert CanonItems(le, a) == CanonItems(le, w.items);
    case Obj(f) =>
      var g := w.fields;
      var cf, cg := CanonFields(le, SortByKey(le, f)), CanonFields(le, SortByKey(le, g));
      forall x | x in cf ensures x in cg {
        var p :| 0 <= p < |cf| && cf[p] == x;
        var i := CanonOrigin(le, f, p);
        var j :| 0 <= j < |g| && g[j] == Field(f[i].key, Member(g, f[i].key));
        SameHasOneCanon(le, f[i].value, g[j].value);
        CanonImage(le, g, j);
      }
      CanonFieldsSorted(le, f);
      CanonFieldsSorted(le, g);
      SortedInclusion(le, cf, cg);
    case _ =>
  }

  // ---------- Main results ----------

  /** Equal texts come from values equal up to member order at every depth. This needs nothing of the
      key comparison. */
  lemma EqualTextMeansSame(le: KeyOrder, v: Json, w: Json)
    requires WellFormed(v) && WellFormed(w)
    requires Stringify(le, v) == Stringify(le, w)
    ensures Same(v, w)
  {
    TextTellsCanon(le, v, w);
    CanonReflectsSame(le, v, w);
  }

  /** For any key comparison at all, the text tells the value as the serializer has sorted it, no more and no less. */
  lemma TextTellsCanon(le: KeyOrder, v: Json, w: Json)
    requires WellFormed(v) && WellFormed(w)
    ensures Stringify(le, v) == Stringify(le, w) <==> Canon(le, v) == Canon(le, w)
  {
    StringifyIsTextOfCanon(le, v);
    StringifyIsTextOfCanon(le, w);
    if Stringify(le, v) == Stringify(le, w) {
      CanonIsPlain(le, v);
      CanonIsPlain(le, w);
      assert Text(Canon(le, v)) + [] == Text(Canon(le, w)) + [];
      TextDecodes(Canon(le, v), Canon(le, w), [], []);
    }
  }

  /** The serializer is canonical: equal text if and only if equal up to member order. */
  lemma StringifyIsCanonical(le: KeyOrder, v: Json, w: Json)
    requires TotalPreorder(le) && Separates(le)
    requires WellFormed(v) && WellFormed(w)
    ensures Stringify(le, v) == Stringify(le, w) <==> Same(v, w)
  {
    if Stringify(le, v) == Stringify(le, w) {
      EqualTextMeansSame(le, v, w);
    }
    if Same(v, w) {
      StringifyIsTextOfCanon(le, v);
      StringifyIsTextOfCanon(le, w);
      SameHasOneCanon(le, v, w);
    }
  }

  ghost predicate SameText(le: KeyOrder, v: Json, w: Json) {
    Stringify(le, v) == Stringify(le, w)
  }

  ghost function Pair(k: string, l: string): Json {
    Obj([Field(k, Null), Field(l, Null)])
  }

  lemma PairsAreSame(k: string, l: string)
    requires k != l
    ensures WellFormed(Pair(k, l)) && Same(Pair(k, l), Pair(l, k))
  {
    var f, g := Pair(k, l).fields, Pair(l, k).fields;
    MemberIsUnique(g, 0);
    MemberIsUnique(g, 1);
    assert f[0] == g[1] && f[1] == g[0];
    forall i | 0 <= i < |f| ensures HasMember(g, f[i].key) && Same(f[i].value, Member(g, f[i].key)) {
      assert f[i] == g[1 - i];
    }
  }

  lemma TiedPairKeepsItsOrder(le: KeyOrder, k: string, l: string)
    requires le(k, l)
    ensures SortByKey(le, Pair(k, l).fields) == Pair(k, l).fields
  {
    var fields := Pair(k, l).fields;
    assert fields[1..] == [fields[1]] && fields[1..][1..] == [];
    assert SortByKey(le, []) == [];
    assert SortByKey(le, fields[1..]) == [fields[1]];
  }

  /** If two distinct keys compare as equal, the stable sort lets their insertion order through. */
  lemma TiedKeysShowTheirOrder(le: KeyOrder, k: string, l: string)
    requires k != l && le(k, l) && le(l, k)
    ensures WellFormed(Pair(k, l)) && WellFormed(Pair(l, k)) && Same(Pair(k, l), Pair(l, k))
    ensures !SameText(le, Pair(k, l), Pair(l, k))
  {
    PairsAreSame(k, l);
    PairsAreSame(l, k);
    TiedPairKeepsItsOrder(le, k, l);
    TiedPairKeepsItsOrder(le, l, k);
    var v, w := Canon(le, Pair(k, l)), Canon(le, Pair(l, k));
    assert v.fields[0].key == k && w.fields[0].key == l;
    StringifyIsTextOfCanon(le, Pair(k, l));
    StringifyIsTextOfCanon(le, Pair(l, k));
    CanonIsPlain(le, Pair(k, l));
    CanonIsPlain(le, Pair(l, k));
    if Text(v) == Text(w) {
      assert Text(v) + [] == Text(w) + [];
      TextDecodes(v, w, [], []);
      assert false;
    }
  }

  /** No two values that differ only in member order get different texts. */
  ghost predicate HidesOrder(le: KeyOrder) {
    forall v, w :: WellFormed(v) && WellFormed(w) && Same(v, w) ==> SameText(le, v, w)
  }

  lemma SeparatingKeysHidesOrder(le: KeyOrder)
    requires TotalPreorder(le) && Separates(le)
    ensures HidesOrder(le)
  {
    forall v, w | WellFormed(v) && WellFormed(w) && Same(v, w) ensures SameText(le, v, w) {
      StringifyIsCanonical(le, v, w);
    }
  }

  lemma HiddenOrderSeparatesKeys(le: KeyOrder)
    requires HidesOrder(le)
    ensures Separates(le)
  {
    forall k, l | le(k, l) && le(l, k) ensures k == l {
      if k != l {
        TiedKeysShowTheirOrder(le, k, l);
        assert false;
      }
    }
  }

  /** Member order is invisible exactly for key comparisons that separate distinct keys. */
  lemma OrderIsHiddenIffKeysAreSeparated(le: KeyOrder)
    requires TotalPreorder(le)
    ensures HidesOrder(le) <==> Separates(le)
  {
    if Separates(le) {
      SeparatingKeysHidesOrder(le);
    }
    if HidesOrder(le) {
      HiddenOrderSeparatesKeys(le);
    }
  }

  // ---------- A comparison that separates keys ----------

  /** Comparison of keys code unit by code unit. */
  predicate CodeUnitOrder(a: string, b: string) {
    a == [] || (b != [] && (a[0] < b[0] || (a[0] == b[0] && CodeUnitOrder(a[1..], b[1..]))))
  }

  lemma {:induction false} CodeUnitOrderCompares(a: string, b: string)
    ensures CodeUnitOrder(a, b) || CodeUnitOrder(b, a)
    ensures CodeUnitOrder(a, b) && CodeUnitOrder(b, a) ==> a == b
  {
    if a != [] && b != [] {
      CodeUnitOrderCompares(a[1..], b[1..]);
      assert a == [a[0]] + a[1..] && b == [b[0]] + b[1..];
    }
  }

  lemma {:induction false} CodeUnitOrderIsTransitive(a: string, b: string, c: string)
    requires CodeUnitOrder(a, b) && CodeUnitOrder(b, c)
    ensures CodeUnitOrder(a, c)
  {
    if a != [] && a[0] == b[0] == c[0] {
      CodeUnitOrderIsTransitive(a[1..], b[1..], c[1..]);
    }
  }

  /** It is total and separates distinct keys, so there is a comparison under which the text is canonical. */
  lemma CodeUnitOrderSeparates()
    ensures TotalPreorder(CodeUnitOrder) && Separates(CodeUnitOrder)
  {
    forall a, b
      ensures CodeUnitOrder(a, b) || CodeUnitOrder(b, a)
      ensures CodeUnitOrder(a, b) && CodeUnitOrder(b, a) ==> a == b
    {
      CodeUnitOrderCompares(a, b);
    }
    forall a, b, c | CodeUnitOrder(a, b) && CodeUnitOrder(b, c) ensures CodeUnitOrder(a, c) {
      CodeUnitOrderIsTransitive(a, b, c);
    }
  }

  /** Equality up to member order is an equivalence. */
  lemma SameIsEquivalence(u: Json, v: Json, w: Json)
    requires WellFormed(u) && WellFormed(v) && WellFormed(w)
    ensures Same(u, u)
    ensures Same(u, v) <==> Same(v, u)
    ensures Same(u, v) && Same(v, w) ==> Same(u, w)
  {
    hide Same, Stringify, WellFormed;
    CodeUnitOrderSeparates();
    StringifyIsCanonical(CodeUnitOrder, u, u);
    StringifyIsCanonical(CodeUnitOrder, u, v);
    StringifyIsCanonical(CodeUnitOrder, v, u);
    StringifyIsCanonical(CodeUnitOrder, v, w);
    StringifyIsCanonical(CodeUnitOrder, u, w);
  }
}
