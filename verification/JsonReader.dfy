/** A reader of JSON texts without white space (RFC 8259, sections 2 to 7), and what it makes of canonical text. */
module JsonReader {
  import opened Wrappers
  import opened CanonicalJson
  import opened CanonicalJsonProofs
  import opened Sequences

  /** What was read, and what is left of the text. */
  datatype Taken<T> = Taken(value: T, rest: string)

  // ---------- Strings ----------

  /** The value of a hexadecimal digit. */
  ghost function HexValue(c: char): Option<nat> {
    if '0' <= c <= '9' then Some(c as int - '0' as int)
    else if 'a' <= c <= 'f' then Some(c as int - 'a' as int + 10)
    else if 'A' <= c <= 'F' then Some(c as int - 'A' as int + 10)
    else None
  }

  ghost function HexNumber(digits: string): Option<nat>
    ensures HexNumber(digits).Some? && |digits| <= 4 ==> HexNumber(digits).value < 65536
  {
    if digits == [] then Some(0)
    else if |digits| > 4 then None
    else
      var front, last := HexNumber(digits[..|digits| - 1]), HexValue(digits[|digits| - 1]);
      if front.None? || last.None? || front.value >= 4096 then None else Some(16 * front.value + last.value)
  }

  /** The character that a letter behind a backslash stands for. */
  ghost function Named(c: char): Option<char> {
    if c == '"' || c == '\\' || c == '/' then Some(c)
    else if c == 'b' then Some(8 as char)
    else if c == 'f' then Some(12 as char)
    else if c == 'n' then Some('\n')
    else if c == 'r' then Some('\r')
    else if c == 't' then Some('\t')
    else None
  }

  /** One character of a string, escaped or not; a bare control character is not allowed. */
  ghost function ReadChar(s: string): (r: Option<Taken<char>>)
    ensures r.Some? ==> |r.value.rest| < |s|
  {
    if s == [] || s[0] == '"' || s[0] as int < 32 then None
    else if s[0] != '\\' then Some(Taken(s[0], s[1..]))
    else if |s| > 1 && Named(s[1]).Some? then Some(Taken(Named(s[1]).value, s[2..]))
    else if |s| > 5 && s[1] == 'u' && HexNumber(s[2..6]).Some? && HexNumber(s[2..6]).value < 55296
    then Some(Taken(HexNumber(s[2..6]).value as char, s[6..]))
    else None
  }

  /** The rest of a string, up to the closing quotation mark. */
  ghost function ReadString(s: string): (r: Option<Taken<string>>)
    ensures r.Some? ==> |r.value.rest| < |s|
    decreases |s|
  {
    if s == [] then None
    else if s[0] == '"' then Some(Taken("", s[1..]))
    else
      var c := ReadChar(s);
      if c.None? then None
      else
        var more := ReadString(c.value.rest);
        if more.None? then None else Some(Taken([c.value.value] + more.value.value, more.value.rest))
  }

  // ---------- Values ----------

  /** The text begins with this word. */
  ghost predicate Begins(s: string, word: string) {
    |word| <= |s| && s[..|word|] == word
  }

  ghost function ReadNumber(s: string): (r: Taken<string>)
    ensures |r.value| + |r.rest| == |s|
    ensures s != [] && NumberChar(s[0]) ==> |r.rest| < |s|
  {
    if s == [] || !NumberChar(s[0]) then Taken("", s)
    else
      var more := ReadNumber(s[1..]);
      Taken([s[0]] + more.value, more.rest)
  }

  ghost function Read(s: string): (r: Option<Taken<Json>>)
    ensures r.Some? ==> |r.value.rest| < |s|
    decreases |s|, 0
  {
    if s == [] then None
    else if Begins(s, "null") then Some(Taken(Null, s[4..]))
    else if Begins(s, "true") then Some(Taken(Bool(true), s[4..]))
    else if Begins(s, "false") then Some(Taken(Bool(false), s[5..]))
    else if s[0] == '"' then
      var text := ReadString(s[1..]);
      if text.None? then None else Some(Taken(Str(text.value.value), text.value.rest))
    else if Begins(s, "[]") then Some(Taken(Arr([]), s[2..]))
    else if s[0] == '[' then
      var items := ReadItems(s[1..]);
      if items.None? then None else Some(Taken(Arr(items.value.value), items.value.rest))
    else if Begins(s, "{}") then Some(Taken(Obj([]), s[2..]))
    else if s[0] == '{' then
      var fields := ReadFields(s[1..]);
      if fields.None? then None else Some(Taken(Obj(fields.value.value), fields.value.rest))
    else if NumberChar(s[0]) then
      var number := ReadNumber(s);
      Some(Taken(Num(Finite(number.value)), number.rest))
    else None
  }

  /** One element or more, separated by commas, up to the closing bracket. */
  ghost function ReadItems(s: string): (r: Option<Taken<seq<Json>>>)
    ensures r.Some? ==> |r.value.rest| < |s|
    decreases |s|, 1
  {
    var first := Read(s);
    if first.None? || first.value.rest == [] then None
    else if first.value.rest[0] == ']' then Some(Taken([first.value.value], first.value.rest[1..]))
    else if first.value.rest[0] != ',' then None
    else
      var more := ReadItems(first.value.rest[1..]);
      if more.None? then None else Some(Taken([first.value.value] + more.value.value, more.value.rest))
  }

  /** A name, a colon and a value. */
  ghost function ReadField(s: string): (r: Option<Taken<Field>>)
    ensures r.Some? ==> |r.value.rest| < |s|
    decreases |s|, 1
  {
    if s == [] || s[0] != '"' then None
    else
      var name := ReadString(s[1..]);
      if name.None? || !Begins(name.value.rest, ":") then None
      else
        var value := Read(name.value.rest[1..]);
        if value.None? then None else Some(Taken(Field(name.value.value, value.value.value), value.value.rest))
  }

  /** One member or more, separated by commas, up to the closing brace. */
  ghost function ReadFields(s: string): (r: Option<Taken<seq<Field>>>)
    ensures r.Some? ==> |r.value.rest| < |s|
    decreases |s|, 2
  {
    var first := ReadField(s);
    if first.None? || first.value.rest == [] then None
    else if first.value.rest[0] == '}' then Some(Taken([first.value.value], first.value.rest[1..]))
    else if first.value.rest[0] != ',' then None
    else
      var more := ReadFields(first.value.rest[1..]);
      if more.None? then None else Some(Taken([first.value.value] + more.value.value, more.value.rest))
  }

  // ---------- Reading what was written ----------

  lemma HexRead(n: nat)
    requires n < 32
    ensures HexNumber(['0', '0', HexDigit(n / 16), HexDigit(n % 16)]) == Some(n)
  {
    var a, b := HexDigit(n / 16), HexDigit(n % 16);
    assert HexValue(a) == Some(n / 16) && HexValue(b) == Some(n % 16);
    assert HexNumber([]) == Some(0);
    assert ['0'][..0] == [] && HexNumber(['0']) == Some(0);
    assert ['0', '0'][..1] == ['0'] && HexNumber(['0', '0']) == Some(0);
    assert ['0', '0', a][..2] == ['0', '0'] && HexNumber(['0', '0', a]) == Some(n / 16);
    assert ['0', '0', a, b][..3] == ['0', '0', a];
  }

  lemma CharRead(c: char, rest: string)
    ensures ReadChar(EscapeChar(c) + rest) == Some(Taken(c, rest))
    ensures EscapeChar(c) != [] && EscapeChar(c)[0] != '"'
  {
    var e := EscapeChar(c);
    var s := e + rest;
    assert s[|e|..] == rest && s[0] == e[0];
    if |e| == 6 {
      HexRead(c as int);
      assert s[2..6] == e[2..];
      assert s[1] == 'u';
    } else if |e| == 2 {
      assert s[1] == e[1];
    }
  }

  lemma {:induction false} StringRead(t: string, rest: string)
    ensures ReadString(Escape(t) + ['"'] + rest) == Some(Taken(t, rest))
  {
    hide ReadChar, EscapeChar;
    if t == [] {
      assert Escape(t) + ['"'] + rest == ['"'] + rest;
    } else {
      var tail := Escape(t[1..]) + ['"'] + rest;
      EscapeUnfolds(t, rest);
      CharRead(t[0], tail);
      StringRead(t[1..], rest);
      assert (EscapeChar(t[0]) + tail)[0] == EscapeChar(t[0])[0];
      assert t == [t[0]] + t[1..];
    }
  }

  lemma {:induction false} NumberRead(t: string, rest: string)
    requires (forall i :: 0 <= i < |t| ==> NumberChar(t[i])) && Boundary(rest)
    ensures ReadNumber(t + rest) == Taken(t, rest)
  {
    if t == [] {
      assert t + rest == rest && (rest == [] || !NumberChar(rest[0]));
      assert ReadNumber(rest) == Taken("", rest);
    } else {
      var s, more := t + rest, t[1..] + rest;
      NumberRead(t[1..], rest);
      assert s[0] == t[0] && s[1..] == more && [t[0]] + t[1..] == t;
      assert ReadNumber(s) == Taken([t[0]] + ReadNumber(more).value, ReadNumber(more).rest);
    }
  }

  lemma WordsRead(rest: string)
    ensures Read("null" + rest) == Some(Taken(Null, rest))
    ensures Read("true" + rest) == Some(Taken(Bool(true), rest))
    ensures Read("false" + rest) == Some(Taken(Bool(false), rest))
  {
    hide ReadString, ReadNumber, ReadItems, ReadFields;
    var n, t, f := "null" + rest, "true" + rest, "false" + rest;
    assert n[..4] == "null" && n[4..] == rest && t[..4] == "true" && t[4..] == rest && t[0] == 't';
    assert f[..5] == "false" && f[5..] == rest && f[0] == 'f';
  }

  lemma DigitsRead(t: string, rest: string)
    requires NumberText(t) && Boundary(rest)
    ensures Read(t + rest) == Some(Taken(Num(Finite(t)), rest))
  {
    hide ReadString, ReadNumber, ReadItems, ReadFields;
    NumberRead(t, rest);
    assert (t + rest)[0] == t[0] && NumberChar(t[0]);
  }

  lemma QuotedRead(t: string, rest: string)
    ensures Read(Quote(t) + rest) == Some(Taken(Str(t), rest))
  {
    hide ReadString, ReadNumber, ReadItems, ReadFields, Escape;
    var s := Quote(t) + rest;
    StringRead(t, rest);
    assert s[0] == '"' && s[1..] == Escape(t) + ['"'] + rest;
  }

  lemma ScalarRead(v: Json, rest: string)
    requires Plain(v) && !v.Arr? && !v.Obj? && Boundary(rest)
    ensures Read(Text(v) + rest) == Some(Taken(v, rest))
  {
    hide Read, Quote;
    match v
    case Null => WordsRead(rest);
    case Bool(_) => WordsRead(rest);
    case Num(n) => DigitsRead(n.text, rest);
    case Str(t) => QuotedRead(t, rest);
  }

  /** What a value's text begins with is neither a closing bracket nor a closing brace. */
  lemma NotClosing(v: Json, rest: string)
    requires Plain(v)
    ensures Text(v) != [] && (Text(v) + rest)[0] == Text(v)[0]
    ensures Text(v)[0] != ']' && Text(v)[0] != '}'
  {
    Lead(v);
    match v
    case Bool(b) => assert Text(v) == if b then "true" else "false";
    case _ =>
  }

  /** Reading returns exactly the value that was written, and leaves what follows. */
  lemma {:induction false} TextRead(v: Json, rest: string)
    requires Plain(v) && Boundary(rest)
    ensures Read(Text(v) + rest) == Some(Taken(v, rest))
    decreases v, 0
  {
    match v
    case Arr(items) =>
      Bracket('[', TextItems(items, true), ']', rest);
      if items == [] {
        EmptyRead(rest);
      } else {
        ItemsRead(items, rest);
        ArrayRead(items, rest);
      }
    case Obj(fields) =>
      Bracket('{', TextFields(fields, true), '}', rest);
      if fields == [] {
        EmptyRead(rest);
      } else {
        FieldsRead(fields, rest);
        ObjectRead(fields, rest);
      }
    case _ => ScalarRead(v, rest);
  }

  lemma EmptyRead(rest: string)
    ensures Read("[" + ("" + ("]" + rest))) == Some(Taken(Arr([]), rest))
    ensures Read("{" + ("" + ("}" + rest))) == Some(Taken(Obj([]), rest))
  {
    var s, t := "[" + ("" + ("]" + rest)), "{" + ("" + ("}" + rest));
    assert s[..2] == "[]" && s[2..] == rest && t[..2] == "{}" && t[2..] == rest;
    assert s[0] == '[' && t[0] == '{';
  }

  lemma ArrayRead(items: seq<Json>, rest: string)
    requires items != [] && Plain(items[0])
    requires ReadItems(TextItems(items, true) + ("]" + rest)) == Some(Taken(items, rest))
    ensures Read("[" + (TextItems(items, true) + ("]" + rest))) == Some(Taken(Arr(items), rest))
  {
    hide ReadItems, Plain;
    var body := TextItems(items, true) + ("]" + rest);
    var s := "[" + body;
    NotClosing(items[0], TextItems(items[1..], false) + ("]" + rest));
    assert body[0] == Text(items[0])[0];
    assert s[0] == '[' && s[1] == body[0] && s[1..] == body;
    assert s[..2] == ['[', s[1]];
  }

  lemma ObjectRead(fields: seq<Field>, rest: string)
    requires fields != []
    requires ReadFields(TextFields(fields, true) + ("}" + rest)) == Some(Taken(fields, rest))
    ensures Read("{" + (TextFields(fields, true) + ("}" + rest))) == Some(Taken(Obj(fields), rest))
  {
    hide ReadFields;
    var body := TextFields(fields, true) + ("}" + rest);
    var s := "{" + body;
    assert TextFields(fields, true)[0] == Quote(fields[0].key)[0] == '"';
    assert body[0] == TextFields(fields, true)[0];
    assert s[0] == '{' && s[1] == body[0] && s[1..] == body;
    assert s[..2] == ['{', s[1]];
  }

  lemma ItemsStep(s: string, v: Json, after: string)
    requires Read(s) == Some(Taken(v, after)) && after != []
    ensures after[0] == ']' ==> ReadItems(s) == Some(Taken([v], after[1..]))
    ensures after[0] == ',' && ReadItems(after[1..]).Some? ==>
      ReadItems(s) == Some(Taken([v] + ReadItems(after[1..]).value.value, ReadItems(after[1..]).value.rest))
  {
    hide Read;
  }

  lemma FieldsStep(s: string, f: Field, after: string)
    requires ReadField(s) == Some(Taken(f, after)) && after != []
    ensures after[0] == '}' ==> ReadFields(s) == Some(Taken([f], after[1..]))
    ensures after[0] == ',' && ReadFields(after[1..]).Some? ==>
      ReadFields(s) == Some(Taken([f] + ReadFields(after[1..]).value.value, ReadFields(after[1..]).value.rest))
  {
    hide ReadField;
  }

  lemma {:induction false} ItemsRead(items: seq<Json>, rest: string)
    requires items != [] && forall i :: 0 <= i < |items| ==> Plain(items[i])
    ensures ReadItems(TextItems(items, true) + ("]" + rest)) == Some(Taken(items, rest))
    decreases items, 1
  {
    hide Read, ReadItems, Plain, Text;
    var more := items[1..];
    var after := TextItems(more, false) + ("]" + rest);
    assert TextItems(items, true) + ("]" + rest) == Text(items[0]) + after;
    assert items == [items[0]] + more;
    if more == [] {
      assert after == "]" + rest && ("]" + rest)[1..] == rest && items == [items[0]];
      TextRead(items[0], after);
      ItemsStep(Text(items[0]) + after, items[0], after);
    } else {
      var body := TextItems(more, true) + ("]" + rest);
      assert after == "," + body && ("," + body)[1..] == body;
      TextRead(items[0], after);
      assert forall i :: 0 <= i < |more| ==> more[i] == items[i + 1];
      ItemsRead(more, rest);
      ItemsStep(Text(items[0]) + after, items[0], after);
    }
  }

  lemma FieldRead(f: Field, rest: string)
    requires Read(Text(f.value) + rest) == Some(Taken(f.value, rest))
    ensures ReadField(Quote(f.key) + (":" + (Text(f.value) + rest))) == Some(Taken(f, rest))
  {
    hide Read, ReadString, Escape, Text;
    var tail := ":" + (Text(f.value) + rest);
    StringRead(f.key, tail);
    var s := Quote(f.key) + tail;
    assert s == ['"'] + (Escape(f.key) + ['"'] + tail);
    assert s[1..] == Escape(f.key) + ['"'] + tail;
    assert tail[..1] == ":" && tail[1..] == Text(f.value) + rest;
  }

  lemma {:induction false} FieldsRead(fields: seq<Field>, rest: string)
    requires fields != [] && forall i :: 0 <= i < |fields| ==> Plain(fields[i].value)
    ensures ReadFields(TextFields(fields, true) + ("}" + rest)) == Some(Taken(fields, rest))
    decreases fields, 1
  {
    hide Read, ReadField, ReadFields, Plain, Text, Quote;
    var f, more := fields[0], fields[1..];
    var after := TextFields(more, false) + ("}" + rest);
    assert TextFields(fields, true) + ("}" + rest) == Quote(f.key) + (":" + (Text(f.value) + after));
    assert fields == [f] + more;
    if more == [] {
      assert after == "}" + rest && ("}" + rest)[1..] == rest && fields == [f];
      TextRead(f.value, after);
      FieldRead(f, after);
      FieldsStep(Quote(f.key) + (":" + (Text(f.value) + after)), f, after);
    } else {
      var body := TextFields(more, true) + ("}" + rest);
      assert after == "," + body && ("," + body)[1..] == body;
      TextRead(f.value, after);
      FieldRead(f, after);
      assert forall i :: 0 <= i < |more| ==> more[i] == fields[i + 1];
      FieldsRead(more, rest);
      FieldsStep(Quote(f.key) + (":" + (Text(f.value) + after)), f, after);
    }
  }

  /** Round trip: what `stableStringify` writes is a JSON text, and reading it gives the value back, with its members
      sorted and with null for the numbers that are not finite. */
  lemma StringifyReads(le: KeyOrder, v: Json)
    requires WellFormed(v)
    ensures Read(Stringify(le, v)) == Some(Taken(Canon(le, v), ""))
  {
    hide Read, Text, Canon, Stringify;
    StringifyIsTextOfCanon(le, v);
    CanonIsPlain(le, v);
    TextRead(Canon(le, v), "");
    assert Text(Canon(le, v)) + "" == Text(Canon(le, v));
  }
}
