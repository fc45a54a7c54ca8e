/** Writers of PDF string literals that use every escape there is (section 7.3.4.2 of ISO 32000-1): backslash and
    letter, backslash and one to three octal digits. What the decoder makes of what they write. */
module PdfWriters {
  import opened PdfLiteral

  /** How one character is written. */
  datatype Form = Plain | Named | Octets(digits: nat)

  /** The letter that stands for a character behind a backslash, if it has one. */
  ghost predicate HasName(c: char) {
    || c == '\n' || c == '\r' || c == '\t' || c as int == 8 || c as int == 12
    || c == '(' || c == ')' || c == '\\'
  }

  ghost function NameOf(c: char): char
    requires HasName(c)
  {
    if c == '\n' then 'n' else if c == '\r' then 'r' else if c == '\t' then 't'
    else if c as int == 8 then 'b' else if c as int == 12 then 'f' else c
  }

  ghost function OctalDigit(n: nat): char
    requires n < 8
  {
    "01234567"[n]
  }

  /** A number in one, two or three octal digits. */
  ghost function OctalDigits(n: nat, digits: nat): string
    requires (digits == 1 && n < 8) || (digits == 2 && n < 64) || (digits == 3 && n < 512)
  {
    if digits == 1 then [OctalDigit(n)]
    else if digits == 2 then [OctalDigit(n / 8), OctalDigit(n % 8)]
    else [OctalDigit(n / 64), OctalDigit(n / 8 % 8), OctalDigit(n % 8)]
  }

  /** A character can be written in this form. */
  ghost predicate Fits(c: char, form: Form) {
    match form
    case Plain => c != '\\'
    case Named => HasName(c)
    case Octets(digits) =>
      || (digits == 1 && c as int < 8)
      || (digits == 2 && c as int < 64)
      || (digits == 3 && c as int < 512)
  }

  ghost function Written(c: char, form: Form): string
    requires Fits(c, form)
  {
    match form
    case Plain => [c]
    case Named => ['\\', NameOf(c)]
    case Octets(digits) => ['\\'] + OctalDigits(c as int, digits)
  }

  ghost predicate AllFit(s: string, forms: seq<Form>) {
    |s| == |forms| && forall i :: 0 <= i < |s| ==> Fits(s[i], forms[i])
  }

  ghost predicate OctalText(c: char) {
    c in "01234567"
  }

  /** No short octal escape is followed by a plain octal digit, which would be taken for one of its own. */
  ghost predicate Unambiguous(s: string, forms: seq<Form>) {
    && AllFit(s, forms)
    && forall i :: 0 <= i < |s| - 1 && (forms[i] == Octets(1) || forms[i] == Octets(2)) && forms[i + 1] == Plain ==>
         !OctalText(s[i + 1])
  }

  ghost function Write(s: string, forms: seq<Form>): string
    requires AllFit(s, forms)
  {
    if s == [] then [] else Written(s[0], forms[0]) + Write(s[1..], forms[1..])
  }

  /** A named backslash stands right before a plain octal digit. */
  ghost predicate Collides(s: string, forms: seq<Form>) {
    |s| == |forms|
    && exists i :: 0 <= i < |s| - 1 && forms[i] == Named && s[i] == '\\' && forms[i + 1] == Plain && OctalText(s[i + 1])
  }

  // ---------- Reading what was written ----------

  lemma OctalIsText(c: char)
    ensures Octal(c) <==> OctalText(c)
  {
    if Octal(c) {
      var n := c as int - '0' as int;
      assert c == "01234567"[n];
    }
  }

  lemma DigitOf(n: nat)
    requires n < 8
    ensures Octal(OctalDigit(n)) && Digit(OctalDigit(n)) == n
    ensures !Special(OctalDigit(n))
  {
  }

  lemma NamesMean(c: char)
    requires HasName(c)
    ensures Special(NameOf(c)) && Escaped(NameOf(c)) == c && (NameOf(c) == '\\' <==> c == '\\')
  {
  }

  lemma RunOf(t: string, k: nat, max: nat)
    requires k <= |t| && k <= max && (forall i :: 0 <= i < k ==> Octal(t[i]))
    requires k == max || k == |t| || !Octal(t[k])
    ensures OctalRun(t, max) == k
  {
    if k > 0 { RunOf(t[1..], k - 1, max - 1); }
  }

  lemma InOctal(n: nat)
    ensures n < 64 ==> n / 8 < 8 && 8 * (n / 8) + n % 8 == n
    ensures n < 512 ==> n / 64 < 8 && 64 * (n / 64) + 8 * (n / 8 % 8) + n % 8 == n
  {
    assert n / 8 / 8 == n / 64;
  }

  lemma OctalDigitsRead(n: nat, k: nat)
    requires (k == 1 && n < 8) || (k == 2 && n < 64) || (k == 3 && n < 512)
    ensures var digits := OctalDigits(n, k);
      |digits| == k && (forall i :: 0 <= i < k ==> Octal(digits[i])) && OctalValue(digits) == n
      && !Special(digits[0])
  {
    hide OctalDigit, Digit, Octal, Special;
    InOctal(n);
    if k == 1 { DigitOf(n); }
    DigitOf(n % 8);
    if k == 2 { DigitOf(n / 8); }
    if k == 3 {
      DigitOf(n / 64);
      DigitOf(n / 8 % 8);
    }
  }

  /** An octal escape, read where it stands. */
  lemma OctetRead(n: nat, k: nat, rest: string)
    requires (k == 1 && n < 8) || (k == 2 && n < 64) || (k == 3 && n < 512)
    requires k == 3 || rest == [] || !Octal(rest[0])
    ensures var s := ['\\'] + OctalDigits(n, k) + rest;
      ReadOnce(s) == [n as char] + ReadOnce(rest) && (Misread(s) <==> Misread(rest))
  {
    hide OctalDigits, OctalValue, OctalRun, Octal, Special, Escaped;
    var digits := OctalDigits(n, k);
    var s := ['\\'] + digits + rest;
    OctalDigitsRead(n, k);
    var t := s[1..];
    assert t == digits + rest && t[..k] == digits && t[k..] == rest && s[1 + k..] == rest;
    assert forall i :: 0 <= i < k ==> t[i] == digits[i];
    RunOf(t, k, 3);
    assert s[1] == digits[0];
  }

  lemma NamedRead(c: char, rest: string)
    requires HasName(c)
    ensures var s := ['\\', NameOf(c)] + rest;
      ReadOnce(s) == [c] + ReadOnce(rest)
      && (Misread(s) <==> (c == '\\' && rest != [] && Octal(rest[0])) || Misread(rest))
  {
    hide HasName, NameOf, Escaped, Special, Octal, OctalRun;
    NamesMean(c);
    var s := ['\\', NameOf(c)] + rest;
    assert s[2..] == rest;
  }

  lemma PlainRead(c: char, rest: string)
    requires c != '\\'
    ensures ReadOnce([c] + rest) == [c] + ReadOnce(rest) && (Misread([c] + rest) <==> Misread(rest))
  {
    assert ([c] + rest)[1..] == rest;
  }

  /** What is written begins with an octal digit exactly if the first character is one and is written plain. */
  lemma WriteBegins(s: string, forms: seq<Form>)
    requires AllFit(s, forms)
    ensures Write(s, forms) != [] && Octal(Write(s, forms)[0]) <==> s != [] && forms[0] == Plain && OctalText(s[0])
  {
    if s != [] { OctalIsText(s[0]); }
  }

  lemma UnambiguousTail(s: string, forms: seq<Form>)
    requires Unambiguous(s, forms) && s != []
    ensures Unambiguous(s[1..], forms[1..])
    ensures Collides(s, forms) <==>
      (|s| > 1 && forms[0] == Named && s[0] == '\\' && forms[1] == Plain && OctalText(s[1]))
      || Collides(s[1..], forms[1..])
  {
    hide OctalText;
    assert forall i :: 0 <= i < |s| - 1 ==> s[1..][i] == s[i + 1] && forms[1..][i] == forms[i + 1];
    if Collides(s[1..], forms[1..]) {
      var i :| 0 <= i < |s[1..]| - 1 && forms[1..][i] == Named && s[1..][i] == '\\' && forms[1..][i + 1] == Plain
        && OctalText(s[1..][i + 1]);
      assert forms[i + 1] == Named && s[i + 1] == '\\' && forms[i + 2] == Plain && OctalText(s[i + 2]);
    }
    if Collides(s, forms) {
      var i :| 0 <= i < |s| - 1 && forms[i] == Named && s[i] == '\\' && forms[i + 1] == Plain && OctalText(s[i + 1]);
      if i > 0 {
        assert forms[1..][i - 1] == Named && s[1..][i - 1] == '\\' && forms[1..][i] == Plain && OctalText(s[1..][i]);
      }
    }
  }

  /** Reading once returns what was written, in whatever forms. */
  lemma {:induction false} ReadOnceReturns(s: string, forms: seq<Form>)
    requires Unambiguous(s, forms)
    ensures ReadOnce(Write(s, forms)) == s
    ensures Misread(Write(s, forms)) <==> Collides(s, forms)
  {
    if s != [] {
      hide ReadOnce, Misread, OctalText, Octal, OctalDigits, Fits;
      var c, rest := s[0], Write(s[1..], forms[1..]);
      UnambiguousTail(s, forms);
      ReadOnceReturns(s[1..], forms[1..]);
      WriteBegins(s[1..], forms[1..]);
      assert s == [c] + s[1..];
      WrittenRead(c, forms[0], rest);
    }
  }

  lemma WrittenRead(c: char, form: Form, rest: string)
    requires Fits(c, form) && ((form == Octets(1) || form == Octets(2)) && rest != [] ==> !Octal(rest[0]))
    ensures var s := Written(c, form) + rest;
      ReadOnce(s) == [c] + ReadOnce(rest)
      && (Misread(s) <==> (form == Named && c == '\\' && rest != [] && Octal(rest[0])) || Misread(rest))
  {
    hide ReadOnce, Misread, Octal, OctalDigits, HasName, NameOf;
    match form
    case Plain => PlainRead(c, rest);
    case Named => NamedRead(c, rest);
    case Octets(digits) => OctetRead(c as int, digits, rest);
  }

  /** Round trip: the decoder returns a text that was written in any mixture of forms if and only if no named backslash
      stands right before a plain octal digit. */
  lemma DecodesIffNoCollision(s: string, forms: seq<Form>)
    requires Unambiguous(s, forms)
    ensures Decode(Write(s, forms)) == s <==> !Collides(s, forms)
  {
    hide Decode, ReadOnce, Misread, Write, Collides;
    ReadOnceReturns(s, forms);
    ReadsRightIffNotMisread(Write(s, forms));
  }

  // ---------- Two writers ----------

  ghost function Forms(n: nat, form: Form): (r: seq<Form>)
    ensures |r| == n && forall i :: 0 <= i < n ==> r[i] == form
  {
    seq(n, i => form)
  }

  /** Everything in three octal digits: the decoder returns every text of characters below 512. */
  lemma OctalRoundTrip(s: string)
    requires forall i :: 0 <= i < |s| ==> s[i] as int < 512
    ensures AllFit(s, Forms(|s|, Octets(3))) && Decode(Write(s, Forms(|s|, Octets(3)))) == s
  {
    hide Decode, Write;
    DecodesIffNoCollision(s, Forms(|s|, Octets(3)));
  }

  /** Everything that has a name by its name, the rest as it is. */
  ghost function NamedForms(s: string): (r: seq<Form>)
    ensures |r| == |s| && forall i :: 0 <= i < |s| ==> r[i] == if HasName(s[i]) then Named else Plain
  {
    seq(|s|, i requires 0 <= i < |s| => if HasName(s[i]) then Named else Plain)
  }

  /** The decoder returns a text with its control characters, parentheses and backslashes escaped by name if and only
      if no backslash in it stands before an octal digit. */
  lemma NamedRoundTripIff(s: string)
    ensures AllFit(s, NamedForms(s))
    ensures Decode(Write(s, NamedForms(s))) == s
      <==> forall i :: 0 <= i < |s| - 1 && s[i] == '\\' ==> !OctalText(s[i + 1])
  {
    hide Decode, Write;
    assert forall c :: OctalText(c) ==> !HasName(c) by {
      forall c | OctalText(c) ensures !HasName(c) {
        OctalIsText(c);
      }
    }
    hide OctalText;
    DecodesIffNoCollision(s, NamedForms(s));
  }
}
