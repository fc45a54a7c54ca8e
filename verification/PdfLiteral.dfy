/** Decoding of PDF string literals (section 7.3.4.2 of ISO 32000-1). The decoder makes two replacement
    passes one after the other; this module says exactly when that differs from reading once. */
module PdfLiteral {

  predicate Special(c: char) {
    c == 'n' || c == 'r' || c == 't' || c == 'b' || c == 'f' || c == '(' || c == ')' || c == '\\'
  }

  function Escaped(c: char): char
    requires Special(c)
  {
    if c == 'n' then '\n' else if c == 'r' then '\r' else if c == 't' then '\t'
    else if c == 'b' then 8 as char else if c == 'f' then 12 as char else c
  }

  predicate Octal(c: char) {
    '0' <= c <= '7'
  }

  /** How many octal digits stand at the front, at most `max`. */
  function OctalRun(s: string, max: nat): (k: nat)
    ensures k <= max && k <= |s| && forall i :: 0 <= i < k ==> Octal(s[i])
  {
    if max == 0 || s == [] || !Octal(s[0]) then 0 else 1 + OctalRun(s[1..], max - 1)
  }

  /** `parseInt(o, 8)` */
  function OctalValue(digits: string): (v: nat)
    requires |digits| <= 3 && forall i :: 0 <= i < |digits| ==> Octal(digits[i])
    ensures v < 512
  {
    if |digits| == 0 then 0
    else if |digits| == 1 then Digit(digits[0])
    else if |digits| == 2 then 8 * Digit(digits[0]) + Digit(digits[1])
    else 64 * Digit(digits[0]) + 8 * Digit(digits[1]) + Digit(digits[2])
  }

  function Digit(c: char): (d: nat)
    requires Octal(c)
    ensures d < 8
  {
    c as nat - '0' as nat
  }

  /** The octal escape at the front of the text after a backslash. */
  function OctalChar(s: string): char {
    OctalValue(s[..OctalRun(s, 3)]) as char
  }

  /** First pass: backslash and one special character. */
  function CharPass(s: string): string
    decreases |s|
  {
    if s == [] then []
    else if s[0] == '\\' && |s| > 1 && Special(s[1]) then [Escaped(s[1])] + CharPass(s[2..])
    else [s[0]] + CharPass(s[1..])
  }

  /** Second pass: backslash and one to three octal digits. */
  function OctalPass(s: string): string
    decreases |s|
  {
    if s == [] then []
    else
      var k := if s[0] == '\\' then OctalRun(s[1..], 3) else 0;
      if k > 0 then [OctalChar(s[1..])] + OctalPass(s[1 + k..]) else [s[0]] + OctalPass(s[1..])
  }

  /** `decodePdfLiteral` */
  function Decode(s: string): string {
    OctalPass(CharPass(s))
  }

  /** The escaping a writer does: backslash and parentheses. */
  function EscapeLiteral(s: string): string {
    if s == [] then []
    else (if s[0] == '\\' || s[0] == '(' || s[0] == ')' then ['\\', s[0]] else [s[0]]) + EscapeLiteral(s[1..])
  }

  // ---------- Round trip ----------

  /** Some backslash is followed by an octal digit. */
  ghost predicate HasOctalEscape(s: string) {
    exists i :: 0 <= i < |s| - 1 && s[i] == '\\' && Octal(s[i + 1])
  }

  /** The first pass undoes escaping, for every text. */
  lemma {:induction false} CharPassUndoesEscape(s: string)
    ensures CharPass(EscapeLiteral(s)) == s
  {
    if s != [] {
      CharPassUndoesEscape(s[1..]);
      var e, rest := EscapeLiteral(s), EscapeLiteral(s[1..]);
      if s[0] == '\\' || s[0] == '(' || s[0] == ')' {
        assert e[0] == '\\' && e[1] == s[0] && e[2..] == rest;
      } else {
        assert e[0] == s[0] && e[1..] == rest;
      }
      assert s == [s[0]] + s[1..];
    }
  }

  lemma {:induction false} OctalPassShrinks(s: string)
    ensures |OctalPass(s)| <= |s|
    ensures HasOctalEscape(s) ==> |OctalPass(s)| < |s|
    ensures !HasOctalEscape(s) ==> OctalPass(s) == s
    decreases |s|
  {
    if s != [] {
      var k := if s[0] == '\\' then OctalRun(s[1..], 3) else 0;
      OctalPassShrinks(s[1 + k..]);
      assert k > 0 <==> |s| > 1 && s[0] == '\\' && Octal(s[1]);
      if k == 0 {
        OctalEscapeBehind(s);
        assert s == [s[0]] + s[1..];
      } else {
        assert s[0] == '\\' && Octal(s[0 + 1]);
      }
    }
  }

  lemma OctalEscapeBehind(s: string)
    requires s != [] && !(|s| > 1 && s[0] == '\\' && Octal(s[1]))
    ensures HasOctalEscape(s) <==> HasOctalEscape(s[1..])
  {
    if HasOctalEscape(s) {
      var i :| 0 <= i < |s| - 1 && s[i] == '\\' && Octal(s[i + 1]);
      assert s[1..][i - 1] == '\\' && Octal(s[1..][i - 1 + 1]);
    }
    if HasOctalEscape(s[1..]) {
      var i :| 0 <= i < |s[1..]| - 1 && s[1..][i] == '\\' && Octal(s[1..][i + 1]);
      assert s[i + 1] == '\\' && Octal(s[i + 1 + 1]);
    }
  }

  /** The round trip holds exactly for texts without a backslash before an octal digit. */
  lemma RoundTripIffNoOctalEscape(s: string)
    ensures Decode(EscapeLiteral(s)) == s <==> !HasOctalEscape(s)
  {
    CharPassUndoesEscape(s);
    OctalPassShrinks(s);
  }

  // ---------- Reading once ----------

  /** The decoder that reads each escape where it stands, in one pass. */
  ghost function ReadOnce(s: string): string
    decreases |s|
  {
    if s == [] then []
    else if s[0] == '\\' && |s| > 1 && Special(s[1]) then [Escaped(s[1])] + ReadOnce(s[2..])
    else
      var k := if s[0] == '\\' then OctalRun(s[1..], 3) else 0;
      if k > 0 then [OctalChar(s[1..])] + ReadOnce(s[1 + k..]) else [s[0]] + ReadOnce(s[1..])
  }

  /** Reading from the left, an escaped backslash is followed by an octal digit. */
  ghost predicate Misread(s: string)
    decreases |s|
  {
    if s == [] then false
    else if s[0] == '\\' && |s| > 1 && Special(s[1])
    then (s[1] == '\\' && |s| > 2 && Octal(s[2])) || Misread(s[2..])
    else
      var k := if s[0] == '\\' then OctalRun(s[1..], 3) else 0;
      Misread(s[1 + k..])
  }

  /** The first pass moves a plain character over, and never starts with an octal digit of its own making. */
  lemma CharPassFront(s: string)
    requires s != []
    ensures s[0] != '\\' ==> CharPass(s) == [s[0]] + CharPass(s[1..])
    ensures !Octal(s[0]) ==> CharPass(s) != [] && !Octal(CharPass(s)[0])
  {
    if s[0] == '\\' && |s| > 1 && Special(s[1]) {
      assert !Octal(Escaped(s[1]));
    }
  }

  lemma OctalRunStep(c: char, rest: string, max: nat)
    requires max > 0
    ensures OctalRun([c] + rest, max) == if Octal(c) then 1 + OctalRun(rest, max - 1) else 0
  {
    assert ([c] + rest)[1..] == rest;
  }

  lemma TakeDrop(s: string, k: nat)
    requires s != [] && k <= |s[1..]|
    ensures s[..k + 1] == [s[0]] + s[1..][..k] && s[k + 1..] == s[1..][k..]
    ensures forall rest: string :: s[..k + 1] + rest == [s[0]] + (s[1..][..k] + rest)
  {
  }

  /** Octal digits go through the first pass unchanged, and it makes no new ones behind them. */
  lemma {:induction false} CharPassKeepsOctal(s: string, max: nat)
    ensures var k := OctalRun(s, max);
      CharPass(s) == s[..k] + CharPass(s[k..]) && OctalRun(CharPass(s), max) == k
  {
    if max > 0 && s != [] && Octal(s[0]) {
      hide CharPass;
      CharPassKeepsOctal(s[1..], max - 1);
      CharPassFront(s);
      OctalRunStep(s[0], CharPass(s[1..]), max);
      TakeDrop(s, OctalRun(s[1..], max - 1));
    } else {
      assert s[..0] == [] && s[0..] == s;
      if s != [] {
        CharPassFront(s);
      }
    }
  }

  lemma OctalPassOfBackslash(u: string)
    ensures var k := OctalRun(u, 3);
      OctalPass(['\\'] + u) == if k > 0 then [OctalChar(u)] + OctalPass(u[k..]) else ['\\'] + OctalPass(u)
  {
    hide OctalChar, OctalValue;
    var s := ['\\'] + u;
    assert s[1..] == u && s[1 + OctalRun(u, 3)..] == u[OctalRun(u, 3)..];
  }

  /** A backslash that reaches the second pass takes the octal digits behind it. */
  lemma BackslashThenOctal(t: string)
    ensures var k := OctalRun(t, 3);
      OctalPass(['\\'] + CharPass(t))
      == if k > 0 then [OctalChar(t)] + Decode(t[k..]) else ['\\'] + Decode(t)
  {
    hide CharPass, OctalPass, OctalRun, OctalValue;
    CharPassKeepsOctal(t, 3);
    OctalPassOfBackslash(CharPass(t));
    var k := OctalRun(t, 3);
    assert CharPass(t)[..k] == t[..k] && CharPass(t)[k..] == CharPass(t[k..]);
  }

  lemma {:induction false} ReadOnceSkipsOctal(t: string, k: nat)
    requires k <= |t| && forall i :: 0 <= i < k ==> Octal(t[i])
    ensures ReadOnce(t) == t[..k] + ReadOnce(t[k..])
    ensures Misread(t[k..]) <==> Misread(t)
    decreases k
  {
    if k > 0 {
      ReadOnceSkipsOctal(t[1..], k - 1);
      assert t[k..] == t[1..][k - 1..] && t[..k] == [t[0]] + t[1..][..k - 1];
    } else {
      assert t[..0] == [] && t[0..] == t;
    }
  }

  lemma DecodeEscape(s: string)
    requires |s| > 1 && s[0] == '\\' && Special(s[1]) && s[1] != '\\'
    ensures Decode(s) == [Escaped(s[1])] + Decode(s[2..])
  {
    assert CharPass(s)[1..] == CharPass(s[2..]);
  }

  lemma DecodePlain(s: string)
    requires s == [] || s[0] != '\\'
    ensures Decode(s) == if s == [] then [] else [s[0]] + Decode(s[1..])
  {
    assert s != [] ==> CharPass(s)[1..] == CharPass(s[1..]);
  }

  /** Two passes over an escaped backslash: the digits behind it are taken for an octal escape. */
  lemma DecodeBackslash(s: string)
    requires |s| > 1 && s[0] == '\\' && s[1] == '\\'
    ensures var t := s[2..]; var k := OctalRun(t, 3);
      Decode(s) == if k > 0 then [OctalChar(t)] + Decode(t[k..]) else ['\\'] + Decode(t)
  {
    hide OctalPass, OctalRun, OctalValue;
    BackslashThenOctal(s[2..]);
  }

  lemma DecodeLoneBackslash(s: string)
    requires s != [] && s[0] == '\\' && !(|s| > 1 && Special(s[1]))
    ensures var t := s[1..]; var k := OctalRun(t, 3);
      Decode(s) == if k > 0 then [OctalChar(t)] + Decode(t[k..]) else ['\\'] + Decode(t)
  {
    hide OctalPass, OctalRun, OctalValue;
    BackslashThenOctal(s[1..]);
  }

  /** Two passes never give more characters than reading once; fewer exactly on a misread. */
  lemma {:induction false} TwoPassesAgainstOne(s: string)
    ensures |Decode(s)| <= |ReadOnce(s)|
    ensures Misread(s) ==> |Decode(s)| < |ReadOnce(s)|
    ensures !Misread(s) ==> Decode(s) == ReadOnce(s)
    decreases |s|
  {
    hide Decode, CharPass, OctalPass, OctalValue;
    if s == [] || s[0] != '\\' {
      DecodePlain(s);
      if s != [] { TwoPassesAgainstOne(s[1..]); }
    } else if |s| > 1 && s[1] == '\\' {
      var t := s[2..];
      DecodeBackslash(s);
      TwoPassesAgainstOne(t[OctalRun(t, 3)..]);
      ReadOnceSkipsOctal(t, OctalRun(t, 3));
      WholeTail(t, OctalRun(t, 3));
    } else if |s| > 1 && Special(s[1]) {
      TwoPassesAgainstOne(s[2..]);
      DecodeEscape(s);
    } else {
      var t := s[1..];
      DecodeLoneBackslash(s);
      TwoPassesAgainstOne(t[OctalRun(t, 3)..]);
      WholeTail(t, OctalRun(t, 3));
      assert s[1 + OctalRun(t, 3)..] == t[OctalRun(t, 3)..];
    }
  }

  lemma WholeTail(t: string, k: nat)
    requires k <= |t|
    ensures k == 0 ==> t[k..] == t
  {
  }

  /** The decoder reads a literal as it should exactly if no escaped backslash stands before an octal digit. */
  lemma ReadsRightIffNotMisread(s: string)
    ensures Decode(s) == ReadOnce(s) <==> !Misread(s)
  {
    TwoPassesAgainstOne(s);
  }

  /** Reading once would return every escaped text. */
  lemma {:induction false} ReadOnceRoundTrip(s: string)
    ensures ReadOnce(EscapeLiteral(s)) == s
  {
    if s != [] {
      ReadOnceRoundTrip(s[1..]);
      var e, rest := EscapeLiteral(s), EscapeLiteral(s[1..]);
      if s[0] == '\\' || s[0] == '(' || s[0] == ')' {
        assert e[0] == '\\' && e[1] == s[0] && e[2..] == rest;
      } else {
        assert e[0] == s[0] && e[1..] == rest;
      }
      assert s == [s[0]] + s[1..];
    }
  }
}
