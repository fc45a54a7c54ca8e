/** Check digits: the Luhn test on card numbers (Annex B of ISO/IEC 7812-1) and the Korean business number. */
module CheckDigits {
  import opened Sequences

  type Digit = d: int | 0 <= d < 10

  predicate IsDigit(c: char) {
    '0' <= c <= '9'
  }

  function Value(c: char): (d: Digit)
    requires IsDigit(c)
  {
    c as int - '0' as int
  }

  /** `s.replace(/\D/g, '')`, read as digits. */
  function Digits(s: string): seq<Digit> {
    if s == [] then []
    else (if IsDigit(s[0]) then [Value(s[0])] else []) + Digits(s[1..])
  }

  lemma {:induction false} DigitsConcat(a: string, b: string)
    ensures Digits(a + b) == Digits(a) + Digits(b)
  {
    if a == [] {
      assert a + b == b;
    } else {
      hide IsDigit, Value;
      DigitsConcat(a[1..], b);
      assert (a + b)[1..] == a[1..] + b && (a + b)[0] == a[0];
      var first := if IsDigit(a[0]) then [Value(a[0])] else [];
      Assoc(first, Digits(a[1..]), Digits(b));
    }
  }

  lemma DigitsOfOne(c: char)
    requires IsDigit(c)
    ensures Digits([c]) == [Value(c)]
  {
    assert [c][1..] == [];
  }

  /** A text with two digits in it, told apart from what stands around them. */
  lemma DigitsAround(a: string, c: char, mid: string, c': char, b: string)
    requires IsDigit(c) && IsDigit(c') && Digits(mid) == []
    ensures Digits(a + [c] + mid + [c'] + b) == Digits(a) + [Value(c), Value(c')] + Digits(b)
  {
    DigitsConcat(a, [c]);
    DigitsConcat(a + [c], mid);
    DigitsConcat(a + [c] + mid, [c']);
    DigitsConcat(a + [c] + mid + [c'], b);
    DigitsOfOne(c);
    DigitsOfOne(c');
  }

  lemma DigitsAroundOne(a: string, c: char, b: string)
    requires IsDigit(c)
    ensures Digits(a + [c] + b) == Digits(a) + [Value(c)] + Digits(b)
  {
    DigitsConcat(a, [c]);
    DigitsConcat(a + [c], b);
    DigitsOfOne(c);
  }

  // ---------- Luhn ----------

  function LuhnValue(n: Digit, alt: bool): int {
    var n := n as int;
    if !alt then n else if 2 * n > 9 then 2 * n - 9 else 2 * n
  }

  /** The sum from the right; `alt` says whether the last digit is doubled. */
  function LuhnSum(d: seq<Digit>, alt: bool): int {
    if d == [] then 0
    else LuhnValue(d[|d| - 1], alt) + LuhnSum(d[..|d| - 1], !alt)
  }

  ghost predicate Luhn(d: seq<Digit>) {
    LuhnSum(d, false) % 10 == 0
  }

  ghost predicate CardNumber(s: string) {
    13 <= |Digits(s)| <= 19 && Luhn(Digits(s))
  }

  method ValidCard(s: string) returns (ok: bool)
    ensures ok <==> CardNumber(s)
  {
    var d := Digits(s);
    if |d| < 13 || |d| > 19 {
      return false;
    }
    var sum, alt := 0, false;
    var i := |d| - 1;
    assert d[..|d|] == d;
    while i >= 0
      invariant -1 <= i < |d|
      invariant sum + LuhnSum(d[..i + 1], alt) == LuhnSum(d, false)
    {
      assert d[..i + 1][..i] == d[..i];
      var n := d[i] as int;
      if alt {
        n := n * 2;
        if n > 9 {
          n := n - 9;
        }
      }
      sum := sum + n;
      alt := !alt;
      i := i - 1;
    }
    return sum % 10 == 0;
  }

  /** Is the digit `k` places from the right doubled? */
  predicate Doubled(k: nat, alt: bool) {
    alt != (k % 2 == 1)
  }

  lemma {:induction false} LuhnConcat(a: seq<Digit>, b: seq<Digit>, alt: bool)
    ensures LuhnSum(a + b, alt) == LuhnSum(a, Doubled(|b|, alt)) + LuhnSum(b, alt)
    decreases |b|
  {
    if b == [] {
      assert a + b == a;
    } else {
      var front := b[..|b| - 1];
      LuhnConcat(a, front, !alt);
      assert (a + b)[..|a + b| - 1] == a + front;
      assert Doubled(|b|, alt) == Doubled(|front|, !alt);
    }
  }

  lemma LuhnAround(a: seq<Digit>, mid: seq<Digit>, b: seq<Digit>)
    ensures LuhnSum(a + mid + b, false)
      == LuhnSum(a, Doubled(|mid|, Doubled(|b|, false))) + LuhnSum(mid, Doubled(|b|, false)) + LuhnSum(b, false)
  {
    LuhnConcat(a + mid, b, false);
    LuhnConcat(a, mid, Doubled(|b|, false));
  }

  lemma LuhnPair(x: Digit, y: Digit, alt: bool)
    ensures LuhnSum([x, y], alt) == LuhnValue(x, !alt) + LuhnValue(y, alt)
  {
    assert [x, y][..1] == [x];
    LuhnOne(x, !alt);
  }

  lemma LuhnOne(x: Digit, alt: bool)
    ensures LuhnSum([x], alt) == LuhnValue(x, alt)
  {
    assert [x][..0] == [];
  }

  /** Sums end alike exactly if the parts they do not share end alike. */
  lemma SameEnding(s: int, t: int, u: int, v: int)
    requires s - t == u - v
    ensures s % 10 == t % 10 <==> u % 10 == v % 10
  {
    EndsAlike(s, t);
    EndsAlike(u, v);
  }

  lemma EndsAlike(s: int, t: int)
    ensures s % 10 == t % 10 <==> (s - t) % 10 == 0
  {
    assert s == 10 * (s / 10) + s % 10 && t == 10 * (t / 10) + t % 10;
  }

  /** Doubling with the nine cast out permutes the digits. */
  lemma LuhnValuesDiffer(x: Digit, y: Digit, alt: bool)
    ensures LuhnValue(x, alt) % 10 == LuhnValue(y, alt) % 10 <==> x == y
  {
  }

  /** One wrong digit always shows, in a number of any length. */
  lemma LuhnOneDigit(a: seq<Digit>, x: Digit, y: Digit, b: seq<Digit>)
    ensures LuhnSum(a + [x] + b, false) % 10 == LuhnSum(a + [y] + b, false) % 10 <==> x == y
  {
    hide LuhnSum, LuhnValue, Doubled;
    LuhnAround(a, [x], b);
    LuhnAround(a, [y], b);
    var alt := Doubled(|b|, false);
    LuhnOne(x, alt);
    LuhnOne(y, alt);
    LuhnValuesDiffer(x, y, alt);
    SameEnding(LuhnSum(a + [x] + b, false), LuhnSum(a + [y] + b, false), LuhnValue(x, alt), LuhnValue(y, alt));
  }

  /** Two neighbours that changed places show, unless they are 0 and 9. */
  lemma LuhnNeighbours(a: seq<Digit>, x: Digit, y: Digit, b: seq<Digit>)
    ensures LuhnSum(a + [x, y] + b, false) % 10 == LuhnSum(a + [y, x] + b, false) % 10
      <==> x == y || {x, y} == {0, 9}
  {
    hide LuhnSum, LuhnValue, Doubled;
    LuhnAround(a, [x, y], b);
    LuhnAround(a, [y, x], b);
    var alt := Doubled(|b|, false);
    LuhnPair(x, y, alt);
    LuhnPair(y, x, alt);
    LuhnSwap(x, y, alt);
    NoughtAndNine(x, y);
    SameEnding(LuhnSum(a + [x, y] + b, false), LuhnSum(a + [y, x] + b, false),
      LuhnValue(x, !alt) + LuhnValue(y, alt), LuhnValue(y, !alt) + LuhnValue(x, alt));
  }

  /** What doubling adds to a digit, with the nine cast out. */
  ghost function Doubling(x: Digit): int {
    if x < 5 then x as int else x as int - 9
  }

  lemma LuhnSwap(x: Digit, y: Digit, alt: bool)
    ensures (LuhnValue(x, !alt) + LuhnValue(y, alt)) % 10 == (LuhnValue(y, !alt) + LuhnValue(x, alt)) % 10
      <==> x == y || (x == 0 && y == 9) || (x == 9 && y == 0)
  {
    DoublingIs(x, alt);
    DoublingIs(y, alt);
    EndsAlike(LuhnValue(x, !alt) + LuhnValue(y, alt), LuhnValue(y, !alt) + LuhnValue(x, alt));
    SmallMultiple(Doubling(x) - Doubling(y));
  }

  lemma DoublingIs(x: Digit, alt: bool)
    ensures LuhnValue(x, !alt) - LuhnValue(x, alt) == if alt then -Doubling(x) else Doubling(x)
  {
  }

  lemma SmallMultiple(n: int)
    requires -10 < n < 10
    ensures n % 10 == 0 <==> n == 0
    ensures (-n) % 10 == 0 <==> n == 0
  {
  }

  lemma NoughtAndNine(x: Digit, y: Digit)
    ensures {x, y} == {0, 9} <==> (x == 0 && y == 9) || (x == 9 && y == 0)
  {
    assert {x, y} == {0, 9} ==> x in {0, 9} && y in {0, 9} && 0 in {x, y} && 9 in {x, y};
  }

  lemma LuhnTwin(x: Digit, y: Digit, alt: bool)
    ensures (LuhnValue(x, !alt) + LuhnValue(x, alt)) % 10 == (LuhnValue(y, !alt) + LuhnValue(y, alt)) % 10
      <==> x == y || (2 <= x <= 7 && 2 <= y <= 7 && (x as int - y as int == 3 || y as int - x as int == 3))
  {
    TwinEnd(x, alt);
    TwinEnd(y, alt);
  }

  lemma TwinEnd(x: Digit, alt: bool)
    ensures (LuhnValue(x, !alt) + LuhnValue(x, alt)) % 10 == [0, 3, 6, 9, 2, 6, 9, 2, 5, 8][x]
  {
  }

  /** A doubled digit typed as another doubled digit shows, unless it is 22 for 55, 33 for 66 or 44 for 77. */
  lemma LuhnTwins(a: seq<Digit>, x: Digit, y: Digit, b: seq<Digit>)
    ensures LuhnSum(a + [x, x] + b, false) % 10 == LuhnSum(a + [y, y] + b, false) % 10
      <==> x == y || (2 <= x <= 7 && 2 <= y <= 7 && (x as int - y as int == 3 || y as int - x as int == 3))
  {
    hide LuhnSum, LuhnValue, Doubled;
    LuhnAround(a, [x, x], b);
    LuhnAround(a, [y, y], b);
    var alt := Doubled(|b|, false);
    LuhnPair(x, x, alt);
    LuhnPair(y, y, alt);
    LuhnTwin(x, y, alt);
    SameEnding(LuhnSum(a + [x, x] + b, false), LuhnSum(a + [y, y] + b, false),
      LuhnValue(x, !alt) + LuhnValue(x, alt), LuhnValue(y, !alt) + LuhnValue(y, alt));
  }

  /** Digits two places apart can change places unnoticed. */
  lemma LuhnTwoApart(a: seq<Digit>, x: Digit, z: Digit, y: Digit, b: seq<Digit>)
    ensures LuhnSum(a + [x, z, y] + b, false) == LuhnSum(a + [y, z, x] + b, false)
  {
    LuhnAround(a, [x, z, y], b);
    LuhnAround(a, [y, z, x], b);
    var alt := Doubled(|b|, false);
    assert [x, z, y][..2] == [x, z] && [y, z, x][..2] == [y, z];
    LuhnPair(x, z, !alt);
    LuhnPair(y, z, !alt);
  }

  function LuhnCheckDigit(d: seq<Digit>): Digit {
    (10 - LuhnSum(d, true) % 10) % 10
  }

  /** Every number has exactly one check digit. */
  lemma LuhnCheckDigitIsUnique(d: seq<Digit>, c: Digit)
    ensures Luhn(d + [c]) <==> c == LuhnCheckDigit(d)
  {
    assert (d + [c])[..|d|] == d;
    assert LuhnSum(d + [c], false) == c as int + LuhnSum(d, true);
    TenComplement(LuhnSum(d, true), c);
  }

  /** On the text of a card number: a changed digit is always refused. */
  lemma CardDigitChangeRefused(a: string, c: char, c': char, b: string)
    requires IsDigit(c) && IsDigit(c') && CardNumber(a + [c] + b)
    ensures CardNumber(a + [c'] + b) <==> c' == c
  {
    hide LuhnSum;
    DigitsAroundOne(a, c, b);
    DigitsAroundOne(a, c', b);
    LuhnOneDigit(Digits(a), Value(c), Value(c'), Digits(b));
  }

  /** Swapped neighbours, spaces and hyphens between them or not: accepted exactly for 0 and 9. */
  lemma CardSwapRefused(a: string, c: char, mid: string, c': char, b: string)
    requires IsDigit(c) && IsDigit(c') && Digits(mid) == [] && CardNumber(a + [c] + mid + [c'] + b)
    ensures CardNumber(a + [c'] + mid + [c] + b) <==> c == c' || {c, c'} == {'0', '9'}
  {
    hide LuhnSum;
    DigitsAround(a, c, mid, c', b);
    DigitsAround(a, c', mid, c, b);
    LuhnNeighbours(Digits(a), Value(c), Value(c'), Digits(b));
    DigitPair(c, c');
  }

  lemma DigitPair(c: char, c': char)
    requires IsDigit(c) && IsDigit(c')
    ensures {c, c'} == {'0', '9'} <==> {Value(c), Value(c')} == {0, 9}
  {
    NoughtAndNine(Value(c), Value(c'));
    assert {c, c'} == {'0', '9'} ==> c in {'0', '9'} && c' in {'0', '9'} && '0' in {c, c'} && '9' in {c, c'};
    assert Value(c) == 0 <==> c == '0';
    assert Value(c) == 9 <==> c == '9';
    assert Value(c') == 0 <==> c' == '0';
    assert Value(c') == 9 <==> c' == '9';
  }

  // ---------- Business registration numbers ----------

  const WEIGHTS: seq<int> := [1, 3, 7, 1, 3, 7, 1, 3, 5]

  function WeightedSum(d: seq<Digit>, n: nat): int
    requires n <= 9 && n <= |d|
  {
    if n == 0 then 0 else WeightedSum(d, n - 1) + d[n - 1] as int * WEIGHTS[n - 1]
  }

  /** What one of the ten digits adds to the total that has to end in zero. */
  function Share(i: nat, x: Digit): int
    requires i < 10
  {
    var x := x as int;
    if i < 8 then x * WEIGHTS[i] else if i == 8 then 5 * x + x / 2 else x
  }

  ghost function Total(d: seq<Digit>, n: nat): int
    requires n <= 10 && n <= |d|
  {
    if n == 0 then 0 else Total(d, n - 1) + Share(n - 1, d[n - 1])
  }

  ghost predicate BusinessNumber(d: seq<Digit>) {
    |d| == 10 && Total(d, 10) % 10 == 0
  }

  lemma {:induction false} SumIsTotal(d: seq<Digit>, n: nat)
    requires n <= 8 && n <= |d|
    ensures WeightedSum(d, n) == Total(d, n)
  {
    if n > 0 { SumIsTotal(d, n - 1); }
  }

  /** The carry of the ninth digit is half of it. */
  lemma SumWithCarry(d: seq<Digit>)
    requires |d| == 10
    ensures WeightedSum(d, 9) + d[8] as int * 5 / 10 == Total(d, 9)
  {
    SumIsTotal(d, 8);
    assert WeightedSum(d, 9) == WeightedSum(d, 8) + d[8] as int * 5;
  }

  lemma TenComplement(sum: int, c: Digit)
    ensures (10 - sum % 10) % 10 == c as int <==> (sum + c as int) % 10 == 0
  {
  }

  method BusinessChecksum(v: string) returns (formatValid: bool, checksumValid: bool)
    ensures formatValid <==> |Digits(v)| == 10
    ensures checksumValid <==> BusinessNumber(Digits(v))
  {
    var d := Digits(v);
    if |d| != 10 {
      return false, false;
    }
    var w := [1, 3, 7, 1, 3, 7, 1, 3, 5];
    var sum := 0;
    for i := 0 to 9
      invariant sum == WeightedSum(d, i)
    {
      sum := sum + d[i] as int * w[i];
    }
    sum := sum + d[8] as int * 5 / 10;
    SumWithCarry(d);
    TenComplement(sum, d[9]);
    return true, (10 - sum % 10) % 10 == d[9] as int;
  }

  lemma {:induction false} TotalChange(d: seq<Digit>, i: nat, x: Digit, n: nat)
    requires i < n <= 10 && n <= |d|
    ensures Total(d[i := x], n) == Total(d, n) - Share(i, d[i]) + Share(i, x)
  {
    if i < n - 1 {
      TotalChange(d, i, x, n - 1);
    } else {
      TotalBefore(d, i, x, n - 1);
    }
  }

  lemma {:induction false} TotalBefore(d: seq<Digit>, i: nat, x: Digit, n: nat)
    requires n <= i < |d| && n <= 10
    ensures Total(d[i := x], n) == Total(d, n)
  {
    if n > 0 { TotalBefore(d, i, x, n - 1); }
  }

  /** At every place the shares of the ten digits end differently; at the ninth it is 5d + d/2 that permutes them. */
  lemma SharesDiffer(i: nat, x: Digit, y: Digit)
    requires i < 10
    ensures Share(i, x) % 10 == Share(i, y) % 10 <==> x == y
  {
    if i < 8 {
      var w := WEIGHTS[i];
      assert w == 1 || w == 3 || w == 7;
      if w == 3 {
        TimesThreeEnd(x as int);
        TimesThreeEnd(y as int);
      } else if w == 7 {
        TimesSevenEnd(x as int);
        TimesSevenEnd(y as int);
      }
    } else if i == 8 {
      NinthShare(x as int, y as int);
    }
  }

  lemma TimesThreeEnd(x: int)
    requires 0 <= x < 10
    ensures (x * 3) % 10 == [0, 3, 6, 9, 2, 5, 8, 1, 4, 7][x]
  {
  }

  lemma TimesSevenEnd(x: int)
    requires 0 <= x < 10
    ensures (x * 7) % 10 == [0, 7, 4, 1, 8, 5, 2, 9, 6, 3][x]
  {
  }

  lemma NinthShare(x: int, y: int)
    requires 0 <= x < 10 && 0 <= y < 10
    ensures (5 * x + x / 2) % 10 == (5 * y + y / 2) % 10 <==> x == y
  {
    NinthShareEnd(x);
    NinthShareEnd(y);
  }

  lemma NinthShareEnd(x: int)
    requires 0 <= x < 10
    ensures (5 * x + x / 2) % 10 == 5 * (x % 2) + x / 2
  {
    var a, r := x / 2, x % 2;
    assert 5 * x + a == 10 * a + (5 * r + a);
  }

  /** One wrong digit always shows, wherever it is. */
  lemma BusinessOneDigit(d: seq<Digit>, i: nat, x: Digit)
    requires BusinessNumber(d) && i < 10
    ensures BusinessNumber(d[i := x]) <==> x == d[i]
  {
    hide Total, Share;
    TotalChange(d, i, x, 10);
    SharesDiffer(i, x, d[i]);
    SameEnding(Total(d[i := x], 10), Total(d, 10), Share(i, x), Share(i, d[i]));
  }

  /** The neighbours at `i` that can change places unnoticed. */
  predicate Confusable(i: nat, x: Digit, y: Digit)
    requires i < 9
  {
    if i < 7 then x % 5 == y % 5
    else if i == 7 then x % 4 == y % 4
    else x == y || {x, y} == {0, 9}
  }

  lemma SwapShares(i: nat, x: Digit, y: Digit)
    requires i < 9
    ensures (Share(i, x) + Share(i + 1, y)) % 10 == (Share(i, y) + Share(i + 1, x)) % 10 <==> Confusable(i, x, y)
  {
    NoughtAndNine(x, y);
    var p, q := x as int, y as int;
    EndsAlike(Share(i, x) + Share(i + 1, y), Share(i, y) + Share(i + 1, x));
    if i < 7 {
      var v, w := WEIGHTS[i], WEIGHTS[i + 1];
      assert (v == 1 && w == 3) || (v == 3 && w == 7) || (v == 7 && w == 1);
      assert Share(i, x) + Share(i + 1, y) - (Share(i, y) + Share(i + 1, x)) == p * v + q * w - (q * v + p * w);
      EvenMultiples(v, w, p, q);
    } else if i == 7 {
      SwapAtNinth(p, q);
    } else {
      SwapAtTenth(p, q);
    }
  }

  lemma EvenMultiples(v: int, w: int, x: int, y: int)
    requires 0 <= x < 10 && 0 <= y < 10
    requires (v == 1 && w == 3) || (v == 3 && w == 7) || (v == 7 && w == 1)
    ensures (x * v + y * w - (y * v + x * w)) % 10 == 0 <==> x % 5 == y % 5
  {
    SameFifth(x, y);
    TenthsOfEven(y - x);
    TenthsOfEven(x - y);
    if v == 1 {
      assert x * v + y * w - (y * v + x * w) == 2 * (y - x);
    } else if v == 3 {
      assert x * v + y * w - (y * v + x * w) == 4 * (y - x);
    } else {
      assert x * v + y * w - (y * v + x * w) == 6 * (x - y);
    }
  }

  lemma SameFifth(x: int, y: int)
    ensures x % 5 == y % 5 <==> (x - y) % 5 == 0
    ensures x % 5 == y % 5 <==> (y - x) % 5 == 0
  {
    var p, q := x / 5, y / 5;
    assert x - y == 5 * (p - q) + (x % 5 - y % 5) && y - x == 5 * (q - p) + (y % 5 - x % 5);
  }

  /** An even multiple ends in zero exactly if the factor is one of five. */
  lemma TenthsOfEven(m: int)
    ensures (2 * m) % 10 == 0 <==> m % 5 == 0
    ensures (4 * m) % 10 == 0 <==> m % 5 == 0
    ensures (6 * m) % 10 == 0 <==> m % 5 == 0
  {
    var q, r := m / 5, m % 5;
    assert m == 5 * q + r;
    assert 2 * m == 10 * q + 2 * r && 4 * m == 10 * (2 * q) + 4 * r && 6 * m == 10 * (3 * q) + 6 * r;
  }

  lemma SwapAtNinth(x: int, y: int)
    requires 0 <= x < 10 && 0 <= y < 10
    ensures (3 * x + (5 * y + y / 2) - (3 * y + (5 * x + x / 2))) % 10 == 0 <==> x % 4 == y % 4
  {
    NinthSwapEnd(x);
    NinthSwapEnd(y);
    EndsAlike(2 * y + y / 2, 2 * x + x / 2);
  }

  lemma NinthSwapEnd(x: int)
    requires 0 <= x < 10
    ensures (2 * x + x / 2) % 10 == 5 * (x / 2 % 2) + 2 * (x % 2)
    ensures x % 4 == 2 * (x / 2 % 2) + x % 2
  {
    var a, r := x / 2, x % 2;
    assert 2 * x + a == 10 * (a / 2) + (5 * (a % 2) + 2 * r);
  }

  lemma SwapAtTenth(x: int, y: int)
    requires 0 <= x < 10 && 0 <= y < 10
    ensures ((5 * x + x / 2) + y - ((5 * y + y / 2) + x)) % 10 == 0
      <==> x == y || (x == 0 && y == 9) || (x == 9 && y == 0)
  {
  }

  /** Swapped neighbours show, with exactly these exceptions. */
  lemma BusinessNeighbours(d: seq<Digit>, i: nat)
    requires BusinessNumber(d) && i < 9
    ensures BusinessNumber(d[i := d[i + 1]][i + 1 := d[i]]) <==> Confusable(i, d[i], d[i + 1])
  {
    hide Total, Share, Confusable;
    var e := d[i := d[i + 1]];
    TotalChange(d, i, d[i + 1], 10);
    TotalChange(e, i + 1, d[i], 10);
    SwapShares(i, d[i], d[i + 1]);
    SameEnding(Total(e[i + 1 := d[i]], 10), Total(d, 10),
      Share(i, d[i + 1]) + Share(i + 1, d[i]), Share(i, d[i]) + Share(i + 1, d[i + 1]));
  }

  function BusinessCheckDigit(d: seq<Digit>): Digit
    requires |d| == 9
  {
    (10 - (WeightedSum(d, 9) + d[8] as int * 5 / 10) % 10) % 10
  }

  /** Every nine digits have exactly one check digit. */
  lemma BusinessCheckDigitIsUnique(d: seq<Digit>, c: Digit)
    requires |d| == 9
    ensures BusinessNumber(d + [c]) <==> c == BusinessCheckDigit(d)
  {
    SumWithCarry(d + [c]);
    SumOfPrefix(d, [c], 9);
    TenComplement(WeightedSum(d, 9) + d[8] as int * 5 / 10, c);
  }

  lemma {:induction false} SumOfPrefix(d: seq<Digit>, rest: seq<Digit>, n: nat)
    requires n <= |d| && n <= 9
    ensures WeightedSum(d + rest, n) == WeightedSum(d, n)
  {
    if n > 0 { SumOfPrefix(d, rest, n - 1); }
  }
}
