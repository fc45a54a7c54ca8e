/** A number of equal amounts, summed up. */
module RealTimes {
  ghost function Times(n: nat, a: real): real {
    n as real * a
  }

  lemma EnoughTimes(limit: real, a: real) returns (n: nat)
    requires a > 0.0
    ensures Times(n, a) > limit
  {
    if limit < 0.0 {
      n := 0;
    } else {
      var q := limit / a;
      n := q.Floor + 1;
      assert n as real > q;
      assert n as real * a > q * a;
      assert q * a == limit;
    }
  }

  lemma OneMoreTime(n: nat, a: real)
    ensures Times(0, a) == 0.0 && Times(1, a) == a
    ensures n > 0 ==> Times(n, a) == Times(n - 1, a) + a
  {
    if n > 0 {
      assert n as real == (n - 1) as real + 1.0;
    }
  }

  lemma MoreTimes(n: nat, m: nat, a: real)
    requires n <= m
    ensures a >= 0.0 ==> Times(n, a) <= Times(m, a)
    ensures a <= 0.0 ==> Times(n, a) >= Times(m, a)
  {
  }

  lemma TimesNegated(n: nat, a: real)
    ensures Times(n, -a) == -Times(n, a)
  {
  }
}
