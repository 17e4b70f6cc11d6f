/** Decimal renderings of non-negative integers, as `n + ''` produces them
    in JavaScript for integers below 10^21, and the inverse reading. */
module Decimal {

  function Pow10(k: nat): (p: nat)
    ensures p >= 1
  {
    if k == 0 then 1 else 10 * Pow10(k - 1)
  }

  predicate IsDigit(c: char) {
    '0' <= c <= '9'
  }

  predicate AllDigits(s: string) {
    forall i :: 0 <= i < |s| ==> IsDigit(s[i])
  }

  function DigitValue(c: char): nat
    requires IsDigit(c)
  {
    c as int - '0' as int
  }

  function DigitChar(d: nat): (c: char)
    requires d < 10
    ensures IsDigit(c) && DigitValue(c) == d
  {
    ('0' as int + d) as char
  }

  /** The shortest decimal rendering of `n`: digits only, no leading zero. */
  function DecimalString(n: nat): (s: string)
    ensures |s| >= 1 && AllDigits(s)
    ensures |s| > 1 ==> s[0] != '0'
  {
    if n < 10 then [DigitChar(n)] else DecimalString(n / 10) + [DigitChar(n % 10)]
  }

  /** The value of a string of decimal digits, most significant first. */
  function ParseDecimal(s: string): (n: nat)
    requires AllDigits(s)
    ensures n < Pow10(|s|)
  {
    if s == [] then 0 else 10 * ParseDecimal(s[..|s| - 1]) + DigitValue(s[|s| - 1])
  }

  /** Reading back a rendering gives the number rendered. */
  lemma {:induction false} ParseDecimalRoundTrip(n: nat)
    ensures ParseDecimal(DecimalString(n)) == n
  {
    if n >= 10 {
      var s := DecimalString(n);
      assert s[..|s| - 1] == DecimalString(n / 10);
      ParseDecimalRoundTrip(n / 10);
    }
  }

  /** Two numbers with the same rendering are equal. */
  lemma DecimalStringInjective(m: nat, n: nat)
    ensures DecimalString(m) == DecimalString(n) ==> m == n
  {
    ParseDecimalRoundTrip(m);
    ParseDecimalRoundTrip(n);
  }

  /** A rendering has at most `k` digits exactly when the number is below 10^k. */
  lemma {:induction false} DecimalLength(n: nat, k: nat)
    requires k >= 1
    ensures |DecimalString(n)| <= k <==> n < Pow10(k)
  {
    if n >= 10 && k >= 2 {
      DecimalLength(n / 10, k - 1);
    }
  }

  lemma MulAtLeast(d: int, z: int)
    requires d > 0 && z >= 1
    ensures d * z >= d
  {
  }

  lemma DivModUnique(n: int, d: int, q: int, r: int)
    requires d > 0 && 0 <= r < d && n == d * q + r
    ensures n % d == r
  {
    var q', r' := n / d, n % d;
    assert d * (q - q') == r' - r;
    if q > q' {
      MulAtLeast(d, q - q');
    } else if q < q' {
      MulAtLeast(d, q' - q);
    }
  }

  lemma ModOfSmaller(n: int, d: int)
    requires 0 <= n < d
    ensures n % d == n
  {
    DivModUnique(n, d, 0, n);
  }

  /** Two numbers less than `d` apart leave different remainders modulo `d`. */
  lemma ModDistinct(a: int, b: int, d: int)
    requires a < b < a + d
    ensures a % d != b % d
  {
    var qa, qb := a / d, b / d;
    if a % d == b % d {
      assert b - a == d * qb - d * qa;
      assert d * qb - d * qa == d * (qb - qa);
      if qb - qa >= 1 {
        MulAtLeast(d, qb - qa);
      } else {
        MulAtLeast(d, qa - qb + 1);
      }
    }
  }

  lemma ModStep(n: nat, p: nat)
    requires p >= 1
    ensures 10 * ((n / 10) % p) + n % 10 == n % (10 * p)
  {
    var q := n / 10;
    assert q == p * (q / p) + q % p;
    assert n == (10 * p) * (q / p) + (10 * (q % p) + n % 10);
    DivModUnique(n, 10 * p, q / p, 10 * (q % p) + n % 10);
  }

  lemma ParseAppend(w: string, u: string, c: char)
    requires AllDigits(u) && IsDigit(c) && w == u + [c]
    ensures AllDigits(w) && ParseDecimal(w) == 10 * ParseDecimal(u) + DigitValue(c)
  {
    assert w[..|u|] == u;
  }

  /** Dropping the last digit of a rendering leaves the rendering of `n / 10`. */
  lemma SuffixSplit(n: nat, k: nat)
    requires n >= 10 && 1 <= k <= |DecimalString(n)|
    ensures var s, p := DecimalString(n), DecimalString(n / 10);
      s[|s| - k..] == p[|p| - (k - 1)..] + [DigitChar(n % 10)]
  {
  }

  /** The number formed by the last `k` decimal digits of `n`. */
  function LastDigits(n: nat, k: nat): nat
  {
    if k == 0 then 0 else 10 * LastDigits(n / 10, k - 1) + n % 10
  }

  /** The last `k` digits of `n` are `n` modulo 10^k. */
  lemma {:induction false} LastDigitsMod(n: nat, k: nat)
    ensures LastDigits(n, k) == n % Pow10(k)
  {
    if k > 0 {
      LastDigitsMod(n / 10, k - 1);
      ModStep(n, Pow10(k - 1));
    }
  }

  /** The last `k` characters of a rendering read back as the last `k` digits. */
  lemma {:induction false} SuffixDigits(n: nat, k: nat)
    requires k <= |DecimalString(n)|
    ensures ParseDecimal(DecimalString(n)[|DecimalString(n)| - k..]) == LastDigits(n, k)
  {
    var s := DecimalString(n);
    var t := s[|s| - k..];
    if k == 0 {
      assert t == [];
    } else if n >= 10 {
      var p := DecimalString(n / 10);
      var u := p[|p| - (k - 1)..];
      var c := DigitChar(n % 10);
      SuffixSplit(n, k);
      ParseAppend(t, u, c);
      SuffixDigits(n / 10, k - 1);
      assert ParseDecimal(t) == LastDigits(n, k);
      assert t == DecimalString(n)[|DecimalString(n)| - k..];
    } else {
      assert t == [DigitChar(n)];
    }
  }

  /** The last `k` characters of a rendering read back as `n` modulo 10^k. */
  lemma SuffixValue(n: nat, k: nat)
    requires k <= |DecimalString(n)|
    ensures ParseDecimal(DecimalString(n)[|DecimalString(n)| - k..]) == n % Pow10(k)
  {
    SuffixDigits(n, k);
    LastDigitsMod(n, k);
  }
}
