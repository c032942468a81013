/** Positional numerals without leading zeros, in base 10 (`strconv.Itoa`) and in base 36
    (the bucket log's large numbers), and their evaluation. */
module Numerals {

  /** A digit character: 0-9, then a-z. */
  function DigitChar(d: nat): char
    requires d < 36
  {
    if d < 10 then '0' + d as char else 'a' + (d - 10) as char
  }

  predicate IsDigit(c: char, base: nat) {
    ('0' <= c <= '9' && c as nat - '0' as nat < base) ||
    ('a' <= c <= 'z' && c as nat - 'a' as nat + 10 < base)
  }

  function DigitValue(c: char): (v: nat)
    requires IsDigit(c, 36)
  {
    if c <= '9' then c as nat - '0' as nat else c as nat - 'a' as nat + 10
  }

  predicate IsNumeral(s: string, base: nat) {
    forall i :: 0 <= i < |s| ==> IsDigit(s[i], base)
  }

  function Numeral(n: nat, base: nat): (s: string)
    requires 2 <= base <= 36
    ensures |s| >= 1 && IsNumeral(s, base)
    decreases n
  {
    if n < base then [DigitChar(n)]
    else Quotient(n, base); Numeral(n / base, base) + [DigitChar(n % base)]
  }

  lemma Monotone(x: int, y: int, z: nat)
    requires x <= y
    ensures x * z <= y * z
  {
  }

  lemma Quotient(n: nat, base: nat)
    requires 2 <= base <= n
    ensures n == (n / base) * base + n % base
    ensures 0 < n / base < n
  {
    var q := n / base;
    assert n == q * base + n % base;
    assert q != 0 by {
      assert 0 * base == 0;
    }
    Monotone(2, base, q);
    assert base * q == q * base;
  }

  /** Horner evaluation. */
  function Value(s: string, base: nat): nat
    requires base <= 36 && IsNumeral(s, base)
  {
    if s == [] then 0
    else Value(s[..|s| - 1], base) * base + DigitValue(s[|s| - 1])
  }

  lemma ValueEmpty(base: nat)
    requires base <= 36
    ensures Value("", base) == 0
  {
  }

  lemma ValueSnoc(s: string, c: char, base: nat)
    requires base <= 36 && IsNumeral(s, base) && IsDigit(c, base)
    ensures IsNumeral(s + [c], base)
    ensures Value(s + [c], base) == Value(s, base) * base + DigitValue(c)
  {
    assert (s + [c])[..|s|] == s;
  }

  lemma ValueOfDigit(c: char, base: nat)
    requires base <= 36 && IsDigit(c, base)
    ensures Value([c], base) == DigitValue(c)
  {
    hide Value;
    ValueEmpty(base);
    ValueSnoc("", c, base);
    assert "" + [c] == [c];
    assert 0 * base == 0;
  }

  lemma {:induction false} ValueOfNumeral(n: nat, base: nat)
    requires 2 <= base <= 36
    ensures Value(Numeral(n, base), base) == n
    decreases n
  {
    hide Value;
    if n < base {
      ValueOfDigit(DigitChar(n), base);
    } else {
      Quotient(n, base);
      ValueOfNumeral(n / base, base);
      ValueSnoc(Numeral(n / base, base), DigitChar(n % base), base);
    }
  }

  /** Distinct numbers print differently. */
  lemma NumeralInjective(m: nat, n: nat, base: nat)
    requires 2 <= base <= 36
    requires Numeral(m, base) == Numeral(n, base)
    ensures m == n
  {
    ValueOfNumeral(m, base);
    ValueOfNumeral(n, base);
  }

  function Power(base: nat, e: nat): nat {
    if e == 0 then 1 else Power(base, e - 1) * base
  }

  lemma PowerStep(base: nat, e: nat)
    ensures Power(base, 0) == 1 && Power(base, e + 1) == Power(base, e) * base
  {
  }

  lemma {:induction false} ValueBound(s: string, base: nat)
    requires 1 <= base <= 36 && IsNumeral(s, base)
    ensures Value(s, base) < Power(base, |s|)
  {
    hide Value, Power;
    ValueEmpty(base);
    PowerStep(base, 0);
    if s != [] {
      var front := s[..|s| - 1];
      assert s == front + [s[|s| - 1]];
      ValueBound(front, base);
      ValueSnoc(front, s[|s| - 1], base);
      PowerStep(base, |front|);
      BoundStep(Value(front, base), Power(base, |front|), base, DigitValue(s[|s| - 1]));
    }
  }

  lemma BoundStep(v: nat, p: nat, base: nat, d: nat)
    requires v < p && d < base
    ensures v * base + d < p * base
  {
    Monotone(v + 1, p, base);
    assert (v + 1) * base == v * base + base;
  }

  /** A number below `base^e` has at most `e` digits. */
  lemma {:induction false} NumeralLength(n: nat, base: nat, e: nat)
    requires 2 <= base <= 36 && 1 <= e && n < Power(base, e)
    ensures |Numeral(n, base)| <= e
    decreases e
  {
    hide Power;
    PowerStep(base, e - 1);
    if n >= base {
      Quotient(n, base);
      var q, p := n / base, Power(base, e - 1);
      if p <= q {
        Monotone(p, q, base);
        assert false;
      }
      assert e != 1;
      NumeralLength(q, base, e - 1);
    }
  }

  lemma {:induction false} PowerMonotone(base: nat, e: nat, f: nat)
    requires 1 <= base && e <= f
    ensures 1 <= Power(base, e) <= Power(base, f)
    decreases f
  {
    if e < f {
      PowerMonotone(base, e, f - 1);
    } else if e > 0 {
      PowerMonotone(base, e - 1, e - 1);
    }
  }

  lemma Power36()
    ensures Power(36, 12) == 4738381338321616896
  {
    assert Power(36, 3) == 46656;
    assert Power(36, 6) == 2176782336;
    assert Power(36, 9) == 101559956668416;
  }
}
