/** Decimal notation of natural numbers on integers only: powers of ten, floor(log10 n),
    the text Python's str() gives a non-negative int, and the value int() reads back from
    a string of decimal digits. */
module Decimal {

  function Pow10(e: nat): (p: nat)
    ensures p >= 1
  {
    if e == 0 then 1 else 10 * Pow10(e - 1)
  }

  lemma {:induction false} Pow10Monotone(a: nat, b: nat)
    requires a <= b
    ensures Pow10(a) <= Pow10(b)
  {
    if a < b {
      Pow10Monotone(a, b - 1);
    }
  }

  /** floor(log10(n)) for n >= 1: the exponent of the largest power of ten not above n. */
  function FloorLog10(n: nat): (e: nat)
    requires n >= 1
    ensures Pow10(e) <= n < Pow10(e + 1)
  {
    if n < 10 then 0 else 1 + FloorLog10(n / 10)
  }

  /** The bracketing by powers of ten determines the exponent: FloorLog10 is floor(log10). */
  lemma FloorLog10Unique(n: nat, e: nat)
    requires Pow10(e) <= n < Pow10(e + 1)
    ensures FloorLog10(n) == e
  {
    var f := FloorLog10(n);
    if f < e {
      Pow10Monotone(f + 1, e);
    } else if e < f {
      Pow10Monotone(e + 1, f);
    }
  }

  lemma FloorLog10Monotone(i: nat, n: nat)
    requires 1 <= i <= n
    ensures FloorLog10(i) <= FloorLog10(n)
  {
    if FloorLog10(n) < FloorLog10(i) {
      Pow10Monotone(FloorLog10(n) + 1, FloorLog10(i));
    }
  }

  predicate IsDigit(c: char) {
    '0' <= c <= '9'
  }

  predicate AllDigits(s: string) {
    forall k :: 0 <= k < |s| ==> IsDigit(s[k])
  }

  function DigitChar(d: nat): (c: char)
    requires d < 10
    ensures IsDigit(c) && (c == '0' <==> d == 0)
  {
    (48 + d) as char
  }

  function DigitValue(c: char): (d: nat)
    requires IsDigit(c)
    ensures d < 10 && DigitChar(d) == c
  {
    (c as int) - 48
  }

  /** A run of k '0' characters, Python's '0' * k. */
  function Zeros(k: nat): (s: string)
    ensures |s| == k && forall j :: 0 <= j < k ==> s[j] == '0'
  {
    seq(k, _ => '0')
  }

  /** Python's str(n) for n >= 0: shortest decimal form, no leading zero unless n == 0. */
  function DecimalString(n: nat): (s: string)
    ensures |s| >= 1 && AllDigits(s)
    ensures n >= 1 ==> |s| == FloorLog10(n) + 1 && s[0] != '0'
  {
    if n < 10 then [DigitChar(n)] else DecimalString(n / 10) + [DigitChar(n % 10)]
  }

  /** Python's int(s) on a string of decimal digits (leading zeros allowed). */
  function ParseDecimal(s: string): (v: nat)
    requires AllDigits(s)
  {
    if s == [] then 0 else 10 * ParseDecimal(s[..|s| - 1]) + DigitValue(s[|s| - 1])
  }

  lemma {:induction false} ParseDecimalString(n: nat)
    ensures ParseDecimal(DecimalString(n)) == n
  {
    if n >= 10 {
      var s := DecimalString(n);
      assert s[..|s| - 1] == DecimalString(n / 10);
      ParseDecimalString(n / 10);
    }
  }

  lemma {:induction false} ParseDecimalAppend(a: string, b: string)
    requires AllDigits(a) && AllDigits(b)
    ensures AllDigits(a + b)
    ensures ParseDecimal(a + b) == ParseDecimal(a) * Pow10(|b|) + ParseDecimal(b)
  {
    assert AllDigits(a + b) by {
      forall k | 0 <= k < |a + b| ensures IsDigit((a + b)[k]) {
        if k < |a| { assert (a + b)[k] == a[k]; } else { assert (a + b)[k] == b[k - |a|]; }
      }
    }
    if b == [] {
      assert a + b == a;
    } else {
      var b' := b[..|b| - 1];
      var d := DigitValue(b[|b| - 1]);
      assert (a + b)[..|a + b| - 1] == a + b';
      assert (a + b)[|a + b| - 1] == b[|b| - 1];
      ParseDecimalAppend(a, b');
      var w := ParseDecimal(a + b');
      assert ParseDecimal(a + b) == 10 * w + d;
      assert ParseDecimal(b) == 10 * ParseDecimal(b') + d;
      assert Pow10(|b|) == 10 * Pow10(|b'|);
      ShiftDigit(ParseDecimal(a), Pow10(|b'|), ParseDecimal(b'), d, w);
    }
  }

  lemma ShiftDigit(x: int, y: int, z: int, d: int, w: int)
    requires w == x * y + z
    ensures 10 * w + d == x * (10 * y) + (10 * z + d)
  {
  }

  lemma {:induction false} ParseDecimalZeros(k: nat)
    ensures AllDigits(Zeros(k)) && ParseDecimal(Zeros(k)) == 0
  {
    if k > 0 {
      assert Zeros(k)[..k - 1] == Zeros(k - 1);
      ParseDecimalZeros(k - 1);
    }
  }

  /** Leading zeros do not change the value int() reads. */
  lemma ParseDecimalLeadingZeros(k: nat, s: string)
    requires AllDigits(s)
    ensures AllDigits(Zeros(k) + s) && ParseDecimal(Zeros(k) + s) == ParseDecimal(s)
  {
    ParseDecimalZeros(k);
    ParseDecimalAppend(Zeros(k), s);
  }
}
