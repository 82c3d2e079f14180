/** Decimal numerals: what a run of ASCII digits denotes, and the one numeral without leading zeros for each number. */
module Digits {

  predicate IsDigit(c: char) {
    '0' <= c <= '9'
  }

  predicate AllDigits(s: string) {
    forall i :: 0 <= i < |s| ==> IsDigit(s[i])
  }

  /** `\d+` matches the whole of `s`. */
  predicate IsNumeral(s: string) {
    s != "" && AllDigits(s)
  }

  function DigitValue(c: char): (v: nat)
    ensures v < 10
  {
    if IsDigit(c) then c as int - '0' as int else 0
  }

  /** The number a digit string denotes: `BigInt(s)`. (Only ever asked of digits; other characters count as 0.) */
  function Value(s: string): nat {
    if s == "" then 0 else 10 * Value(s[..|s| - 1]) + DigitValue(s[|s| - 1])
  }

  function Pow10(n: nat): (p: nat)
    ensures p > 0
  {
    if n == 0 then 1 else 10 * Pow10(n - 1)
  }

  function Zeros(n: nat): (s: string)
    ensures |s| == n && forall i :: 0 <= i < n ==> s[i] == '0'
  {
    if n == 0 then "" else Zeros(n - 1) + "0"
  }

  /** `n.toString()` of a non-negative BigInt. */
  function Numeral(n: nat): (s: string)
    ensures s != ""
  {
    if n < 10 then [('0' as int + n) as char] else Numeral(n / 10) + [('0' as int + n % 10) as char]
  }

  /** `s.replace(/^0+(?=\d)/, '')`: leading zeros go while a digit follows them. */
  function StripZeros(s: string): string {
    if |s| > 1 && s[0] == '0' then StripZeros(s[1..]) else s
  }

  // ---- arithmetic ---------------------------------------------------------

  lemma {:induction false} MulLess(x: nat, y: nat, d: nat)
    requires x < y && d > 0
    ensures x * d + d <= y * d
  {
    if x + 1 < y {
      MulLess(x, y - 1, d);
    }
  }

  lemma MulCancel(x: nat, y: nat, d: nat)
    requires d > 0 && x * d == y * d
    ensures x == y
  {
    if x < y { MulLess(x, y, d); }
    if y < x { MulLess(y, x, d); }
  }

  // ---- values -------------------------------------------------------------

  lemma {:induction false} Pow10Sum(a: nat, b: nat)
    ensures Pow10(a + b) == Pow10(a) * Pow10(b)
  {
    if a > 0 {
      Pow10Sum(a - 1, b);
    }
  }

  lemma ShiftDigit(a: nat, p: nat, b: nat, digit: nat)
    ensures 10 * (a * p + b) + digit == a * (10 * p) + (10 * b + digit)
  {
  }

  lemma {:induction false} ValueConcat(a: string, b: string)
    ensures Value(a + b) == Value(a) * Pow10(|b|) + Value(b)
  {
    if b == "" {
      assert a + b == a;
    } else {
      var init, last := b[..|b| - 1], b[|b| - 1];
      assert (a + b)[..|a + b| - 1] == a + init;
      ValueConcat(a, init);
      assert (a + b)[|a + b| - 1] == last;
      ShiftDigit(Value(a), Pow10(|init|), Value(init), DigitValue(last));
    }
  }

  lemma {:induction false} ValueBound(s: string)
    ensures Value(s) < Pow10(|s|)
  {
    if s != "" {
      ValueBound(s[..|s| - 1]);
    }
  }

  /** A digit string denotes zero exactly when every digit is `0`. */
  lemma {:induction false} ValueZero(s: string)
    requires AllDigits(s)
    ensures Value(s) == 0 <==> forall i :: 0 <= i < |s| ==> s[i] == '0'
  {
    if s != "" {
      var init := s[..|s| - 1];
      ValueZero(init);
      assert forall i :: 0 <= i < |init| ==> init[i] == s[i];
    }
  }

  lemma ValuePadded(s: string, n: nat)
    ensures Value(s + Zeros(n)) == Value(s) * Pow10(n)
  {
    ValueConcat(s, Zeros(n));
    ValueZero(Zeros(n));
  }

  lemma ValueLedByZeros(n: nat, s: string)
    ensures Value(Zeros(n) + s) == Value(s)
  {
    ValueConcat(Zeros(n), s);
    ValueZero(Zeros(n));
  }

  lemma {:induction false} ValueStripped(s: string)
    ensures Value(StripZeros(s)) == Value(s)
  {
    if |s| > 1 && s[0] == '0' {
      assert s == Zeros(1) + s[1..];
      ValueLedByZeros(1, s[1..]);
      ValueStripped(s[1..]);
    }
  }

  lemma {:induction false} NumeralValue(n: nat)
    ensures IsNumeral(Numeral(n)) && Value(Numeral(n)) == n
  {
    if n >= 10 {
      NumeralValue(n / 10);
      var s := Numeral(n);
      assert s[..|s| - 1] == Numeral(n / 10);
    } else {
      assert Numeral(n)[..0] == "";
    }
  }

  /** Same length and same value: the same digits. */
  lemma {:induction false} SameDigits(a: string, b: string)
    requires AllDigits(a) && AllDigits(b) && |a| == |b| && Value(a) == Value(b)
    ensures a == b
  {
    if a != "" {
      SameDigits(a[..|a| - 1], b[..|b| - 1]);
      assert a == a[..|a| - 1] + [a[|a| - 1]];
      assert b == b[..|b| - 1] + [b[|b| - 1]];
    }
  }

  // ---- the numeral without leading zeros ----------------------------------

  /** No leading zero, except in the numeral `0` itself. */
  predicate Canonical(s: string) {
    IsNumeral(s) && (|s| == 1 || s[0] != '0')
  }

  lemma {:induction false} StripZerosCanonical(s: string)
    requires IsNumeral(s)
    ensures Canonical(StripZeros(s))
  {
    if |s| > 1 && s[0] == '0' {
      StripZerosCanonical(s[1..]);
    }
  }

  lemma {:induction false} NumeralOfCanonical(s: string)
    requires Canonical(s)
    ensures s == Numeral(Value(s))
    ensures |s| > 1 ==> Value(s) >= 10
  {
    var init := s[..|s| - 1];
    assert s == init + [s[|s| - 1]];
    if |s| == 1 {
      assert Value(init) == 0;
    } else {
      NumeralOfCanonical(init);
      if |init| == 1 {
        assert init[..0] == "";
        assert Value(init) == DigitValue(init[0]) > 0;
      }
    }
  }

  /** Stripping leading zeros gives THE numeral of the number denoted. */
  lemma StripZerosNumeral(s: string)
    requires IsNumeral(s)
    ensures StripZeros(s) == Numeral(Value(s))
  {
    StripZerosCanonical(s);
    ValueStripped(s);
    NumeralOfCanonical(StripZeros(s));
  }
}
