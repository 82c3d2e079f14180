/**
 * payment-money.ts: decimal text and a provider's smallest unit, exactly.
 *
 * A decimal text denotes a rational number, written here as a fraction of natural numbers; every
 * conversion and comparison of the file is proved against that rational, for texts of any length.
 */
module PaymentMoney {
  import opened Wrappers
  import opened Digits

  // ---- decimal text -------------------------------------------------------

  datatype Decimal = Decimal(whole: string, fraction: string)

  /** How many leading characters of `s` are digits: what a greedy `\d+` takes. */
  function DigitRun(s: string): (n: nat)
    ensures n <= |s|
  {
    if s == "" || !IsDigit(s[0]) then 0 else 1 + DigitRun(s[1..])
  }

  /** `/^(\d+)(?:\.(\d+))?$/.exec(text)`, its two groups. */
  function Parse(text: string): Option<Decimal> {
    var n := DigitRun(text);
    if n == 0 then None
    else if n == |text| then Some(Decimal(text[..n], ""))
    else if text[n] == '.' && IsNumeral(text[n + 1..]) then Some(Decimal(text[..n], text[n + 1..]))
    else None
  }

  /** The text a decimal is written as; no point when there is no fraction. */
  function Print(d: Decimal): string {
    if d.fraction == "" then d.whole else d.whole + "." + d.fraction
  }

  lemma {:induction false} DigitRunStops(w: string, rest: string)
    requires AllDigits(w) && (rest == "" || !IsDigit(rest[0]))
    ensures DigitRun(w + rest) == |w|
  {
    if w == "" {
      assert w + rest == rest;
    } else {
      assert (w + rest)[1..] == w[1..] + rest;
      DigitRunStops(w[1..], rest);
    }
  }

  lemma {:induction false} DigitRunDigits(s: string)
    ensures var n := DigitRun(s); AllDigits(s[..n])
  {
    if s != "" && IsDigit(s[0]) {
      DigitRunDigits(s[1..]);
      assert s[..DigitRun(s)] == [s[0]] + s[1..][..DigitRun(s[1..])];
    }
  }

  /** The pattern has exactly one reading of a text: `Parse` finds it when there is one, and only then. */
  lemma ParseIsGrammar(text: string, d: Decimal)
    ensures Parse(text) == Some(d) <==> IsNumeral(d.whole) && AllDigits(d.fraction) && text == Print(d)
  {
    if Parse(text) == Some(d) {
      DigitRunDigits(text);
      assert text == text[..DigitRun(text)] + text[DigitRun(text)..];
    }
    if IsNumeral(d.whole) && AllDigits(d.fraction) && text == Print(d) {
      var rest := if d.fraction == "" then "" else "." + d.fraction;
      assert text == d.whole + rest;
      DigitRunStops(d.whole, rest);
      if d.fraction != "" {
        assert text[|d.whole|] == '.';
        assert text[|d.whole| + 1..] == d.fraction;
      }
      assert text[..|d.whole|] == d.whole;
    }
  }

  lemma ParseDigits(text: string)
    ensures Parse(text).Some? ==> IsNumeral(Parse(text).value.whole) && AllDigits(Parse(text).value.fraction)
  {
    if Parse(text).Some? {
      ParseIsGrammar(text, Parse(text).value);
    }
  }

  // ---- the rational a text denotes ----------------------------------------

  /** num / den. */
  datatype Rational = Rational(num: nat, den: nat) {
    ghost predicate Valid() { den > 0 }
  }

  ghost function NumberOf(d: Decimal): (q: Rational)
    ensures q.Valid()
  {
    Rational(Value(d.whole + d.fraction), Pow10(|d.fraction|))
  }

  ghost predicate Equal(p: Rational, q: Rational) { p.num * q.den == q.num * p.den }

  ghost predicate Less(p: Rational, q: Rational) { p.num * q.den < q.num * p.den }

  /** `units` smallest units at `exponent` places are exactly the number `q`. */
  ghost predicate InUnits(q: Rational, exponent: nat, units: nat) {
    units * q.den == q.num * Pow10(exponent)
  }

  // ---- the conversions ----------------------------------------------------

  predicate HasNonZero(s: string) {
    exists i :: 0 <= i < |s| && '1' <= s[i] <= '9'
  }

  function Min(a: nat, b: nat): nat {
    if a <= b then a else b
  }

  function PadEnd(s: string, length: nat): string {
    if |s| >= length then s else s + Zeros(length - |s|)
  }

  function PadStart(s: string, length: nat): string {
    if |s| >= length then s else Zeros(length - |s|) + s
  }

  /** "120.50" at exponent 2 is "12050"; "45.2505" at 3 is refused. */
  function DecimalToMinor(amount: string, exponent: int): Option<string> {
    if exponent < 0 || exponent > 6 then None
    else
      match Parse(amount)
      case None => None
      case Some(Decimal(whole, fraction)) =>
        var cut := Min(exponent, |fraction|);
        var kept, rest := fraction[..cut], fraction[cut..];
        if HasNonZero(rest) then None
        else Some(StripZeros(whole + PadEnd(kept, exponent)))
  }

  /** "12050" at exponent 2 is "120.50". */
  function MinorToDecimal(minor: string, exponent: int): Option<string> {
    if exponent < 0 || exponent > 6 || !IsNumeral(minor) then None
    else
      var digits := StripZeros(minor);
      if exponent == 0 then Some(digits)
      else
        var padded := PadStart(digits, exponent + 1);
        Some(padded[..|padded| - exponent] + "." + padded[|padded| - exponent..])
  }

  /** `fraction.replace(/0+$/, '')`. */
  function StripTrailing(s: string): (r: string)
    ensures |r| <= |s| && (r != "" ==> r[|r| - 1] != '0')
  {
    if s != "" && s[|s| - 1] == '0' then StripTrailing(s[..|s| - 1]) else s
  }

  function Normal(text: string): Option<string> {
    match Parse(text)
    case None => None
    case Some(Decimal(whole, fraction)) => Some(Print(Decimal(StripZeros(whole), StripTrailing(fraction))))
  }

  /** "120" and "120.00" are the same amount. */
  predicate SameAmount(a: string, b: string) {
    var left := Normal(a);
    left.Some? && left == Normal(b)
  }

  /** `BigInt(decimalToMinor(amount, exponent))`, where it is not null. */
  function Units(amount: string, exponent: int): Option<nat> {
    match DecimalToMinor(amount, exponent)
    case None => None
    case Some(minor) => Some(Value(minor))
  }

  /** -1, 0 or 1; nothing when either text cannot be held at six places. */
  function CompareAmounts(a: string, b: string): Option<int> {
    match (Units(a, 6), Units(b, 6))
    case (Some(x), Some(y)) => Some(if x < y then -1 else if x > y then 1 else 0)
    case _ => None
  }

  function AddAmounts(a: string, b: string, exponent: int): Option<string> {
    match (Units(a, exponent), Units(b, exponent))
    case (Some(x), Some(y)) => MinorToDecimal(Numeral(x + y), exponent)
    case _ => None
  }

  function SubtractAmounts(a: string, b: string, exponent: int): Option<string> {
    match (Units(a, exponent), Units(b, exponent))
    case (Some(x), Some(y)) => if x < y then None else MinorToDecimal(Numeral(x - y), exponent)
    case _ => None
  }

  const ZERO_DECIMAL := {
    "BIF", "CLP", "DJF", "GNF", "ISK", "JPY", "KMF", "KRW", "PYG", "RWF", "UGX", "UYI", "VND", "VUV", "XAF", "XOF", "XPF"
  }
  const THREE_DECIMAL := {"BHD", "IQD", "JOD", "KWD", "LYD", "OMR", "TND"}

  /** ISO 4217's minor units. */
  function IsoExponent(currency: string): (e: Option<nat>)
    ensures e.Some? ==> e.value <= 3
  {
    if |currency| != 3 || exists i :: 0 <= i < 3 && !('A' <= currency[i] <= 'Z') then None
    else if currency in ZERO_DECIMAL then Some(0)
    else if currency in THREE_DECIMAL then Some(3)
    else Some(2)
  }

  // ---- decimalToMinor is exact --------------------------------------------

  lemma NonZeroDigits(s: string)
    requires AllDigits(s)
    ensures HasNonZero(s) <==> Value(s) != 0
  {
    ValueZero(s);
    if Value(s) != 0 {
      var i :| 0 <= i < |s| && s[i] != '0';
      assert IsDigit(s[i]);
    }
  }

  lemma Scale(a: nat, p: nat, k: nat, q: nat)
    requires p == k * q
    ensures a * p == (a * k) * q
  {
  }

  /** With at most `exponent` decimals, padding makes the exact count of units. */
  lemma PaddedUnits(d: Decimal, exponent: nat)
    requires IsNumeral(d.whole) && AllDigits(d.fraction) && |d.fraction| <= exponent
    ensures var digits := d.whole + PadEnd(d.fraction, exponent);
            IsNumeral(digits) && InUnits(NumberOf(d), exponent, Value(digits))
  {
    var k := exponent - |d.fraction|;
    var all := d.whole + d.fraction;
    assert d.whole + PadEnd(d.fraction, exponent) == all + Zeros(k);
    ValuePadded(all, k);
    Pow10Sum(k, |d.fraction|);
    Scale(Value(all), Pow10(exponent), Pow10(k), Pow10(|d.fraction|));
  }

  lemma CutArithmetic(u: nat, v: nat, rest: nat, e: nat, p: nat)
    requires p > rest && e > 0
    ensures u * (e * p) == (v * p + rest) * e <==> rest == 0 && u == v
  {
    assert u * (e * p) == (u * p) * e;
    if u * (e * p) == (v * p + rest) * e {
      MulCancel(u * p, v * p + rest, e);
      if u < v { MulLess(u, v, p); }
      if u > v { MulLess(v, u, p); }
    }
  }

  lemma CutRational(q: Rational, exponent: nat, units: nat, v: nat, rest: nat, p: nat)
    requires p > rest && q.num == v * p + rest && q.den == Pow10(exponent) * p
    ensures InUnits(q, exponent, units) <==> rest == 0 && units == v
  {
    CutArithmetic(units, v, rest, Pow10(exponent), p);
  }

  /** With more decimals, the number is whole in units exactly when the cut digits are zeros. */
  lemma CutUnits(d: Decimal, exponent: nat, units: nat)
    requires IsNumeral(d.whole) && AllDigits(d.fraction) && |d.fraction| > exponent
    ensures var kept, rest := d.whole + d.fraction[..exponent], d.fraction[exponent..];
            IsNumeral(kept) && AllDigits(rest) &&
            (InUnits(NumberOf(d), exponent, units) <==> Value(rest) == 0 && units == Value(kept))
  {
    var kept, rest := d.whole + d.fraction[..exponent], d.fraction[exponent..];
    assert d.whole + d.fraction == kept + rest;
    ValueConcat(kept, rest);
    ValueBound(rest);
    Pow10Sum(exponent, |rest|);
    CutRational(NumberOf(d), exponent, units, Value(kept), Value(rest), Pow10(|rest|));
  }

  lemma UnitsUnique(q: Rational, exponent: nat, x: nat, y: nat)
    requires q.Valid() && InUnits(q, exponent, x) && InUnits(q, exponent, y)
    ensures x == y
  {
    MulCancel(x, y, q.den);
  }

  /**
   * Non-null exactly when the text is a decimal, the exponent is one of 0..6 and the number is a whole count of
   * units at that exponent; the answer is then the numeral of that count. Nothing is ever rounded.
   */
  lemma DecimalToMinorExact(amount: string, exponent: int)
    ensures var r := DecimalToMinor(amount, exponent);
            && (r.Some? <==> 0 <= exponent <= 6 && Parse(amount).Some?
                             && exists u :: InUnits(NumberOf(Parse(amount).value), exponent, u))
            && (r.Some? ==> r.value == Numeral(Value(r.value))
                            && InUnits(NumberOf(Parse(amount).value), exponent, Value(r.value)))
  {
    ParseDigits(amount);
    hide Parse;
    if 0 <= exponent <= 6 && Parse(amount).Some? {
      var d := Parse(amount).value;
      var cut := Min(exponent, |d.fraction|);
      NonZeroDigits(d.fraction[cut..]);
      var digits := d.whole + PadEnd(d.fraction[..cut], exponent);
      if |d.fraction| <= exponent {
        assert d.fraction[..cut] == d.fraction;
        PaddedUnits(d, exponent);
      } else {
        forall u {
          CutUnits(d, exponent, u);
        }
      }
      if DecimalToMinor(amount, exponent).Some? {
        assert InUnits(NumberOf(d), exponent, Value(digits));
        ValueStripped(digits);
        StripZerosNumeral(digits);
        NumeralValue(Value(digits));
      }
    }
  }

  // ---- minorToDecimal, and the two round trips ----------------------------

  /** The point set `exponent` digits from the end of the padded digits. */
  ghost function Placed(digits: string, exponent: nat): Decimal {
    var padded := PadStart(digits, exponent + 1);
    Decimal(padded[..|padded| - exponent], padded[|padded| - exponent..])
  }

  lemma PlacedExact(digits: string, exponent: nat)
    requires Canonical(digits)
    ensures var d := Placed(digits, exponent);
            && Canonical(d.whole) && AllDigits(d.fraction) && |d.fraction| == exponent
            && NumberOf(d) == Rational(Value(digits), Pow10(exponent))
            && (exponent == 0 ==> d == Decimal(digits, ""))
  {
    hide Value, Zeros, Pow10;
    var padded := PadStart(digits, exponent + 1);
    var d := Placed(digits, exponent);
    assert d.whole + d.fraction == padded;
    if |digits| <= exponent {
      var k := exponent + 1 - |digits|;
      assert padded == Zeros(k) + digits;
      ValueLedByZeros(k, digits);
      assert d.whole == "0";
    }
  }

  /** The value is unchanged by its padding, and exactly `exponent` digits follow the point. */
  lemma MinorToDecimalExact(minor: string, exponent: int)
    ensures var r := MinorToDecimal(minor, exponent);
            && (r.Some? <==> 0 <= exponent <= 6 && IsNumeral(minor))
            && (r.Some? ==> Parse(r.value).Some?
                            && var d := Parse(r.value).value;
                            && Canonical(d.whole)
                            && |d.fraction| == exponent
                            && NumberOf(d) == Rational(Value(minor), Pow10(exponent)))
  {
    if 0 <= exponent <= 6 && IsNumeral(minor) {
      var digits := StripZeros(minor);
      ValueStripped(minor);
      StripZerosCanonical(minor);
      var d := Placed(digits, exponent);
      hide StripZeros, Value, Parse, NumberOf, Pow10;
      PlacedExact(digits, exponent);
      ParseIsGrammar(MinorToDecimal(minor, exponent).value, d);
    }
  }

  /** To decimal text and back: the same count of units, as its numeral without leading zeros. */
  lemma MinorRoundTrip(minor: string, exponent: int)
    requires 0 <= exponent <= 6 && IsNumeral(minor)
    ensures MinorToDecimal(minor, exponent).Some?
    ensures DecimalToMinor(MinorToDecimal(minor, exponent).value, exponent) == Some(StripZeros(minor))
  {
    hide MinorToDecimal, DecimalToMinor, Parse, Numeral, StripZeros;
    MinorToDecimalExact(minor, exponent);
    var text := MinorToDecimal(minor, exponent).value;
    DecimalToMinorExact(text, exponent);
    var q := NumberOf(Parse(text).value);
    assert InUnits(q, exponent, Value(minor));
    UnitsUnique(q, exponent, Value(minor), Value(DecimalToMinor(text, exponent).value));
    StripZerosNumeral(minor);
  }

  lemma EqualThroughUnits(p: Rational, q: Rational, exponent: nat, units: nat)
    requires InUnits(p, exponent, units) && q == Rational(units, Pow10(exponent))
    ensures Equal(p, q)
  {
  }

  /** To units and back: another text of the same amount. */
  lemma DecimalRoundTrip(amount: string, exponent: int)
    requires DecimalToMinor(amount, exponent).Some?
    ensures var back := MinorToDecimal(DecimalToMinor(amount, exponent).value, exponent);
            back.Some? && SameAmount(amount, back.value)
  {
    hide MinorToDecimal, DecimalToMinor, Parse, SameAmount, Numeral;
    DecimalToMinorExact(amount, exponent);
    var minor := DecimalToMinor(amount, exponent).value;
    NumeralValue(Value(minor));
    MinorToDecimalExact(minor, exponent);
    var back := MinorToDecimal(minor, exponent).value;
    EqualThroughUnits(NumberOf(Parse(amount).value), NumberOf(Parse(back).value), exponent, Value(minor));
    SameAmountExact(amount, back);
  }

  // ---- sameAmount is equality of numbers ----------------------------------

  ghost predicate IsNormal(d: Decimal) {
    && Canonical(d.whole)
    && AllDigits(d.fraction)
    && (d.fraction != "" ==> d.fraction[|d.fraction| - 1] != '0')
  }

  lemma ScaledPair(num: nat, k: nat, p: nat)
    ensures num * (k * p) == (num * k) * p
  {
  }

  lemma EqualScaled(p: Rational, q: Rational, k: nat)
    requires p.num == q.num * k && p.den == k * q.den
    ensures Equal(p, q)
  {
    ScaledPair(q.num, k, q.den);
  }

  lemma {:induction false} StrippedTail(s: string)
    requires AllDigits(s)
    ensures var r := StripTrailing(s); AllDigits(r) && s == r + Zeros(|s| - |r|)
  {
    if s != "" && s[|s| - 1] == '0' {
      var init := s[..|s| - 1];
      StrippedTail(init);
      var r := StripTrailing(init);
      assert s == init + "0";
      assert Zeros(|s| - |r|) == Zeros(|init| - |r|) + "0";
      assert s == r + (Zeros(|init| - |r|) + "0");
    }
  }

  /** Dropping trailing zeros keeps the number. */
  lemma TrimKeepsNumber(whole: string, fraction: string, k: nat)
    ensures Equal(NumberOf(Decimal(whole, fraction + Zeros(k))), NumberOf(Decimal(whole, fraction)))
  {
    var d, short := Decimal(whole, fraction + Zeros(k)), Decimal(whole, fraction);
    assert whole + (fraction + Zeros(k)) == (whole + fraction) + Zeros(k);
    ValuePadded(whole + fraction, k);
    Pow10Sum(k, |fraction|);
    hide Equal, Zeros, Value, Pow10;
    EqualScaled(NumberOf(d), NumberOf(short), Pow10(k));
  }

  /** Dropping leading zeros keeps the number. */
  lemma StripKeepsNumber(d: Decimal)
    requires IsNumeral(d.whole) && AllDigits(d.fraction)
    ensures NumberOf(Decimal(StripZeros(d.whole), d.fraction)) == NumberOf(d)
  {
    ValueStripped(d.whole);
    ValueConcat(d.whole, d.fraction);
    ValueConcat(StripZeros(d.whole), d.fraction);
  }

  /** Normalising keeps the number. */
  lemma NormalKeepsNumber(d: Decimal)
    requires IsNumeral(d.whole) && AllDigits(d.fraction)
    ensures var n := Decimal(StripZeros(d.whole), StripTrailing(d.fraction));
            IsNormal(n) && Equal(NumberOf(d), NumberOf(n)) && Parse(Print(n)) == Some(n)
  {
    var fraction := StripTrailing(d.fraction);
    var n := Decimal(StripZeros(d.whole), fraction);
    StripZerosCanonical(d.whole);
    StrippedTail(d.fraction);
    ParseIsGrammar(Print(n), n);
    hide Parse, Print, Equal, NumberOf, StripTrailing, StripZeros, Zeros;
    TrimKeepsNumber(d.whole, fraction, |d.fraction| - |fraction|);
    StripKeepsNumber(Decimal(d.whole, fraction));
  }

  lemma DivisionUnique(w1: nat, f1: nat, w2: nat, f2: nat, p: nat)
    requires f1 < p && f2 < p && w1 * p + f1 == w2 * p + f2
    ensures w1 == w2 && f1 == f2
  {
    if w1 < w2 { MulLess(w1, w2, p); }
    if w2 < w1 { MulLess(w2, w1, p); }
  }

  lemma LastDigit(d: Decimal)
    requires IsNormal(d) && d.fraction != ""
    ensures Value(d.whole + d.fraction) % 10 != 0
  {
    var s := d.whole + d.fraction;
    assert s[|s| - 1] == d.fraction[|d.fraction| - 1];
    assert IsDigit(s[|s| - 1]);
  }

  lemma TimesTen(x: nat, k: nat)
    requires k > 0
    ensures (x * Pow10(k)) % 10 == 0
  {
    ScaledPair(x, Pow10(k - 1), 10);
  }

  /** Of two normal forms of one number, neither can have more decimals. */
  lemma NoMoreDecimals(a: Decimal, b: Decimal)
    requires IsNormal(a) && IsNormal(b) && Equal(NumberOf(a), NumberOf(b))
    ensures |b.fraction| <= |a.fraction|
  {
    var k := |b.fraction| - |a.fraction|;
    if k > 0 {
      var x, y, p := Value(a.whole + a.fraction), Value(b.whole + b.fraction), Pow10(|a.fraction|);
      Pow10Sum(k, |a.fraction|);
      ScaledPair(x, Pow10(k), p);
      LastDigit(b);
      TimesTen(x, k);
      MulCancel(x * Pow10(k), y, p);
    }
  }

  /** A number has one normal form. */
  lemma NormalUnique(a: Decimal, b: Decimal)
    requires IsNormal(a) && IsNormal(b) && Equal(NumberOf(a), NumberOf(b))
    ensures a == b
  {
    NoMoreDecimals(a, b);
    NoMoreDecimals(b, a);
    MulCancel(NumberOf(a).num, NumberOf(b).num, NumberOf(a).den);
    ValueConcat(a.whole, a.fraction);
    ValueConcat(b.whole, b.fraction);
    ValueBound(a.fraction);
    ValueBound(b.fraction);
    DivisionUnique(Value(a.whole), Value(a.fraction), Value(b.whole), Value(b.fraction), Pow10(|a.fraction|));
    NumeralOfCanonical(a.whole);
    NumeralOfCanonical(b.whole);
    SameDigits(a.fraction, b.fraction);
  }

  lemma EqualSymmetric(p: Rational, q: Rational)
    ensures Equal(p, q) <==> Equal(q, p)
  {
  }

  lemma EqualTransitive(p: Rational, q: Rational, r: Rational)
    requires q.Valid() && Equal(p, q) && Equal(q, r)
    ensures Equal(p, r)
  {
    calc {
      (p.num * r.den) * q.den;
      (p.num * q.den) * r.den;
      (q.num * p.den) * r.den;
      (q.num * r.den) * p.den;
      (r.num * q.den) * p.den;
      (r.num * p.den) * q.den;
    }
    MulCancel(p.num * r.den, r.num * p.den, q.den);
  }

  /** `sameAmount` holds exactly of two decimal texts that denote the same rational. */
  lemma SameAmountExact(a: string, b: string)
    ensures SameAmount(a, b) <==> Parse(a).Some? && Parse(b).Some?
                                  && Equal(NumberOf(Parse(a).value), NumberOf(Parse(b).value))
  {
    ParseDigits(a);
    ParseDigits(b);
    hide Parse, Print, Equal, NumberOf, StripTrailing, StripZeros;
    if Parse(a).Some? && Parse(b).Some? {
      var x, y := Parse(a).value, Parse(b).value;
      NormalKeepsNumber(x);
      NormalKeepsNumber(y);
      var u := Decimal(StripZeros(x.whole), StripTrailing(x.fraction));
      var v := Decimal(StripZeros(y.whole), StripTrailing(y.fraction));
      assert SameAmount(a, b) <==> u == v;
      EqualSymmetric(NumberOf(x), NumberOf(u));
      EqualSymmetric(NumberOf(y), NumberOf(v));
      if u == v {
        EqualTransitive(NumberOf(x), NumberOf(u), NumberOf(y));
      }
      if Equal(NumberOf(x), NumberOf(y)) {
        EqualTransitive(NumberOf(u), NumberOf(x), NumberOf(y));
        EqualTransitive(NumberOf(u), NumberOf(y), NumberOf(v));
        NormalUnique(u, v);
      }
    }
  }

  // ---- order and arithmetic -----------------------------------------------

  lemma OrderThroughUnits(p: Rational, q: Rational, exponent: nat, x: nat, y: nat)
    requires p.Valid() && q.Valid() && InUnits(p, exponent, x) && InUnits(q, exponent, y)
    ensures x < y <==> Less(p, q)
    ensures x == y <==> Equal(p, q)
  {
    var e, d := Pow10(exponent), p.den * q.den;
    assert x * d == (p.num * q.den) * e;
    assert y * d == (q.num * p.den) * e;
    Compare(x, y, d);
    Compare(p.num * q.den, q.num * p.den, e);
  }

  lemma Compare(x: nat, y: nat, d: nat)
    requires d > 0
    ensures (x < y <==> x * d < y * d) && (x == y <==> x * d == y * d)
  {
    if x < y { MulLess(x, y, d); }
    if y < x { MulLess(y, x, d); }
  }

  /** Where it answers, `compareAmounts` is the order of the two numbers, and 0 is `sameAmount`. */
  lemma CompareAmountsExact(a: string, b: string)
    ensures var r := CompareAmounts(a, b);
            && (r.Some? <==> Units(a, 6).Some? && Units(b, 6).Some?)
            && (r.Some? ==> Parse(a).Some? && Parse(b).Some?
                            && var p, q := NumberOf(Parse(a).value), NumberOf(Parse(b).value);
                            && (r.value == -1 <==> Less(p, q))
                            && (r.value == 1 <==> Less(q, p))
                            && (r.value == 0 <==> SameAmount(a, b))
                            && -1 <= r.value <= 1)
  {
    hide DecimalToMinor, Parse, SameAmount, Numeral, NumberOf;
    DecimalToMinorExact(a, 6);
    DecimalToMinorExact(b, 6);
    SameAmountExact(a, b);
    if CompareAmounts(a, b).Some? {
      var p, q := NumberOf(Parse(a).value), NumberOf(Parse(b).value);
      var x, y := Units(a, 6).value, Units(b, 6).value;
      OrderThroughUnits(p, q, 6, x, y);
      OrderThroughUnits(q, p, 6, y, x);
    }
  }

  /** The decimal text written for `n` units holds exactly `n` units, with exactly `exponent` decimals. */
  lemma WrittenUnits(text: Option<string>, n: nat, exponent: int)
    requires 0 <= exponent <= 6 && text == MinorToDecimal(Numeral(n), exponent)
    ensures text.Some? && Units(text.value, exponent) == Some(n)
    ensures Parse(text.value).Some? && |Parse(text.value).value.fraction| == exponent
  {
    hide MinorToDecimal, DecimalToMinor, Parse, Numeral, StripZeros;
    NumeralValue(n);
    MinorToDecimalExact(Numeral(n), exponent);
    MinorRoundTrip(Numeral(n), exponent);
    ValueStripped(Numeral(n));
  }

  lemma UnitsNeedExponent(a: string, exponent: int)
    ensures Units(a, exponent).Some? ==> 0 <= exponent <= 6
  {
  }

  /** The sum is exact and written at `exponent` places; null only when a part cannot be held. */
  lemma AddAmountsExact(a: string, b: string, exponent: int)
    ensures var x, y, r := Units(a, exponent), Units(b, exponent), AddAmounts(a, b, exponent);
            && (r.Some? <==> x.Some? && y.Some?)
            && (r.Some? ==> Units(r.value, exponent) == Some(x.value + y.value)
                            && |Parse(r.value).value.fraction| == exponent)
  {
    UnitsNeedExponent(a, exponent);
    hide MinorToDecimal, DecimalToMinor, Parse, Numeral;
    match (Units(a, exponent), Units(b, exponent))
    case (Some(x), Some(y)) =>
      WrittenUnits(AddAmounts(a, b, exponent), x + y, exponent);
    case _ =>
  }

  /** The difference is exact; null exactly when a part cannot be held or the result would be negative. */
  lemma SubtractAmountsExact(a: string, b: string, exponent: int)
    ensures var x, y, r := Units(a, exponent), Units(b, exponent), SubtractAmounts(a, b, exponent);
            && (r.Some? <==> x.Some? && y.Some? && x.value >= y.value)
            && (r.Some? ==> Units(r.value, exponent) == Some(x.value - y.value)
                            && |Parse(r.value).value.fraction| == exponent)
  {
    UnitsNeedExponent(a, exponent);
    hide MinorToDecimal, DecimalToMinor, Parse, Numeral;
    match (Units(a, exponent), Units(b, exponent))
    case (Some(x), Some(y)) =>
      if x >= y {
        WrittenUnits(SubtractAmounts(a, b, exponent), x - y, exponent);
      }
    case _ =>
  }

  /** Two texts of as many units are the same amount. */
  lemma SameUnitsSameAmount(a: string, b: string, exponent: int)
    requires Units(a, exponent).Some? && Units(a, exponent) == Units(b, exponent)
    ensures SameAmount(a, b)
  {
    hide DecimalToMinor, Parse, SameAmount, Numeral, NumberOf;
    DecimalToMinorExact(a, exponent);
    DecimalToMinorExact(b, exponent);
    var x := Units(a, exponent).value;
    OrderThroughUnits(NumberOf(Parse(a).value), NumberOf(Parse(b).value), exponent, x, x);
    SameAmountExact(a, b);
  }

  /** Subtracting what was added gives back the same amount. */
  lemma SubtractUndoesAdd(a: string, b: string, exponent: int)
    requires AddAmounts(a, b, exponent).Some?
    ensures var back := SubtractAmounts(AddAmounts(a, b, exponent).value, b, exponent);
            back.Some? && SameAmount(back.value, a)
  {
    hide AddAmounts, SubtractAmounts, Units, Parse, SameAmount;
    AddAmountsExact(a, b, exponent);
    var sum := AddAmounts(a, b, exponent).value;
    SubtractAmountsExact(sum, b, exponent);
    SameUnitsSameAmount(SubtractAmounts(sum, b, exponent).value, a, exponent);
  }

  lemma ScaleBoth(units: nat, den: nat, num: nat, e: nat, p: nat)
    requires units * den == num * e
    ensures (units * p) * den == num * (e * p)
  {
    assert (units * p) * den == (units * den) * p;
    assert (num * e) * p == num * (e * p);
  }

  lemma FinerUnits(q: Rational, exponent: nat, k: nat, units: nat)
    requires InUnits(q, exponent, units)
    ensures InUnits(q, exponent + k, units * Pow10(k))
  {
    Pow10Sum(exponent, k);
    ScaleBoth(units, q.den, q.num, Pow10(exponent), Pow10(k));
  }

  /** At a finer scale an amount is the same number of units times the scale between. */
  lemma UnitsFiner(amount: string, exponent: nat, k: nat)
    requires Units(amount, exponent).Some? && exponent + k <= 6
    ensures Units(amount, exponent + k) == Some(Units(amount, exponent).value * Pow10(k))
  {
    DecimalToMinorExact(amount, exponent);
    DecimalToMinorExact(amount, exponent + k);
    hide DecimalToMinor, Parse, NumberOf, Pow10;
    var q, u := NumberOf(Parse(amount).value), Units(amount, exponent).value;
    FinerUnits(q, exponent, k, u);
    UnitsUnique(q, exponent + k, u * Pow10(k), Units(amount, exponent + k).value);
  }

  lemma UnitsOfZero(exponent: int)
    requires 0 <= exponent <= 6
    ensures Units("0", exponent) == Some(0)
  {
    ParseIsGrammar("0", Decimal("0", ""));
    var q := NumberOf(Decimal("0", ""));
    assert "0" + "" == "0" && "0"[..0] == "";
    assert InUnits(q, exponent, 0);
    hide DecimalToMinor, Parse, NumberOf;
    DecimalToMinorExact("0", exponent);
    UnitsUnique(q, exponent, 0, Units("0", exponent).value);
  }
}
