/**
 * price-adjust.ts: what Adminium checks of an add-on's answer about discounts before it writes it.
 *
 * The check counts in the smallest unit at the order's scale; what it accepts is stated about the exact amounts.
 */
module PriceAdjust {
  import opened Wrappers
  import opened Digits
  import opened PaymentMoney

  // ---- the question and the answer ----------------------------------------

  datatype Line = Line(key: string, amount: string, excluded: bool)

  datatype Point = AtLine | AtPost

  datatype Origin = OfStaff | OfPublic | OfSystem

  datatype Input = Input(point: Point, origin: Origin, scale: nat, lines: seq<Line>, guest: bool, staff: bool, explain: bool)

  datatype Answer = Answer(key: string, discount: string)

  datatype Applied = Applied(line: string, byStaff: bool)

  datatype Reason = OverCeiling | NeedsSignIn | NeedsCustomer | OtherReason

  /** What the check reads of an answer: how many uses it reports, why codes were refused, whether it explains. */
  datatype Output = Output(lines: seq<Answer>, order: string, applied: seq<Applied>, uses: nat, refused: seq<Reason>, explained: bool)

  datatype Issue =
    | NotAsked(i: nat)
    | Twice(i: nat)
    | TooFine(i: nat)
    | TooMuch(i: nat)
    | Excluded(i: nat)
    | NoAnswer(key: string)
    | NotTheSum
    | UsesBeforePost
    | AppliedNotAsked(i: nat)
    | NoStaff(i: nat)
    | NoCeiling(i: nat)
    | KnownCustomer(i: nat)
    | NotStaff(i: nat)
    | NotExplained

  /** The shape already checked: every amount is a decimal text, zero or more. */
  predicate Shaped(input: Input, output: Output) {
    && (forall i :: 0 <= i < |input.lines| ==> Parse(input.lines[i].amount).Some?)
    && (forall i :: 0 <= i < |output.lines| ==> Parse(output.lines[i].discount).Some?)
    && Parse(output.order).Some?
  }

  // ---- units --------------------------------------------------------------

  function FractionOf(text: string): string {
    match Parse(text) case Some(d) => d.fraction case None => ""
  }

  /** `units`: what is finer than the scale is cut off. */
  function UnitsAt(text: string, scale: nat): nat {
    match Parse(text)
    case Some(d) => Value(d.whole) * Pow10(scale) + Value((d.fraction + Zeros(scale))[..scale])
    case None => 0
  }

  /** The amount a text denotes. */
  ghost function AmountOf(text: string): real {
    match Parse(text)
    case Some(d) => Value(d.whole + d.fraction) as real / Pow10(|d.fraction|) as real
    case None => 0.0
  }

  lemma {:induction false} RealProduct(a: nat, b: nat)
    ensures (a * b) as real == a as real * b as real
  {
    if a > 0 {
      RealProduct(a - 1, b);
      assert a * b == (a - 1) * b + b;
    }
  }

  /** The numerator of a decimal, in units and what is left of them. */
  lemma CutInTwo(d: Decimal, scale: nat)
    requires IsNumeral(d.whole) && AllDigits(d.fraction)
    ensures var u := Value(d.whole) * Pow10(scale) + Value((d.fraction + Zeros(scale))[..scale]);
            && (|d.fraction| <= scale ==> u == Value(d.whole + d.fraction) * Pow10(scale - |d.fraction|))
            && (|d.fraction| > scale ==>
                  var rest := d.fraction[scale..];
                  Value(d.whole + d.fraction) == u * Pow10(|rest|) + Value(rest) && Value(rest) < Pow10(|rest|))
  {
    if |d.fraction| <= scale {
      var k := scale - |d.fraction|;
      assert (d.fraction + Zeros(scale))[..scale] == d.fraction + Zeros(k) by { ZerosPrefix(scale, k); }
      ValueConcat(d.whole, d.fraction + Zeros(k));
      assert d.whole + (d.fraction + Zeros(k)) == (d.whole + d.fraction) + Zeros(k);
      ValuePadded(d.whole + d.fraction, k);
    } else {
      var kept, rest := d.fraction[..scale], d.fraction[scale..];
      assert (d.fraction + Zeros(scale))[..scale] == kept;
      ValueConcat(d.whole, kept);
      assert d.whole + d.fraction == (d.whole + kept) + rest;
      ValueConcat(d.whole + kept, rest);
      ValueBound(rest);
    }
  }

  lemma ZerosPrefix(n: nat, k: nat)
    requires k <= n
    ensures Zeros(n)[..k] == Zeros(k)
  {
  }

  lemma Quotient(num: nat, den: nat, k: nat, p: nat)
    requires den > 0 && p == k * den
    ensures num as real / den as real * p as real == (num * k) as real
  {
    RealProduct(k, den);
    RealProduct(num, k);
    var n, d, r := num as real, den as real, k as real;
    assert n / d * (r * d) == n * r;
  }

  lemma QuotientCut(num: nat, u: nat, rest: nat, e: nat, q: nat)
    requires e > 0 && q > rest && num == u * q + rest
    ensures u as real <= num as real / (e * q) as real * e as real < u as real + 1.0
    ensures num as real / (e * q) as real * e as real == u as real <==> rest == 0
  {
    RealProduct(e, q);
    RealProduct(u, q);
    var x, f, c := num as real / (e * q) as real, e as real, q as real;
    assert x * (f * c) == num as real;
    assert (x * f) * c == u as real * c + rest as real;
    CutOff(x * f, u as real, rest as real, c);
  }

  lemma CutOff(y: real, u: real, rest: real, c: real)
    requires 0.0 <= rest < c && y * c == u * c + rest
    ensures u <= y < u + 1.0 && (y == u <==> rest == 0.0)
  {
    var part := rest / c;
    assert part * c == rest;
    assert (y - u - part) * c == 0.0;
    assert y == u + part;
    Below(part, c, rest);
  }

  lemma Below(part: real, c: real, rest: real)
    requires 0.0 <= rest < c && part * c == rest
    ensures 0.0 <= part < 1.0 && (part == 0.0 <==> rest == 0.0)
  {
    assert (1.0 - part) * c == c - rest;
    if part < 0.0 { Negative(part, c); }
    if part >= 1.0 { NotPositive(1.0 - part, c); }
  }

  lemma Negative(x: real, c: real)
    requires x < 0.0 && c > 0.0
    ensures x * c < 0.0
  {
  }

  lemma NotPositive(x: real, c: real)
    requires x <= 0.0 && c > 0.0
    ensures x * c <= 0.0
  {
  }

  ghost predicate RoundsDown(units: nat, amount: real, scale: nat) {
    units as real <= amount * Pow10(scale) as real < units as real + 1.0
  }

  /** So many units at the scale are exactly the amount. */
  ghost predicate Exactly(units: nat, amount: real, scale: nat) {
    units as real == amount * Pow10(scale) as real
  }

  /** Units are the exact amount rounded down at the scale; exact when nothing finer than the scale is left. */
  lemma UnitsRoundDown(text: string, scale: nat)
    requires Parse(text).Some?
    ensures RoundsDown(UnitsAt(text, scale), AmountOf(text), scale)
    ensures Exactly(UnitsAt(text, scale), AmountOf(text), scale)
            <==> |FractionOf(text)| <= scale || Value(FractionOf(text)[scale..]) == 0
  {
    hide Parse, Value, Pow10, Zeros, RoundsDown, Exactly;
    var d := Parse(text).value;
    ParseIsGrammar(text, d);
    if |d.fraction| <= scale {
      CoarseUnits(d, scale);
    } else {
      FineUnits(d, scale);
    }
  }

  lemma CoarseUnits(d: Decimal, scale: nat)
    requires IsNumeral(d.whole) && AllDigits(d.fraction) && |d.fraction| <= scale
    ensures var u := Value(d.whole) * Pow10(scale) + Value((d.fraction + Zeros(scale))[..scale]);
            var amount := Value(d.whole + d.fraction) as real / Pow10(|d.fraction|) as real;
            RoundsDown(u, amount, scale) && Exactly(u, amount, scale)
  {
    hide Value, Pow10, Zeros, IsNumeral, AllDigits;
    CutInTwo(d, scale);
    var f := |d.fraction|;
    Pow10Sum(scale - f, f);
    Quotient(Value(d.whole + d.fraction), Pow10(f), Pow10(scale - f), Pow10(scale));
  }

  lemma FineUnits(d: Decimal, scale: nat)
    requires IsNumeral(d.whole) && AllDigits(d.fraction) && |d.fraction| > scale
    ensures var u := Value(d.whole) * Pow10(scale) + Value((d.fraction + Zeros(scale))[..scale]);
            var amount := Value(d.whole + d.fraction) as real / Pow10(|d.fraction|) as real;
            RoundsDown(u, amount, scale) && (Exactly(u, amount, scale) <==> Value(d.fraction[scale..]) == 0)
  {
    hide Value, Pow10, Zeros, IsNumeral, AllDigits;
    CutInTwo(d, scale);
    var u := Value(d.whole) * Pow10(scale) + Value((d.fraction + Zeros(scale))[..scale]);
    var rest := d.fraction[scale..];
    Pow10Sum(scale, |rest|);
    QuotientCut(Value(d.whole + d.fraction), u, Value(rest), Pow10(scale), Pow10(|rest|));
  }

  // ---- the issues of an answer --------------------------------------------

  /** `new Map(input.lines.map((line) => [line.key, line]))`: the last line of a key. */
  function Wanted(lines: seq<Line>): map<string, Line> {
    if lines == [] then map[] else Wanted(lines[..|lines| - 1])[lines[|lines| - 1].key := lines[|lines| - 1]]
  }

  /** The keys of that map, in the order they were first put in. */
  function WantedKeys(lines: seq<Line>): seq<string> {
    if lines == [] then []
    else
      var before, key := WantedKeys(lines[..|lines| - 1]), lines[|lines| - 1].key;
      if key in before then before else before + [key]
  }

  function If(condition: bool, issue: Issue): seq<Issue> {
    if condition then [issue] else []
  }

  function LineIssues(wanted: map<string, Line>, scale: nat, answers: seq<Answer>, i: nat, seen: set<string>): seq<Issue>
    requires i <= |answers|
    decreases |answers| - i
  {
    if i == |answers| then []
    else
      var a := answers[i];
      if a.key !in wanted then [NotAsked(i)] + LineIssues(wanted, scale, answers, i + 1, seen)
      else AnswerIssues(wanted[a.key], scale, a, i, a.key in seen) + LineIssues(wanted, scale, answers, i + 1, seen + {a.key})
  }

  function AnswerIssues(asked: Line, scale: nat, a: Answer, i: nat, twice: bool): seq<Issue> {
    If(twice, Twice(i))
    + If(|FractionOf(a.discount)| > scale, TooFine(i))
    + If(UnitsAt(a.discount, scale) > UnitsAt(asked.amount, scale), TooMuch(i))
    + If(asked.excluded && UnitsAt(a.discount, scale) != 0, Excluded(i))
  }

  /** The keys answered, and the units they come to, of the lines asked for. */
  function SeenFrom(wanted: map<string, Line>, answers: seq<Answer>, i: nat): set<string>
    requires i <= |answers|
    decreases |answers| - i
  {
    if i == |answers| then {} else (if answers[i].key in wanted then {answers[i].key} else {}) + SeenFrom(wanted, answers, i + 1)
  }

  function SumFrom(wanted: map<string, Line>, scale: nat, answers: seq<Answer>, i: nat): nat
    requires i <= |answers|
    decreases |answers| - i
  {
    if i == |answers| then 0
    else (if answers[i].key in wanted then UnitsAt(answers[i].discount, scale) else 0) + SumFrom(wanted, scale, answers, i + 1)
  }

  function Missing(keys: seq<string>, seen: set<string>): seq<Issue> {
    if keys == [] then [] else If(keys[0] !in seen, NoAnswer(keys[0])) + Missing(keys[1..], seen)
  }

  function AppliedIssues(wanted: map<string, Line>, staff: bool, applied: seq<Applied>, i: nat): seq<Issue>
    requires i <= |applied|
    decreases |applied| - i
  {
    if i == |applied| then []
    else AppliedIssue(wanted, staff, applied[i], i) + AppliedIssues(wanted, staff, applied, i + 1)
  }

  function AppliedIssue(wanted: map<string, Line>, staff: bool, a: Applied, i: nat): seq<Issue> {
    If(a.line !in wanted, AppliedNotAsked(i)) + If(a.byStaff && !staff, NoStaff(i))
  }

  function RefusedIssues(input: Input, refused: seq<Reason>, i: nat): seq<Issue>
    requires i <= |refused|
    decreases |refused| - i
  {
    if i == |refused| then []
    else RefusedIssue(input, refused[i], i) + RefusedIssues(input, refused, i + 1)
  }

  function RefusedIssue(input: Input, r: Reason, i: nat): seq<Issue> {
    If(r == OverCeiling && !input.staff, NoCeiling(i)) + If(r == NeedsSignIn && !input.guest, KnownCustomer(i))
    + If(r == NeedsCustomer && input.origin != OfStaff, NotStaff(i))
  }

  function Issues(input: Input, output: Output): seq<Issue> {
    var wanted := Wanted(input.lines);
    LineIssues(wanted, input.scale, output.lines, 0, {})
    + Missing(WantedKeys(input.lines), SeenFrom(wanted, output.lines, 0))
    + If(UnitsAt(output.order, input.scale) != SumFrom(wanted, input.scale, output.lines, 0), NotTheSum)
    + If(input.point != AtPost && output.uses > 0, UsesBeforePost)
    + AppliedIssues(wanted, input.staff, output.applied, 0)
    + RefusedIssues(input, output.refused, 0)
    + If(input.explain && !output.explained, NotExplained)
  }

  // ---- the check as the source runs it ------------------------------------

  /** What one answered line adds. */
  method CheckAnswer(asked: Line, scale: nat, a: Answer, i: nat, twice: bool) returns (out: seq<Issue>, reduction: nat)
    ensures out == AnswerIssues(asked, scale, a, i, twice) && reduction == UnitsAt(a.discount, scale)
  {
    hide UnitsAt, FractionOf;
    out := [];
    if twice {
      out := out + [Twice(i)];
    }
    if |FractionOf(a.discount)| > scale {
      out := out + [TooFine(i)];
    }
    reduction := UnitsAt(a.discount, scale);
    if reduction > UnitsAt(asked.amount, scale) {
      out := out + [TooMuch(i)];
    }
    if asked.excluded && reduction != 0 {
      out := out + [Excluded(i)];
    }
  }

  lemma Regroup(a: seq<Issue>, b: seq<Issue>, c: seq<Issue>)
    ensures (a + b) + c == a + (b + c)
  {
  }

  method CheckLines(wanted: map<string, Line>, scale: nat, answers: seq<Answer>) returns (out: seq<Issue>, seen: set<string>, sum: nat)
    ensures out == LineIssues(wanted, scale, answers, 0, {})
    ensures seen == SeenFrom(wanted, answers, 0) && sum == SumFrom(wanted, scale, answers, 0)
  {
    hide UnitsAt, AnswerIssues;
    out, seen, sum := [], {}, 0;
    var i := 0;
    while i < |answers|
      invariant i <= |answers|
      invariant out + LineIssues(wanted, scale, answers, i, seen) == LineIssues(wanted, scale, answers, 0, {})
      invariant seen + SeenFrom(wanted, answers, i) == SeenFrom(wanted, answers, 0)
      invariant sum + SumFrom(wanted, scale, answers, i) == SumFrom(wanted, scale, answers, 0)
    {
      var a := answers[i];
      var found: seq<Issue>;
      if a.key !in wanted {
        found := [NotAsked(i)];
      } else {
        var reduction: nat;
        found, reduction := CheckAnswer(wanted[a.key], scale, a, i, a.key in seen);
        seen := seen + {a.key};
        sum := sum + reduction;
      }
      Regroup(out, found, LineIssues(wanted, scale, answers, i + 1, seen));
      out := out + found;
      i := i + 1;
    }
  }

  method CheckMissing(keys: seq<string>, seen: set<string>) returns (out: seq<Issue>)
    ensures out == Missing(keys, seen)
  {
    out := [];
    var i := 0;
    while i < |keys|
      invariant i <= |keys|
      invariant out + Missing(keys[i..], seen) == Missing(keys, seen)
    {
      assert keys[i..][1..] == keys[i + 1..];
      Regroup(out, If(keys[i] !in seen, NoAnswer(keys[i])), Missing(keys[i + 1..], seen));
      if keys[i] !in seen {
        out := out + [NoAnswer(keys[i])];
      }
      i := i + 1;
    }
  }

  method CheckApplied(wanted: map<string, Line>, staff: bool, applied: seq<Applied>) returns (out: seq<Issue>)
    ensures out == AppliedIssues(wanted, staff, applied, 0)
  {
    hide AppliedIssue;
    out := [];
    var i := 0;
    while i < |applied|
      invariant i <= |applied|
      invariant out + AppliedIssues(wanted, staff, applied, i) == AppliedIssues(wanted, staff, applied, 0)
    {
      var found := AppliedIssue(wanted, staff, applied[i], i);
      Regroup(out, found, AppliedIssues(wanted, staff, applied, i + 1));
      out := out + found;
      i := i + 1;
    }
  }

  method CheckRefused(input: Input, refused: seq<Reason>) returns (out: seq<Issue>)
    ensures out == RefusedIssues(input, refused, 0)
  {
    hide RefusedIssue;
    out := [];
    var i := 0;
    while i < |refused|
      invariant i <= |refused|
      invariant out + RefusedIssues(input, refused, i) == RefusedIssues(input, refused, 0)
    {
      var found := RefusedIssue(input, refused[i], i);
      Regroup(out, found, RefusedIssues(input, refused, i + 1));
      out := out + found;
      i := i + 1;
    }
  }

  lemma AddedIf(out: seq<Issue>, found: bool, issue: Issue)
    ensures out + If(found, issue) == if found then out + [issue] else out
  {
  }

  method AdjustAnswerIssues(input: Input, output: Output) returns (out: seq<Issue>)
    ensures out == Issues(input, output)
  {
    hide If, UnitsAt, LineIssues, SeenFrom, SumFrom, Missing, AppliedIssues, RefusedIssues, Wanted, WantedKeys;
    var wanted := Wanted(input.lines);
    var seen, sum;
    out, seen, sum := CheckLines(wanted, input.scale, output.lines);
    var missing := CheckMissing(WantedKeys(input.lines), seen);
    out := out + missing;
    AddedIf(out, UnitsAt(output.order, input.scale) != sum, NotTheSum);
    if UnitsAt(output.order, input.scale) != sum {
      out := out + [NotTheSum];
    }
    AddedIf(out, input.point != AtPost && output.uses > 0, UsesBeforePost);
    if input.point != AtPost && output.uses > 0 {
      out := out + [UsesBeforePost];
    }
    var applied := CheckApplied(wanted, input.staff, output.applied);
    out := out + applied;
    var refused := CheckRefused(input, output.refused);
    out := out + refused;
    AddedIf(out, input.explain && !output.explained, NotExplained);
    if input.explain && !output.explained {
      out := out + [NotExplained];
    }
  }

  // ---- what the check accepts ---------------------------------------------

  function KeysOf(lines: seq<Line>): (keys: seq<string>)
    ensures |keys| == |lines| && forall i :: 0 <= i < |lines| ==> keys[i] == lines[i].key
  {
    if lines == [] then [] else KeysOf(lines[..|lines| - 1]) + [lines[|lines| - 1].key]
  }

  function AnswerKeys(answers: seq<Answer>): (keys: seq<string>)
    ensures |keys| == |answers| && forall i :: 0 <= i < |answers| ==> keys[i] == answers[i].key
  {
    if answers == [] then [] else AnswerKeys(answers[..|answers| - 1]) + [answers[|answers| - 1].key]
  }

  predicate Distinct(keys: seq<string>) {
    forall i, j :: 0 <= i < j < |keys| ==> keys[i] != keys[j]
  }

  /** The exact sum of the reductions, and of the lines' amounts. */
  ghost function TotalOff(answers: seq<Answer>): real {
    if answers == [] then 0.0 else AmountOf(answers[0].discount) + TotalOff(answers[1..])
  }

  ghost function TotalAmount(lines: seq<Line>): real {
    if lines == [] then 0.0 else AmountOf(lines[0].amount) + TotalAmount(lines[1..])
  }

  /** A reduction is at the order's scale, no more than its line comes to, exactly, and nothing on a line no offer reduces. */
  ghost predicate Fair(scale: nat, line: Line, a: Answer) {
    && |FractionOf(a.discount)| <= scale
    && AmountOf(a.discount) <= AmountOf(line.amount)
    && (line.excluded ==> AmountOf(a.discount) == 0.0)
  }

  predicate SidesOk(input: Input, output: Output) {
    && (input.point != AtPost ==> output.uses == 0)
    && (forall i :: 0 <= i < |output.applied| ==>
          output.applied[i].line in KeysOf(input.lines) && (output.applied[i].byStaff ==> input.staff))
    && (forall i :: 0 <= i < |output.refused| ==>
          && (output.refused[i] == OverCeiling ==> input.staff)
          && (output.refused[i] == NeedsSignIn ==> input.guest)
          && (output.refused[i] == NeedsCustomer ==> input.origin == OfStaff))
    && (input.explain ==> output.explained)
  }

  /**
   * Every line asked for is answered once and nothing else is; every reduction is fair; the order's, cut off at the scale, is
   * their exact sum; and the side rules hold.
   */
  ghost predicate Acceptable(input: Input, output: Output) {
    && multiset(AnswerKeys(output.lines)) == multiset(KeysOf(input.lines))
    && (forall i, j :: 0 <= i < |input.lines| && 0 <= j < |output.lines| && output.lines[j].key == input.lines[i].key ==>
          Fair(input.scale, input.lines[i], output.lines[j]))
    && Exactly(UnitsAt(output.order, input.scale), TotalOff(output.lines), input.scale)
    && SidesOk(input, output)
  }

  /** The same, as the check counts it. */
  predicate UnitsFair(scale: nat, line: Line, a: Answer) {
    && |FractionOf(a.discount)| <= scale
    && UnitsAt(a.discount, scale) <= UnitsAt(line.amount, scale)
    && (line.excluded ==> UnitsAt(a.discount, scale) == 0)
  }

  lemma Positive(scale: nat)
    ensures Pow10(scale) as real > 0.0
  {
  }

  lemma OrderScaled(x: real, y: real, p: real)
    requires p > 0.0
    ensures x <= y <==> x * p <= y * p
  {
    Difference(x, y, p);
    if x > y {
      Negative(y - x, p);
    } else {
      NotPositive(x - y, p);
      Difference(y, x, p);
    }
  }

  lemma Difference(x: real, y: real, p: real)
    ensures (y - x) * p == y * p - x * p
  {
  }

  lemma ScaledOrder(d: real, a: real, p: real, ud: int, ua: int)
    requires p > 0.0 && d * p == ud as real && ua as real <= a * p < ua as real + 1.0
    ensures d <= a <==> ud <= ua
    ensures d == 0.0 <==> ud == 0
  {
    OrderScaled(d, a, p);
    OrderScaled(d, 0.0, p);
    OrderScaled(0.0, d, p);
    assert 0.0 * p == 0.0;
  }

  /** Counting in units misses nothing: not even an amount finer than the scale. */
  lemma FairInUnits(scale: nat, line: Line, a: Answer)
    requires Parse(line.amount).Some? && Parse(a.discount).Some?
    ensures Fair(scale, line, a) <==> UnitsFair(scale, line, a)
  {
    hide UnitsAt, AmountOf, FractionOf, Parse, Pow10;
    Positive(scale);
    UnitsRoundDown(line.amount, scale);
    UnitsRoundDown(a.discount, scale);
    if |FractionOf(a.discount)| <= scale {
      ScaledOrder(AmountOf(a.discount), AmountOf(line.amount), Pow10(scale) as real, UnitsAt(a.discount, scale), UnitsAt(line.amount, scale));
    }
  }
}
