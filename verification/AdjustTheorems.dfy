/** What Adminium's check of a discount answer accepts: exactly the answers that are right in exact amounts. */
module AdjustTheorems {
  import opened Wrappers
  import opened Digits
  import opened PaymentMoney
  import opened PriceAdjust

  // ---- the lines asked for ------------------------------------------------

  lemma {:induction false} WantedHas(lines: seq<Line>, key: string)
    ensures key in Wanted(lines) <==> key in KeysOf(lines)
    ensures key in Wanted(lines) <==> key in WantedKeys(lines)
    decreases |lines|
  {
    if lines != [] {
      WantedHas(lines[..|lines| - 1], key);
    }
  }

  lemma {:induction false} WantedIs(lines: seq<Line>, i: nat)
    requires Distinct(KeysOf(lines)) && i < |lines|
    ensures lines[i].key in Wanted(lines) && Wanted(lines)[lines[i].key] == lines[i]
    decreases |lines|
  {
    if i < |lines| - 1 {
      var init := lines[..|lines| - 1];
      assert KeysOf(init) == KeysOf(lines)[..|init|];
      WantedIs(init, i);
      assert KeysOf(lines)[i] != KeysOf(lines)[|lines| - 1];
    }
  }

  // ---- each part of the check ---------------------------------------------

  /** Every answer from `i` on is of a line asked for, fair, and the first of its key. */
  predicate AnswersOk(wanted: map<string, Line>, scale: nat, answers: seq<Answer>, i: nat, seen: set<string>) {
    && (forall j :: i <= j < |answers| ==>
          answers[j].key in wanted && UnitsFair(scale, wanted[answers[j].key], answers[j]) && answers[j].key !in seen)
    && (forall j, k :: i <= j < k < |answers| ==> answers[j].key != answers[k].key)
  }

  lemma {:induction false} LineIssuesEmpty(wanted: map<string, Line>, scale: nat, answers: seq<Answer>, i: nat, seen: set<string>)
    requires i <= |answers|
    ensures LineIssues(wanted, scale, answers, i, seen) == [] <==> AnswersOk(wanted, scale, answers, i, seen)
    decreases |answers| - i
  {
    hide AnswersOk, UnitsFair, AnswerIssues;
    FirstAnswerOk(wanted, scale, answers, i, seen);
    if i < |answers| && answers[i].key in wanted {
      var a := answers[i];
      AnswerIssuesEmpty(wanted[a.key], scale, a, i, a.key in seen);
      LineIssuesEmpty(wanted, scale, answers, i + 1, seen + {a.key});
    }
  }

  lemma FirstAnswerOk(wanted: map<string, Line>, scale: nat, answers: seq<Answer>, i: nat, seen: set<string>)
    requires i <= |answers|
    ensures i == |answers| ==> AnswersOk(wanted, scale, answers, i, seen)
    ensures i < |answers| ==>
              var a := answers[i];
              (AnswersOk(wanted, scale, answers, i, seen) <==>
                a.key in wanted && UnitsFair(scale, wanted[a.key], a) && a.key !in seen && AnswersOk(wanted, scale, answers, i + 1, seen + {a.key}))
  {
    hide UnitsFair;
  }

  lemma AnswerIssuesEmpty(asked: Line, scale: nat, a: Answer, i: nat, twice: bool)
    ensures AnswerIssues(asked, scale, a, i, twice) == [] <==> UnitsFair(scale, asked, a) && !twice
  {
    hide UnitsAt, FractionOf;
  }

  lemma {:induction false} MissingEmpty(keys: seq<string>, seen: set<string>)
    ensures Missing(keys, seen) == [] <==> forall k :: k in keys ==> k in seen
    decreases |keys|
  {
    if keys != [] {
      MissingEmpty(keys[1..], seen);
      assert forall k :: k in keys <==> k == keys[0] || k in keys[1..];
    }
  }

  lemma {:induction false} SeenIs(wanted: map<string, Line>, answers: seq<Answer>, i: nat, key: string)
    requires i <= |answers|
    ensures key in SeenFrom(wanted, answers, i) <==> key in wanted && exists j :: i <= j < |answers| && answers[j].key == key
    decreases |answers| - i
  {
    if i < |answers| {
      SeenIs(wanted, answers, i + 1, key);
    }
  }

  lemma {:induction false} AppliedEmpty(wanted: map<string, Line>, staff: bool, applied: seq<Applied>, i: nat)
    requires i <= |applied|
    ensures AppliedIssues(wanted, staff, applied, i) == [] <==>
            forall j :: i <= j < |applied| ==> applied[j].line in wanted && (applied[j].byStaff ==> staff)
    decreases |applied| - i
  {
    if i < |applied| {
      AppliedEmpty(wanted, staff, applied, i + 1);
    }
  }

  predicate RefusalOk(input: Input, r: Reason) {
    && (r == OverCeiling ==> input.staff)
    && (r == NeedsSignIn ==> input.guest)
    && (r == NeedsCustomer ==> input.origin == OfStaff)
  }

  lemma {:induction false} RefusedEmpty(input: Input, refused: seq<Reason>, i: nat)
    requires i <= |refused|
    ensures RefusedIssues(input, refused, i) == [] <==> forall j :: i <= j < |refused| ==> RefusalOk(input, refused[j])
    decreases |refused| - i
  {
    if i < |refused| {
      RefusedEmpty(input, refused, i + 1);
    }
  }

  lemma SidesEmpty(input: Input, output: Output)
    ensures var wanted := Wanted(input.lines);
            SidesOk(input, output) <==>
              && !(input.point != AtPost && output.uses > 0)
              && AppliedIssues(wanted, input.staff, output.applied, 0) == []
              && RefusedIssues(input, output.refused, 0) == []
              && !(input.explain && !output.explained)
  {
    hide Wanted, KeysOf, AppliedIssues, RefusedIssues;
    AppliedEmpty(Wanted(input.lines), input.staff, output.applied, 0);
    RefusedEmpty(input, output.refused, 0);
    assert forall j :: 0 <= j < |output.refused| ==> (RefusalOk(input, output.refused[j]) <==>
          && (output.refused[j] == OverCeiling ==> input.staff)
          && (output.refused[j] == NeedsSignIn ==> input.guest)
          && (output.refused[j] == NeedsCustomer ==> input.origin == OfStaff));
    forall j | 0 <= j < |output.applied|
      ensures output.applied[j].line in Wanted(input.lines) <==> output.applied[j].line in KeysOf(input.lines)
    {
      WantedHas(input.lines, output.applied[j].line);
    }
  }

  // ---- a permutation of distinct keys -------------------------------------

  lemma {:induction false} CountOfDistinct(keys: seq<string>, key: string)
    requires Distinct(keys)
    ensures multiset(keys)[key] == if key in keys then 1 else 0
    decreases |keys|
  {
    if keys != [] {
      var init, last := keys[..|keys| - 1], keys[|keys| - 1];
      assert keys == init + [last];
      CountOfDistinct(init, key);
    }
  }

  lemma {:induction false} DistinctByCount(keys: seq<string>, i: nat, j: nat)
    requires i < j < |keys| && keys[i] == keys[j]
    ensures multiset(keys)[keys[i]] >= 2
  {
    var a, b := keys[..j], keys[j..];
    assert keys == a + b && keys[i] == a[i] && keys[j] == b[0];
    assert keys[i] in multiset(a) && keys[i] in multiset(b);
  }

  lemma PermutationOnce(ins: seq<string>, outs: seq<string>)
    requires Distinct(ins)
    ensures multiset(outs) == multiset(ins) <==>
            Distinct(outs) && (forall k :: k in outs ==> k in ins) && (forall k :: k in ins ==> k in outs)
  {
    if multiset(outs) == multiset(ins) {
      forall k
        ensures k in outs <==> k in ins
      {
        assert k in outs <==> k in multiset(outs);
        assert k in ins <==> k in multiset(ins);
      }
      forall i, j | 0 <= i < j < |outs|
        ensures outs[i] != outs[j]
      {
        CountOfDistinct(ins, outs[i]);
        if outs[i] == outs[j] {
          DistinctByCount(outs, i, j);
        }
      }
    }
    if Distinct(outs) && (forall k :: k in outs ==> k in ins) && (forall k :: k in ins ==> k in outs) {
      forall k: string
        ensures multiset(outs)[k] == multiset(ins)[k]
      {
        CountOfDistinct(outs, k);
        CountOfDistinct(ins, k);
      }
    }
  }

  // ---- the sum ------------------------------------------------------------

  /** With nothing finer than the scale, the units of the reductions are their exact sum. */
  lemma {:induction false} SumExact(wanted: map<string, Line>, scale: nat, answers: seq<Answer>, i: nat)
    requires i <= |answers|
    requires forall j :: i <= j < |answers| ==>
      answers[j].key in wanted && |FractionOf(answers[j].discount)| <= scale && Parse(answers[j].discount).Some?
    ensures Exactly(SumFrom(wanted, scale, answers, i), TotalOff(answers[i..]), scale)
    decreases |answers| - i
  {
    hide UnitsAt, FractionOf, Parse, AmountOf, Pow10;
    if i < |answers| {
      var a, rest := answers[i], answers[i + 1..];
      assert answers[i..][0] == a && answers[i..][1..] == rest;
      UnitsRoundDown(a.discount, scale);
      SumExact(wanted, scale, answers, i + 1);
      Distribute(AmountOf(a.discount), TotalOff(rest), Pow10(scale) as real);
    } else {
      assert answers[i..] == [];
    }
  }

  lemma Distribute(x: real, y: real, p: real)
    ensures (x + y) * p == x * p + y * p
  {
  }

  // ---- soundness and completeness -----------------------------------------

  ghost predicate LinesFair(input: Input, output: Output) {
    forall i, j :: 0 <= i < |input.lines| && 0 <= j < |output.lines| && output.lines[j].key == input.lines[i].key ==>
      Fair(input.scale, input.lines[i], output.lines[j])
  }

  lemma AskedFor(input: Input, key: string) returns (i: nat)
    requires Distinct(KeysOf(input.lines)) && key in Wanted(input.lines)
    ensures i < |input.lines| && input.lines[i].key == key && Wanted(input.lines)[key] == input.lines[i]
  {
    WantedHas(input.lines, key);
    i :| 0 <= i < |input.lines| && KeysOf(input.lines)[i] == key;
    WantedIs(input.lines, i);
  }

  /** Fair to the line its key names, which is fair to every line of that key: there is one. */
  lemma FairToWanted(input: Input, output: Output, j: nat)
    requires Shaped(input, output) && Distinct(KeysOf(input.lines)) && j < |output.lines| && output.lines[j].key in Wanted(input.lines)
    ensures UnitsFair(input.scale, Wanted(input.lines)[output.lines[j].key], output.lines[j]) <==>
            forall i :: 0 <= i < |input.lines| && output.lines[j].key == input.lines[i].key ==> Fair(input.scale, input.lines[i], output.lines[j])
  {
    hide Wanted, KeysOf, Fair, UnitsFair, Parse;
    var a := output.lines[j];
    var k := AskedFor(input, a.key);
    FairInUnits(input.scale, input.lines[k], a);
    forall i | 0 <= i < |input.lines| && a.key == input.lines[i].key
      ensures Fair(input.scale, input.lines[i], a) <==> UnitsFair(input.scale, Wanted(input.lines)[a.key], a)
    {
      WantedIs(input.lines, i);
      FairInUnits(input.scale, input.lines[i], a);
    }
  }

  lemma OnlyAskedAnswered(input: Input, output: Output)
    ensures (forall key :: key in AnswerKeys(output.lines) ==> key in KeysOf(input.lines))
      <==> (forall j :: 0 <= j < |output.lines| ==> output.lines[j].key in Wanted(input.lines))
  {
    hide Wanted, KeysOf;
    forall j | 0 <= j < |output.lines|
      ensures output.lines[j].key == AnswerKeys(output.lines)[j]
      ensures output.lines[j].key in Wanted(input.lines) <==> output.lines[j].key in KeysOf(input.lines)
    {
      WantedHas(input.lines, output.lines[j].key);
    }
  }

  ghost predicate AllIn(keys: seq<string>, others: seq<string>) {
    forall key :: key in keys ==> key in others
  }

  ghost predicate AllSeen(keys: seq<string>, seen: set<string>) {
    forall key :: key in keys ==> key in seen
  }

  lemma AllAskedAnswered(input: Input, output: Output)
    ensures AllIn(KeysOf(input.lines), AnswerKeys(output.lines)) <==> AllSeen(WantedKeys(input.lines), SeenFrom(Wanted(input.lines), output.lines, 0))
  {
    hide Wanted, WantedKeys, SeenFrom, KeysOf, AnswerKeys;
    var asked, answered := KeysOf(input.lines), AnswerKeys(output.lines);
    var keys, seen := WantedKeys(input.lines), SeenFrom(Wanted(input.lines), output.lines, 0);
    if AllIn(asked, answered) {
      forall key | key in keys
        ensures key in seen
      {
        KeySeen(input, output, key);
      }
    } else {
      var key :| key in asked && key !in answered;
      KeySeen(input, output, key);
    }
  }

  lemma KeySeen(input: Input, output: Output, key: string)
    ensures key in WantedKeys(input.lines) <==> key in KeysOf(input.lines)
    ensures key in KeysOf(input.lines) ==> (key in SeenFrom(Wanted(input.lines), output.lines, 0) <==> key in AnswerKeys(output.lines))
  {
    hide Wanted, WantedKeys, SeenFrom, KeysOf, AnswerKeys;
    WantedHas(input.lines, key);
    SeenIs(Wanted(input.lines), output.lines, 0, key);
    AnsweredAt(output.lines, key);
  }

  lemma AnsweredAt(answers: seq<Answer>, key: string)
    ensures key in AnswerKeys(answers) <==> exists j :: 0 <= j < |answers| && answers[j].key == key
  {
    assert key in AnswerKeys(answers) <==> exists j :: 0 <= j < |answers| && AnswerKeys(answers)[j] == key;
  }

  lemma AnsweredOnce(answers: seq<Answer>)
    ensures Distinct(AnswerKeys(answers)) <==> forall j, k :: 0 <= j < k < |answers| ==> answers[j].key != answers[k].key
  {
  }

  lemma KeysAre(input: Input, output: Output)
    requires Distinct(KeysOf(input.lines))
    ensures multiset(AnswerKeys(output.lines)) == multiset(KeysOf(input.lines)) <==>
            && (forall j :: 0 <= j < |output.lines| ==> output.lines[j].key in Wanted(input.lines))
            && (forall j, k :: 0 <= j < k < |output.lines| ==> output.lines[j].key != output.lines[k].key)
            && (forall key :: key in WantedKeys(input.lines) ==> key in SeenFrom(Wanted(input.lines), output.lines, 0))
  {
    hide Wanted, WantedKeys, SeenFrom, KeysOf, AnswerKeys, Distinct;
    PermutationOnce(KeysOf(input.lines), AnswerKeys(output.lines));
    OnlyAskedAnswered(input, output);
    AllAskedAnswered(input, output);
    assert AllIn(KeysOf(input.lines), AnswerKeys(output.lines)) <==> forall key :: key in KeysOf(input.lines) ==> key in AnswerKeys(output.lines);
    AnsweredOnce(output.lines);
  }

  lemma LinesAccepted(input: Input, output: Output)
    requires Shaped(input, output) && Distinct(KeysOf(input.lines))
    ensures var wanted := Wanted(input.lines);
            AnswersOk(wanted, input.scale, output.lines, 0, {}) && (forall key :: key in WantedKeys(input.lines) ==> key in SeenFrom(wanted, output.lines, 0))
            <==> multiset(AnswerKeys(output.lines)) == multiset(KeysOf(input.lines)) && LinesFair(input, output)
  {
    hide Shaped, KeysOf, AnswerKeys, Wanted, WantedKeys, SeenFrom, Fair, UnitsFair, Distinct;
    KeysAre(input, output);
    if forall j :: 0 <= j < |output.lines| ==> output.lines[j].key in Wanted(input.lines) {
      forall j | 0 <= j < |output.lines|
        ensures UnitsFair(input.scale, Wanted(input.lines)[output.lines[j].key], output.lines[j]) <==>
            forall i :: 0 <= i < |input.lines| && output.lines[j].key == input.lines[i].key ==> Fair(input.scale, input.lines[i], output.lines[j])
      {
        FairToWanted(input, output, j);
      }
    }
  }

  /** No issue is found exactly in the answers that are acceptable, whatever the amounts, as long as no two lines asked for share a key. */
  lemma NoIssueExactlyWhenAcceptable(input: Input, output: Output)
    requires Shaped(input, output) && Distinct(KeysOf(input.lines))
    ensures Issues(input, output) == [] <==> Acceptable(input, output)
  {
    hide KeysOf, AnswerKeys, Wanted, WantedKeys, SeenFrom, SumFrom, LineIssues, Missing, AppliedIssues, RefusedIssues, UnitsAt, FractionOf,
      Parse, AmountOf, Fair, UnitsFair, SidesOk, TotalOff, Pow10, Distinct, AnswersOk, Shaped, Issues;
    NoIssueParts(input, output);
    var wanted := Wanted(input.lines);
    LineIssuesEmpty(wanted, input.scale, output.lines, 0, {});
    MissingEmpty(WantedKeys(input.lines), SeenFrom(wanted, output.lines, 0));
    LinesAccepted(input, output);
    SidesEmpty(input, output);
    if AnswersOk(wanted, input.scale, output.lines, 0, {}) {
      AtScale(wanted, input, output);
      SumExact(wanted, input.scale, output.lines, 0);
      assert output.lines[0..] == output.lines;
    }
  }

  lemma NoIssueParts(input: Input, output: Output)
    ensures var wanted := Wanted(input.lines);
            Issues(input, output) == [] <==>
              && LineIssues(wanted, input.scale, output.lines, 0, {}) == []
              && Missing(WantedKeys(input.lines), SeenFrom(wanted, output.lines, 0)) == []
              && UnitsAt(output.order, input.scale) == SumFrom(wanted, input.scale, output.lines, 0)
              && !(input.point != AtPost && output.uses > 0)
              && AppliedIssues(wanted, input.staff, output.applied, 0) == []
              && RefusedIssues(input, output.refused, 0) == []
              && !(input.explain && !output.explained)
  {
    hide Wanted, WantedKeys, SeenFrom, SumFrom, LineIssues, Missing, AppliedIssues, RefusedIssues, UnitsAt;
  }

  lemma AtScale(wanted: map<string, Line>, input: Input, output: Output)
    requires Shaped(input, output) && AnswersOk(wanted, input.scale, output.lines, 0, {})
    ensures forall j :: 0 <= j < |output.lines| ==>
      var a := output.lines[j]; a.key in wanted && |FractionOf(a.discount)| <= input.scale && Parse(a.discount).Some?
  {
    hide UnitsAt, FractionOf, Parse;
  }

  // ---- corollaries --------------------------------------------------------

  lemma AmountNotNegative(text: string)
    ensures AmountOf(text) >= 0.0
  {
  }

  lemma {:induction false} TotalWithout(lines: seq<Line>, i: nat)
    requires i < |lines|
    ensures TotalAmount(lines) == AmountOf(lines[i].amount) + TotalAmount(lines[..i] + lines[i + 1..])
  {
    hide AmountOf;
    var rest := lines[..i] + lines[i + 1..];
    if i == 0 {
      assert rest == lines[1..];
    } else {
      TotalWithout(lines[1..], i - 1);
      assert rest[0] == lines[0] && rest[1..] == lines[1..][..i - 1] + lines[1..][i..];
    }
  }

  lemma {:induction false} TotalNotNegative(lines: seq<Line>)
    ensures TotalAmount(lines) >= 0.0
  {
    hide AmountOf;
    if lines != [] {
      AmountNotNegative(lines[0].amount);
      TotalNotNegative(lines[1..]);
    }
  }

  /** A line of the answer's key comes to as much, exactly. */
  ghost predicate HasLine(lines: seq<Line>, a: Answer) {
    exists i :: 0 <= i < |lines| && lines[i].key == a.key && AmountOf(a.discount) <= AmountOf(lines[i].amount)
  }

  predicate OneEach(answers: seq<Answer>) {
    forall j, k :: 0 <= j < k < |answers| ==> answers[j].key != answers[k].key
  }

  /** A line is not missed by an answer of another key. */
  lemma HasOtherLine(lines: seq<Line>, i: nat, a: Answer)
    requires i < |lines| && lines[i].key != a.key && HasLine(lines, a)
    ensures HasLine(lines[..i] + lines[i + 1..], a)
  {
    hide AmountOf;
    var rest := lines[..i] + lines[i + 1..];
    var n :| 0 <= n < |lines| && lines[n].key == a.key && AmountOf(a.discount) <= AmountOf(lines[n].amount);
    assert rest[if n < i then n else n - 1] == lines[n];
  }

  /** Each answer within a line of its own key, and no key answered twice: together within all the lines. */
  lemma {:induction false} WithinTotal(lines: seq<Line>, answers: seq<Answer>)
    requires OneEach(answers) && forall j :: 0 <= j < |answers| ==> HasLine(lines, answers[j])
    ensures TotalOff(answers) <= TotalAmount(lines)
    decreases |answers|
  {
    hide AmountOf, HasLine;
    if answers == [] {
      TotalNotNegative(lines);
    } else {
      var i := LineOf(lines, answers[0]);
      var rest := lines[..i] + lines[i + 1..];
      forall j | 0 <= j < |answers[1..]|
        ensures HasLine(rest, answers[1..][j])
      {
        assert answers[1..][j] == answers[j + 1];
        HasOtherLine(lines, i, answers[j + 1]);
      }
      WithinTotal(rest, answers[1..]);
      TotalWithout(lines, i);
    }
  }

  lemma LineOf(lines: seq<Line>, a: Answer) returns (i: nat)
    requires HasLine(lines, a)
    ensures i < |lines| && lines[i].key == a.key && AmountOf(a.discount) <= AmountOf(lines[i].amount)
  {
    i :| 0 <= i < |lines| && lines[i].key == a.key && AmountOf(a.discount) <= AmountOf(lines[i].amount);
  }

  /** An accepted answer never takes off more than the lines come to, exactly. */
  lemma NeverMoreThanTheLines(input: Input, output: Output)
    requires Shaped(input, output) && Distinct(KeysOf(input.lines)) && Issues(input, output) == []
    ensures TotalOff(output.lines) <= TotalAmount(input.lines)
  {
    hide AmountOf, UnitsAt, FractionOf, Issues, TotalOff, TotalAmount, SidesOk, Shaped, Wanted, WantedKeys, SeenFrom, KeysOf, AnswerKeys, Distinct,
      HasLine;
    NoIssueExactlyWhenAcceptable(input, output);
    KeysAre(input, output);
    assert OneEach(output.lines);
    forall j | 0 <= j < |output.lines|
      ensures HasLine(input.lines, output.lines[j])
    {
      FairHasLine(input, output, j);
    }
    WithinTotal(input.lines, output.lines);
  }

  lemma FairHasLine(input: Input, output: Output, j: nat)
    requires Distinct(KeysOf(input.lines)) && j < |output.lines| && output.lines[j].key in Wanted(input.lines) && LinesFair(input, output)
    ensures HasLine(input.lines, output.lines[j])
  {
    hide AmountOf, UnitsAt, FractionOf, KeysOf, Distinct, Wanted;
    var i := AskedFor(input, output.lines[j].key);
    assert Fair(input.scale, input.lines[i], output.lines[j]);
  }

  /**
   * The order's own reduction is cut off at the scale before it is compared: in an accepted answer it is the exact sum of the
   * lines' if and only if nothing finer than the scale is left of it.
   */
  lemma OrderDiscountExactlyWhen(input: Input, output: Output)
    requires Shaped(input, output) && Distinct(KeysOf(input.lines)) && Issues(input, output) == []
    ensures AmountOf(output.order) == TotalOff(output.lines)
            <==> |FractionOf(output.order)| <= input.scale || Value(FractionOf(output.order)[input.scale..]) == 0
  {
    hide AmountOf, UnitsAt, FractionOf, Issues, TotalOff, SidesOk, KeysOf, AnswerKeys, Distinct, Parse, Pow10, Fair, Exactly, RoundsDown, Value;
    NoIssueExactlyWhenAcceptable(input, output);
    UnitsRoundDown(output.order, input.scale);
    SameExactly(UnitsAt(output.order, input.scale), AmountOf(output.order), TotalOff(output.lines), input.scale);
  }

  /** Two amounts of which one is so many units exactly: they are the same when the other is too. */
  lemma SameExactly(units: nat, x: real, y: real, scale: nat)
    requires Exactly(units, y, scale)
    ensures x == y <==> Exactly(units, x, scale)
  {
    hide Pow10;
    Positive(scale);
    SameScaled(x, y, Pow10(scale) as real);
  }

  lemma SameScaled(x: real, y: real, p: real)
    requires p > 0.0
    ensures x == y <==> x * p == y * p
  {
    OrderScaled(x, y, p);
    OrderScaled(y, x, p);
  }

  lemma NineThousandthsParsed()
    ensures Parse("0.009") == Some(Decimal("0", "009"))
  {
    hide Parse;
    assert Print(Decimal("0", "009")) == "0.009";
    ParseIsGrammar("0.009", Decimal("0", "009"));
  }

  lemma NineThousandthsValue()
    ensures Value("0" + "009") == 9 && Pow10(3) == 1000
  {
    var digits := "0" + "009";
    assert digits == Zeros(3) + "9";
    ValueLedByZeros(3, "9");
    assert "9"[..0] == "" && Value("9") == 9;
  }

  lemma NineThousandths()
    ensures Parse("0.009") == Some(Decimal("0", "009"))
    ensures AmountOf("0.009") == 0.009
  {
    hide Parse, Value, Pow10;
    NineThousandthsParsed();
    NineThousandthsValue();
    assert |"009"| == 3 && AmountOf("0.009") == 9 as real / 1000 as real;
  }

  lemma NineThousandthsCut()
    ensures UnitsAt("0.009", 2) == 0
  {
    hide Parse;
    NineThousandths();
    var padded := ("009" + Zeros(2))[..2];
    assert padded == Zeros(2);
    ValueZero(padded);
    ValueZero("0");
  }

  /** Accepted although the order's reduction is not the lines': what it has beyond the scale is not looked at. */
  lemma FinerOrderDiscountAccepted()
    ensures var input := Input(AtLine, OfPublic, 2, [], true, false, false);
            var output := Output([], "0.009", [], 0, [], false);
            && Shaped(input, output) && Issues(input, output) == [] && AmountOf(output.order) == 0.009 && TotalOff(output.lines) == 0.0
  {
    hide AmountOf, UnitsAt, Parse;
    NineThousandths();
    NineThousandthsCut();
  }
}
