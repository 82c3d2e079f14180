/** Which issues Adminium's check of a discount answer reports: each exactly when the answer has it, and none made up. */
module AdjustIssues {
  import opened Wrappers
  import opened PriceAdjust
  import opened AdjustTheorems

  // ---- what each issue means ----------------------------------------------

  predicate Asked(lines: seq<Line>, key: string) {
    exists l :: 0 <= l < |lines| && lines[l].key == key
  }

  /** The line a key stands for: the last one that has it. */
  predicate StandsFor(lines: seq<Line>, l: nat, key: string) {
    l < |lines| && lines[l].key == key && forall m :: l < m < |lines| ==> lines[m].key != key
  }

  predicate AnsweredBefore(answers: seq<Answer>, i: nat) {
    i < |answers| && exists j :: 0 <= j < i && answers[j].key == answers[i].key
  }

  /** The units of the answers to lines asked for. */
  function AskedUnits(lines: seq<Line>, scale: nat, answers: seq<Answer>): nat {
    if answers == [] then 0
    else AskedUnits(lines, scale, answers[..|answers| - 1])
         + (if Asked(lines, answers[|answers| - 1].key) then UnitsAt(answers[|answers| - 1].discount, scale) else 0)
  }

  /** The answer has what the issue says. */
  ghost predicate Deserved(input: Input, output: Output, issue: Issue) {
    var lines, answers, scale := input.lines, output.lines, input.scale;
    match issue
    case NotAsked(i) => i < |answers| && !Asked(lines, answers[i].key)
    case Twice(i) => i < |answers| && Asked(lines, answers[i].key) && AnsweredBefore(answers, i)
    case TooFine(i) => i < |answers| && Asked(lines, answers[i].key) && |FractionOf(answers[i].discount)| > scale
    case TooMuch(i) =>
      i < |answers| && exists l: nat :: StandsFor(lines, l, answers[i].key) && UnitsAt(answers[i].discount, scale) > UnitsAt(lines[l].amount, scale)
    case Excluded(i) =>
      i < |answers| && exists l: nat :: StandsFor(lines, l, answers[i].key) && lines[l].excluded && UnitsAt(answers[i].discount, scale) != 0
    case NoAnswer(key) => Asked(lines, key) && forall j :: 0 <= j < |answers| ==> answers[j].key != key
    case NotTheSum => UnitsAt(output.order, scale) != AskedUnits(lines, scale, answers)
    case UsesBeforePost => input.point != AtPost && output.uses > 0
    case AppliedNotAsked(i) => i < |output.applied| && !Asked(lines, output.applied[i].line)
    case NoStaff(i) => i < |output.applied| && output.applied[i].byStaff && !input.staff
    case NoCeiling(i) => i < |output.refused| && output.refused[i] == OverCeiling && !input.staff
    case KnownCustomer(i) => i < |output.refused| && output.refused[i] == NeedsSignIn && !input.guest
    case NotStaff(i) => i < |output.refused| && output.refused[i] == NeedsCustomer && input.origin != OfStaff
    case NotExplained => input.explain && !output.explained
  }

  // ---- the lines asked for ------------------------------------------------

  lemma {:induction false} WantedStands(lines: seq<Line>, key: string) returns (l: nat)
    ensures key in Wanted(lines) <==> Asked(lines, key)
    ensures key in Wanted(lines) ==> StandsFor(lines, l, key) && Wanted(lines)[key] == lines[l]
    decreases |lines|
  {
    l := 0;
    if lines != [] {
      var init := lines[..|lines| - 1];
      assert forall m :: 0 <= m < |init| ==> init[m] == lines[m];
      l := WantedStands(init, key);
      if lines[|lines| - 1].key == key {
        l := |lines| - 1;
      }
    }
  }

  lemma StandsOnce(lines: seq<Line>, l: nat, m: nat, key: string)
    requires StandsFor(lines, l, key) && StandsFor(lines, m, key)
    ensures l == m
  {
  }

  // ---- the issues of the lines --------------------------------------------

  /** The same of the answers from the place `i` on, `seen` being the keys answered before. */
  ghost predicate LineDeserved(wanted: map<string, Line>, scale: nat, answers: seq<Answer>, i: nat, seen: set<string>, issue: Issue) {
    match issue
    case NotAsked(n) => i <= n < |answers| && answers[n].key !in wanted
    case Twice(n) => i <= n < |answers| && answers[n].key in wanted && (answers[n].key in seen || exists j :: i <= j < n && answers[j].key == answers[n].key)
    case TooFine(n) => i <= n < |answers| && answers[n].key in wanted && |FractionOf(answers[n].discount)| > scale
    case TooMuch(n) =>
      i <= n < |answers| && answers[n].key in wanted && UnitsAt(answers[n].discount, scale) > UnitsAt(wanted[answers[n].key].amount, scale)
    case Excluded(n) =>
      i <= n < |answers| && answers[n].key in wanted && wanted[answers[n].key].excluded && UnitsAt(answers[n].discount, scale) != 0
    case _ => false
  }

  lemma InBoth(a: seq<Issue>, b: seq<Issue>, issue: Issue)
    ensures issue in a + b <==> issue in a || issue in b
  {
  }

  /** What one answer deserves. */
  ghost predicate AnswerDeserved(asked: Line, scale: nat, a: Answer, i: nat, twice: bool, issue: Issue) {
    || (issue == Twice(i) && twice)
    || (issue == TooFine(i) && |FractionOf(a.discount)| > scale)
    || (issue == TooMuch(i) && UnitsAt(a.discount, scale) > UnitsAt(asked.amount, scale))
    || (issue == Excluded(i) && asked.excluded && UnitsAt(a.discount, scale) != 0)
  }

  lemma InIf(condition: bool, one: Issue, issue: Issue)
    ensures issue in If(condition, one) <==> condition && issue == one
  {
  }

  lemma AnswerHas(asked: Line, scale: nat, a: Answer, i: nat, twice: bool, issue: Issue)
    ensures issue in AnswerIssues(asked, scale, a, i, twice) <==> AnswerDeserved(asked, scale, a, i, twice, issue)
  {
    hide UnitsAt, FractionOf, If;
    InIf(twice, Twice(i), issue);
    InIf(|FractionOf(a.discount)| > scale, TooFine(i), issue);
    InIf(UnitsAt(a.discount, scale) > UnitsAt(asked.amount, scale), TooMuch(i), issue);
    InIf(asked.excluded && UnitsAt(a.discount, scale) != 0, Excluded(i), issue);
  }

  lemma {:induction false} LinesHave(wanted: map<string, Line>, scale: nat, answers: seq<Answer>, i: nat, seen: set<string>, issue: Issue)
    requires i <= |answers|
    ensures issue in LineIssues(wanted, scale, answers, i, seen) <==> LineDeserved(wanted, scale, answers, i, seen, issue)
    decreases |answers| - i
  {
    hide UnitsAt, FractionOf, AnswerIssues;
    if i < |answers| {
      var a := answers[i];
      var more := if a.key in wanted then seen + {a.key} else seen;
      LinesHave(wanted, scale, answers, i + 1, more, issue);
      if a.key in wanted {
        AnswerHas(wanted[a.key], scale, a, i, a.key in seen, issue);
        InBoth(AnswerIssues(wanted[a.key], scale, a, i, a.key in seen), LineIssues(wanted, scale, answers, i + 1, more), issue);
      } else {
        InBoth([NotAsked(i)], LineIssues(wanted, scale, answers, i + 1, more), issue);
      }
    }
  }

  lemma {:induction false} MissingHas(keys: seq<string>, seen: set<string>, issue: Issue)
    ensures issue in Missing(keys, seen) <==> issue.NoAnswer? && issue.key in keys && issue.key !in seen
    decreases |keys|
  {
    if keys != [] {
      MissingHas(keys[1..], seen, issue);
      assert forall k :: k in keys <==> k == keys[0] || k in keys[1..];
    }
  }

  lemma {:induction false} SumIs(lines: seq<Line>, wanted: map<string, Line>, scale: nat, answers: seq<Answer>)
    requires forall key :: key in wanted <==> Asked(lines, key)
    ensures SumFrom(wanted, scale, answers, 0) == AskedUnits(lines, scale, answers)
    decreases |answers|
  {
    hide UnitsAt, Asked;
    if answers != [] {
      SumIs(lines, wanted, scale, answers[..|answers| - 1]);
      SumLast(wanted, scale, answers, 0);
    }
  }

  lemma {:induction false} SumLast(wanted: map<string, Line>, scale: nat, answers: seq<Answer>, i: nat)
    requires i < |answers|
    ensures SumFrom(wanted, scale, answers, i) ==
            SumFrom(wanted, scale, answers[..|answers| - 1], i)
            + (if answers[|answers| - 1].key in wanted then UnitsAt(answers[|answers| - 1].discount, scale) else 0)
    decreases |answers| - i
  {
    hide UnitsAt;
    if i < |answers| - 1 {
      SumLast(wanted, scale, answers, i + 1);
    }
  }

  // ---- the other parts ----------------------------------------------------

  lemma {:induction false} AppliedHave(wanted: map<string, Line>, staff: bool, applied: seq<Applied>, i: nat, issue: Issue)
    requires i <= |applied|
    ensures issue in AppliedIssues(wanted, staff, applied, i) <==>
            || (issue.AppliedNotAsked? && i <= issue.i < |applied| && applied[issue.i].line !in wanted)
            || (issue.NoStaff? && i <= issue.i < |applied| && applied[issue.i].byStaff && !staff)
    decreases |applied| - i
  {
    hide If;
    if i < |applied| {
      AppliedHave(wanted, staff, applied, i + 1, issue);
      InIf(applied[i].line !in wanted, AppliedNotAsked(i), issue);
      InIf(applied[i].byStaff && !staff, NoStaff(i), issue);
    }
  }

  lemma {:induction false} RefusedHave(input: Input, refused: seq<Reason>, i: nat, issue: Issue)
    requires i <= |refused|
    ensures issue in RefusedIssues(input, refused, i) <==>
            || (issue.NoCeiling? && i <= issue.i < |refused| && refused[issue.i] == OverCeiling && !input.staff)
            || (issue.KnownCustomer? && i <= issue.i < |refused| && refused[issue.i] == NeedsSignIn && !input.guest)
            || (issue.NotStaff? && i <= issue.i < |refused| && refused[issue.i] == NeedsCustomer && input.origin != OfStaff)
    decreases |refused| - i
  {
    hide If;
    if i < |refused| {
      RefusedHave(input, refused, i + 1, issue);
      InIf(refused[i] == OverCeiling && !input.staff, NoCeiling(i), issue);
      InIf(refused[i] == NeedsSignIn && !input.guest, KnownCustomer(i), issue);
      InIf(refused[i] == NeedsCustomer && input.origin != OfStaff, NotStaff(i), issue);
    }
  }

  lemma WantedIsAsked(lines: seq<Line>, key: string)
    ensures key in Wanted(lines) <==> Asked(lines, key)
    ensures key in WantedKeys(lines) <==> Asked(lines, key)
  {
    var l := WantedStands(lines, key);
    WantedHas(lines, key);
  }

  /** In the terms of the question, for the issues of the lines. */
  lemma LineDeservedIs(input: Input, output: Output, issue: Issue)
    requires issue.NotAsked? || issue.Twice? || issue.TooFine? || issue.TooMuch? || issue.Excluded?
    ensures LineDeserved(Wanted(input.lines), input.scale, output.lines, 0, {}, issue) <==> Deserved(input, output, issue)
  {
    hide UnitsAt, FractionOf, Wanted, Asked, StandsFor;
    if issue.i < |output.lines| {
      var key := output.lines[issue.i].key;
      var l := WantedStands(input.lines, key);
      if key in Wanted(input.lines) {
        forall m: nat | StandsFor(input.lines, m, key)
          ensures m == l
        {
          StandsOnce(input.lines, l, m, key);
        }
      } else {
        NoneStands(input.lines, key);
      }
    }
  }

  lemma NoneStands(lines: seq<Line>, key: string)
    requires !Asked(lines, key)
    ensures forall l: nat :: !StandsFor(lines, l, key)
  {
  }

  /** An issue is reported by one of the seven parts. */
  lemma InSomePart(input: Input, output: Output, issue: Issue)
    ensures var wanted := Wanted(input.lines);
            issue in Issues(input, output) <==>
              || issue in LineIssues(wanted, input.scale, output.lines, 0, {})
              || issue in Missing(WantedKeys(input.lines), SeenFrom(wanted, output.lines, 0))
              || (UnitsAt(output.order, input.scale) != SumFrom(wanted, input.scale, output.lines, 0) && issue == NotTheSum)
              || (input.point != AtPost && output.uses > 0 && issue == UsesBeforePost)
              || issue in AppliedIssues(wanted, input.staff, output.applied, 0)
              || issue in RefusedIssues(input, output.refused, 0)
              || (input.explain && !output.explained && issue == NotExplained)
  {
    hide If, UnitsAt, Wanted, WantedKeys, LineIssues, Missing, SeenFrom, SumFrom, AppliedIssues, RefusedIssues;
    var wanted := Wanted(input.lines);
    InIf(UnitsAt(output.order, input.scale) != SumFrom(wanted, input.scale, output.lines, 0), NotTheSum, issue);
    InIf(input.point != AtPost && output.uses > 0, UsesBeforePost, issue);
    InIf(input.explain && !output.explained, NotExplained, issue);
  }

  lemma MissingIs(input: Input, output: Output, issue: Issue)
    ensures issue in Missing(WantedKeys(input.lines), SeenFrom(Wanted(input.lines), output.lines, 0)) <==> issue.NoAnswer? && Deserved(input, output, issue)
  {
    hide UnitsAt, FractionOf, Wanted, WantedKeys, SeenFrom, Missing, Asked, StandsFor;
    MissingHas(WantedKeys(input.lines), SeenFrom(Wanted(input.lines), output.lines, 0), issue);
    if issue.NoAnswer? {
      WantedIsAsked(input.lines, issue.key);
      SeenIs(Wanted(input.lines), output.lines, 0, issue.key);
    }
  }

  lemma SumIsAsked(input: Input, output: Output)
    ensures SumFrom(Wanted(input.lines), input.scale, output.lines, 0) == AskedUnits(input.lines, input.scale, output.lines)
  {
    hide UnitsAt, Wanted, WantedKeys, SumFrom, AskedUnits, Asked;
    forall key
      ensures key in Wanted(input.lines) <==> Asked(input.lines, key)
    {
      WantedIsAsked(input.lines, key);
    }
    SumIs(input.lines, Wanted(input.lines), input.scale, output.lines);
  }

  lemma LinesAre(input: Input, output: Output, issue: Issue)
    ensures issue in LineIssues(Wanted(input.lines), input.scale, output.lines, 0, {}) <==>
            (issue.NotAsked? || issue.Twice? || issue.TooFine? || issue.TooMuch? || issue.Excluded?) && Deserved(input, output, issue)
  {
    hide UnitsAt, FractionOf, Wanted, LineIssues, LineDeserved, Deserved;
    LinesHave(Wanted(input.lines), input.scale, output.lines, 0, {}, issue);
    if issue.NotAsked? || issue.Twice? || issue.TooFine? || issue.TooMuch? || issue.Excluded? {
      LineDeservedIs(input, output, issue);
    } else {
      NotOfALine(Wanted(input.lines), input.scale, output.lines, issue);
    }
  }

  /** An issue is reported if and only if the answer has it. */
  lemma ReportedExactlyWhenDeserved(input: Input, output: Output, issue: Issue)
    ensures issue in Issues(input, output) <==> Deserved(input, output, issue)
  {
    hide If, UnitsAt, FractionOf, Wanted, WantedKeys, Issues, LineIssues, Missing, SeenFrom, SumFrom, AppliedIssues, RefusedIssues, Asked, StandsFor, AskedUnits;
    InSomePart(input, output, issue);
    LinesAre(input, output, issue);
    MissingIs(input, output, issue);
    SumIsAsked(input, output);
    AppliedHave(Wanted(input.lines), input.staff, output.applied, 0, issue);
    RefusedHave(input, output.refused, 0, issue);
    if issue.AppliedNotAsked? && issue.i < |output.applied| {
      WantedIsAsked(input.lines, output.applied[issue.i].line);
    }
  }

  lemma NotOfALine(wanted: map<string, Line>, scale: nat, answers: seq<Answer>, issue: Issue)
    requires !(issue.NotAsked? || issue.Twice? || issue.TooFine? || issue.TooMuch? || issue.Excluded?)
    ensures !LineDeserved(wanted, scale, answers, 0, {}, issue)
  {
  }
}
