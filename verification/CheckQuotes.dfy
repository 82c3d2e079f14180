/**
 * introspect.ts of the MySQL and Postgres adapters: the parentheses taken off a check expression, against those a server means.
 *
 * The loop counts every parenthesis, also one inside a literal. Here a parenthesis counts only outside quotes, and what the loop
 * takes off is compared with the pairs that are there.
 */
module CheckQuotes {
  import opened Wrappers
  import opened Texts
  import opened CheckExpression

  /** The characters that quote: a server's own, and never a parenthesis or white space. */
  predicate Marks(marks: set<char>) {
    '(' !in marks && ')' !in marks && marks !! SPACES
  }

  /** The quote the place `i` is inside, if it is inside one. A doubled quote ends the region and begins it again. */
  function Quoted(text: string, i: nat, marks: set<char>): Option<char>
    requires i <= |text|
  {
    if i == 0 then None
    else
      match Quoted(text, i - 1, marks)
      case None => if text[i - 1] in marks then Some(text[i - 1]) else None
      case Some(mark) => if text[i - 1] == mark then None else Some(mark)
  }

  function Weight(c: char): int {
    if c == '(' then 1 else if c == ')' then -1 else 0
  }

  /** The parentheses outside quotes opened and not closed in the first `i` characters. */
  function RealDepth(text: string, i: nat, marks: set<char>): int
    requires i <= |text|
  {
    if i == 0 then 0 else RealDepth(text, i - 1, marks) + (if Quoted(text, i - 1, marks).Some? then 0 else Weight(text[i - 1]))
  }

  /** One pair of parentheses around the whole text: the first is closed by the last and by nothing before it. */
  predicate RealPair(text: string, marks: set<char>) {
    && InPair(text)
    && Quoted(text, |text| - 1, marks).None?
    && RealDepth(text, |text|, marks) == 0
    && forall i :: 0 < i < |text| ==> RealDepth(text, i, marks) > 0
  }

  /** Taking off the pairs that are there. */
  function StripReal(text: string, marks: set<char>): string
    decreases |text|
  {
    if RealPair(text, marks) then StripReal(Inner(text), marks) else text
  }

  /** Level by level, the loop sees a pair around the whole where there is one, and only there. */
  predicate Agrees(text: string, marks: set<char>)
    decreases |text|
  {
    (Wrapped(text) <==> RealPair(text, marks)) && (Wrapped(text) ==> Agrees(Inner(text), marks))
  }

  lemma {:induction false} StripShorter(text: string, marks: set<char>)
    ensures |Strip(text)| <= |text| && |StripReal(text, marks)| <= |text|
    decreases |text|
  {
    hide Wrapped, RealPair, Inner;
    if Wrapped(text) || RealPair(text, marks) {
      IsInPair(text, marks);
      StripShorter(Inner(text), marks);
    }
  }

  lemma IsInPair(text: string, marks: set<char>)
    requires Wrapped(text) || RealPair(text, marks)
    ensures InPair(text)
  {
  }

  /** The loop takes off exactly the pairs that are there if and only if it sees them right at every level. */
  lemma {:induction false} StripIsRealExactlyWhen(text: string, marks: set<char>)
    ensures Strip(text) == StripReal(text, marks) <==> Agrees(text, marks)
    decreases |text|
  {
    hide Wrapped, RealPair, Inner, InPair;
    if Wrapped(text) || RealPair(text, marks) {
      IsInPair(text, marks);
      StripIsRealExactlyWhen(Inner(text), marks);
      StripShorter(Inner(text), marks);
    }
  }

  /** What is taken off for real: `n` pairs with the white space inside each, none left around the whole. */
  lemma {:induction false} StripRealTakes(text: string, marks: set<char>) returns (n: nat)
    ensures Around(text, StripReal(text, marks), n) && !RealPair(StripReal(text, marks), marks)
    decreases |text|
  {
    hide RealPair, Inner, InPair, AllSpaces, Paired;
    if RealPair(text, marks) {
      IsInPair(text, marks);
      var left, right := PairParts(text);
      var m := StripRealTakes(Inner(text), marks);
      n := m + 1;
    } else {
      n := 0;
    }
  }

  // ---- the parentheses inside literals ------------------------------------

  /** The parentheses inside quotes opened and not closed in the first `i` characters. */
  function QuotedDepth(text: string, i: nat, marks: set<char>): int
    requires i <= |text|
  {
    if i == 0 then 0 else QuotedDepth(text, i - 1, marks) + (if Quoted(text, i - 1, marks).Some? then Weight(text[i - 1]) else 0)
  }

  predicate RealParenthesis(text: string, i: nat, marks: set<char>) {
    i < |text| && (text[i] == '(' || text[i] == ')') && Quoted(text, i, marks).None?
  }

  /** The parentheses of every literal are balanced in themselves: none closes first, and none is open at a parenthesis outside quotes. */
  predicate EvenLiterals(text: string, marks: set<char>) {
    && (forall i :: 0 <= i <= |text| ==> QuotedDepth(text, i, marks) >= 0)
    && (forall i :: 0 <= i < |text| && RealParenthesis(text, i, marks) ==> QuotedDepth(text, i, marks) == 0)
  }

  /** No parenthesis is inside quotes. */
  predicate PlainLiterals(text: string, marks: set<char>) {
    forall i :: 0 <= i < |text| && Quoted(text, i, marks).Some? ==> text[i] != '(' && text[i] != ')'
  }

  lemma {:induction false} NoneQuoted(text: string, i: nat, marks: set<char>)
    requires i <= |text| && PlainLiterals(text, marks)
    ensures QuotedDepth(text, i, marks) == 0
    decreases i
  {
    hide Quoted;
    if i > 0 {
      NoneQuoted(text, i - 1, marks);
    }
  }

  lemma PlainIsEven(text: string, marks: set<char>)
    requires PlainLiterals(text, marks)
    ensures EvenLiterals(text, marks)
  {
    hide Quoted, QuotedDepth, PlainLiterals;
    forall i | 0 <= i <= |text|
      ensures QuotedDepth(text, i, marks) == 0
    {
      NoneQuoted(text, i, marks);
    }
  }

  /** The loop's count is the two together. */
  lemma {:induction false} DepthSplits(text: string, i: nat, marks: set<char>)
    requires i <= |text|
    ensures Depth(text, i) == RealDepth(text, i, marks) + QuotedDepth(text, i, marks)
    decreases i
  {
    hide Quoted;
    if i > 0 {
      DepthSplits(text, i - 1, marks);
    }
  }

  /** Inside what the loop takes for a pair the real depth stays positive as well. */
  lemma {:induction false} StaysReallyOpen(text: string, i: nat, marks: set<char>)
    requires Wrapped(text) && EvenLiterals(text, marks) && 0 < i < |text|
    ensures RealDepth(text, i, marks) > 0
    decreases i
  {
    hide Depth, QuotedDepth, Quoted, EvenLiterals, Wrapped, RealDepth;
    FirstIsReal(text, marks);
    if i > 1 {
      StaysReallyOpen(text, i - 1, marks);
      RealStep(text, i - 1, marks);
      if RealParenthesis(text, i - 1, marks) {
        EvenHere(text, i - 1, marks);
        DepthSplits(text, i - 1, marks);
        DepthStep(text, i - 1);
        StaysOpen(text, i);
      }
    }
  }

  lemma FirstIsReal(text: string, marks: set<char>)
    requires Wrapped(text)
    ensures |text| >= 2 && RealDepth(text, 1, marks) == 1
  {
    assert Quoted(text, 0, marks) == None && RealDepth(text, 0, marks) == 0;
  }

  lemma RealStep(text: string, i: nat, marks: set<char>)
    requires i < |text|
    ensures RealDepth(text, i + 1, marks) == RealDepth(text, i, marks) + (if RealParenthesis(text, i, marks) then Weight(text[i]) else 0)
  {
    hide Quoted;
  }

  lemma EvenHere(text: string, i: nat, marks: set<char>)
    requires EvenLiterals(text, marks) && i <= |text|
    ensures QuotedDepth(text, i, marks) >= 0 && (i < |text| && RealParenthesis(text, i, marks) ==> QuotedDepth(text, i, marks) == 0)
  {
    hide QuotedDepth, RealParenthesis;
  }

  lemma SamePair(text: string, marks: set<char>)
    requires EvenLiterals(text, marks) && Balanced(text)
    ensures Wrapped(text) <==> RealPair(text, marks)
  {
    hide Quoted, Depth, RealDepth, QuotedDepth, EvenLiterals;
    var n := |text|;
    if RealPair(text, marks) {
      forall i | 0 < i < n
        ensures Depth(text, i) > 0
      {
        DepthSplits(text, i, marks);
        EvenHere(text, i, marks);
      }
    }
    if Wrapped(text) {
      FirstIsReal(text, marks);
      forall i | 0 < i < n
        ensures RealDepth(text, i, marks) > 0
      {
        StaysReallyOpen(text, i, marks);
      }
      DepthSplits(text, n, marks);
      EvenHere(text, n, marks);
      RealStep(text, n - 1, marks);
      DepthSplits(text, n - 1, marks);
      EvenHere(text, n - 1, marks);
      DepthStep(text, n - 1);
    }
  }

  lemma {:induction false} QuotedDepthIn(a: string, b: string, c: string, i: nat, marks: set<char>)
    requires i <= |b| && Quoted(a, |a|, marks).None? && QuotedDepth(a, |a|, marks) == 0
    ensures QuotedDepth(a + b + c, |a| + i, marks) == QuotedDepth(b, i, marks)
    decreases i
  {
    hide Quoted;
    if i > 0 {
      QuotedDepthIn(a, b, c, i - 1, marks);
      QuotedIn(a, b, c, i - 1, marks);
      assert (a + b + c)[|a| + i - 1] == b[i - 1];
    } else {
      QuotedDepthPrefix(a, b + c, |a|, marks);
      assert a + b + c == a + (b + c);
    }
  }

  lemma {:induction false} QuotedDepthPrefix(a: string, b: string, i: nat, marks: set<char>)
    requires i <= |a|
    ensures QuotedDepth(a + b, i, marks) == QuotedDepth(a, i, marks)
    decreases i
  {
    hide Quoted;
    if i > 0 {
      QuotedDepthPrefix(a, b, i - 1, marks);
      QuotedPrefix(a, b, i - 1, marks);
    }
  }

  lemma {:induction false} QuotedIn(a: string, b: string, c: string, i: nat, marks: set<char>)
    requires i <= |b| && Quoted(a, |a|, marks).None?
    ensures Quoted(a + b + c, |a| + i, marks) == Quoted(b, i, marks)
    decreases i
  {
    if i > 0 {
      QuotedIn(a, b, c, i - 1, marks);
      assert (a + b + c)[|a| + i - 1] == b[i - 1];
    } else {
      QuotedPrefix(a, b + c, |a|, marks);
      assert a + b + c == a + (b + c);
    }
  }

  lemma {:induction false} QuotedPrefix(a: string, b: string, i: nat, marks: set<char>)
    requires i <= |a|
    ensures Quoted(a + b, i, marks) == Quoted(a, i, marks)
    decreases i
  {
    if i > 0 {
      QuotedPrefix(a, b, i - 1, marks);
    }
  }

  lemma {:induction false} NothingQuoted(s: string, i: nat, marks: set<char>)
    requires i <= |s| && forall k :: 0 <= k < |s| ==> s[k] !in marks
    ensures Quoted(s, i, marks).None?
    decreases i
  {
    if i > 0 {
      NothingQuoted(s, i - 1, marks);
    }
  }

  lemma OpeningUnmarked(left: string, marks: set<char>)
    requires Marks(marks) && AllSpaces(left)
    ensures Quoted("(" + left, |left| + 1, marks).None? && QuotedDepth("(" + left, |left| + 1, marks) == 0
  {
    hide SPACES, Quoted, QuotedDepth;
    var s := "(" + left;
    forall k | 0 <= k < |s|
      ensures s[k] !in marks
    {
      if k > 0 {
        assert s[k] == left[k - 1] && left[k - 1] in SPACES;
      }
    }
    forall k | 0 <= k <= |s|
      ensures Quoted(s, k, marks).None?
    {
      NothingQuoted(s, k, marks);
    }
    NoneQuoted(s, |s|, marks);
  }

  lemma EvenInner(left: string, middle: string, right: string, marks: set<char>)
    requires Marks(marks) && AllSpaces(left) && EvenLiterals(Paired(left, middle, right), marks)
    ensures EvenLiterals(middle, marks)
  {
    hide SPACES, Quoted, QuotedDepth, AllSpaces, Marks;
    var text, before := Paired(left, middle, right), "(" + left;
    OpeningUnmarked(left, marks);
    forall i | 0 <= i <= |middle|
      ensures QuotedDepth(middle, i, marks) >= 0
      ensures i < |middle| && RealParenthesis(middle, i, marks) ==> QuotedDepth(middle, i, marks) == 0
    {
      QuotedDepthIn(before, middle, right + ")", i, marks);
      if i < |middle| {
        QuotedIn(before, middle, right + ")", i, marks);
        assert text[|before| + i] == middle[i];
        assert RealParenthesis(middle, i, marks) ==> RealParenthesis(text, |before| + i, marks);
      }
    }
  }

  /** Of a balanced text whose literals are balanced in themselves the loop takes off exactly the pairs that are there. */
  lemma {:induction false} EvenLiteralsAgree(text: string, marks: set<char>)
    requires Marks(marks) && Balanced(text) && EvenLiterals(text, marks)
    ensures Agrees(text, marks) && Strip(text) == StripReal(text, marks)
    decreases |text|
  {
    hide Marks, Balanced, EvenLiterals, RealPair, Inner, AllSpaces, Paired;
    SamePair(text, marks);
    StripIsRealExactlyWhen(text, marks);
    if Wrapped(text) {
      var left, right := InnerParts(text);
      BalancedInPair(left, Inner(text), right);
      EvenInner(left, Inner(text), right, marks);
      EvenLiteralsAgree(Inner(text), marks);
    }
  }

  /** So of one with no parenthesis in a literal. */
  lemma PlainLiteralsAgree(text: string, marks: set<char>)
    requires Marks(marks) && Balanced(text) && PlainLiterals(text, marks)
    ensures Agrees(text, marks) && Strip(text) == StripReal(text, marks)
  {
    hide Marks, Balanced, PlainLiterals, EvenLiterals, Agrees;
    PlainIsEven(text, marks);
    EvenLiteralsAgree(text, marks);
  }

  // ---- the pair the loop sees ---------------------------------------------

  /** Counting every parenthesis: the first is closed by the last and by nothing before it. */
  predicate OnePair(text: string) {
    InPair(text) && Depth(text, |text|) == 0 && forall i :: 0 < i < |text| ==> Depth(text, i) > 0
  }

  lemma {:induction false} StaysOpen(text: string, i: nat)
    requires Wrapped(text) && 0 < i < |text|
    ensures Depth(text, i) > 0
    decreases i
  {
    if i > 1 {
      StaysOpen(text, i - 1);
      assert Depth(text, i) != 0;
    } else {
      assert Depth(text, 0) == 0;
    }
  }

  /** Where the loop takes parentheses off they are one pair, every parenthesis counted, exactly when as many close as open. */
  lemma WrappedIsOnePairExactlyWhen(text: string)
    requires Wrapped(text)
    ensures OnePair(text) <==> Depth(text, |text|) == 0
  {
    hide Depth;
    forall i | 0 < i < |text|
      ensures Depth(text, i) > 0
    {
      StaysOpen(text, i);
    }
  }

  // ---- a parenthesis in a literal -----------------------------------------

  const SERVER_MARKS: set<char> := {'\'', '"', '`'}

  /** As a server keeps `(a = '(') or (b = ')')`, less the pair it puts around the whole. */
  const EITHER := "(`a` = '(') or (`b` = ')')"

  lemma DepthStep(text: string, i: nat)
    requires i < |text|
    ensures Depth(text, i + 1) == Depth(text, i) + Weight(text[i])
  {
  }

  lemma EitherOpens(text: string)
    requires text == "(`a` = '(') "
    ensures Depth(text, 12) == 1 && forall i :: 0 < i <= 12 ==> Depth(text, i) > 0
  {
    hide Depth;
    NoDepth(text);
    DepthStep(text, 0);
    DepthStep(text, 1);
    DepthStep(text, 2);
    DepthStep(text, 3);
    DepthStep(text, 4);
    DepthStep(text, 5);
    DepthStep(text, 6);
    DepthStep(text, 7);
    DepthStep(text, 8);
    DepthStep(text, 9);
    DepthStep(text, 10);
    DepthStep(text, 11);
  }

  lemma EitherCloses(text: string)
    requires text == "or (`b` = ')')"
    ensures Depth(text, 14) == -1 && forall i :: 0 <= i < 14 ==> Depth(text, i) >= 0
  {
    hide Depth;
    NoDepth(text);
    DepthStep(text, 0);
    DepthStep(text, 1);
    DepthStep(text, 2);
    DepthStep(text, 3);
    DepthStep(text, 4);
    DepthStep(text, 5);
    DepthStep(text, 6);
    DepthStep(text, 7);
    DepthStep(text, 8);
    DepthStep(text, 9);
    DepthStep(text, 10);
    DepthStep(text, 11);
    DepthStep(text, 12);
    DepthStep(text, 13);
  }

  lemma EitherDepths(text: string)
    requires text == EITHER
    ensures Balanced(text) && Wrapped(text)
  {
    hide Depth;
    var a, b := "(`a` = '(') ", "or (`b` = ')')";
    assert text == a + b + "" && a + b == text;
    EitherOpens(a);
    EitherCloses(b);
    forall i | 0 <= i <= |text|
      ensures Depth(text, i) == if i <= 12 then Depth(a, i) else 1 + Depth(b, i - 12)
    {
      if i <= 12 {
        DepthPrefix(a, b, i);
      } else {
        DepthIn(a, b, "", i - 12);
      }
    }
    assert Depth(text, 0) == 0 by { NoDepth(text); }
  }

  lemma NoDepth(text: string)
    ensures Depth(text, 0) == 0
  {
  }

  lemma QuoteStep(text: string, i: nat, marks: set<char>)
    requires i < |text|
    ensures Quoted(text, i + 1, marks) ==
            match Quoted(text, i, marks)
            case None => if text[i] in marks then Some(text[i]) else None
            case Some(mark) => if text[i] == mark then None else Some(mark)
    ensures RealDepth(text, i + 1, marks) == RealDepth(text, i, marks) + (if Quoted(text, i, marks).Some? then 0 else Weight(text[i]))
  {
  }

  lemma NothingYet(text: string, marks: set<char>)
    ensures Quoted(text, 0, marks) == None && RealDepth(text, 0, marks) == 0
  {
  }

  lemma EitherBegins(text: string, marks: set<char>)
    requires text == EITHER && marks == SERVER_MARKS
    ensures Quoted(text, 7, marks) == None && RealDepth(text, 7, marks) == 1
  {
    hide Quoted, RealDepth;
    NothingYet(text, marks);
    QuoteStep(text, 0, marks);
    QuoteStep(text, 1, marks);
    QuoteStep(text, 2, marks);
    QuoteStep(text, 3, marks);
    QuoteStep(text, 4, marks);
    QuoteStep(text, 5, marks);
    QuoteStep(text, 6, marks);
  }

  lemma EitherApart(text: string, marks: set<char>)
    requires text == EITHER && marks == SERVER_MARKS
    ensures RealDepth(text, 11, marks) == 0 && !RealPair(text, marks)
  {
    hide Quoted, RealDepth;
    EitherBegins(text, marks);
    QuoteStep(text, 7, marks);
    QuoteStep(text, 8, marks);
    QuoteStep(text, 9, marks);
    QuoteStep(text, 10, marks);
  }

  lemma InnerOf(text: string, inside: string)
    requires text == "(" + inside + ")" && Trim(inside) == inside
    ensures InPair(text) && Inner(text) == inside
  {
    hide Trim;
    assert text[1..|text| - 1] == inside;
  }

  lemma EitherInner()
    ensures Inner(EITHER) == "`a` = '(') or (`b` = ')'" && !InPair(Inner(EITHER))
  {
    hide SPACES, Inner, Trim;
    var inside := "`a` = '(') or (`b` = ')'";
    assert EITHER == "(" + inside + ")";
    MarksNotSpaces();
    AlreadyTrimmed(inside);
    InnerOf(EITHER, inside);
  }

  lemma MarksNotSpaces()
    ensures '`' !in SPACES && '\'' !in SPACES && '(' !in SPACES && ')' !in SPACES
  {
  }

  /** A pair put around a balanced text is seen, and taken off again. */
  lemma PairAround(text: string)
    requires Balanced(text) && Trim(text) == text
    ensures Wrapped("(" + text + ")") && Inner("(" + text + ")") == text
  {
    hide Trim, Depth;
    var outer := "(" + text + ")";
    assert outer[1..|outer| - 1] == text;
    forall i | 0 < i < |outer|
      ensures Depth(outer, i) != 0
    {
      DepthIn("(", text, ")", i - 1);
      assert Depth("(", 1) == 1 by { OpenDepth(); }
      assert Depth(text, i - 1) >= 0;
    }
  }

  lemma OpenDepth()
    ensures Depth("(", 1) == 1
  {
    assert Depth("(", 0) == 0;
  }

  /**
   * Two comparisons, each with a parenthesis in its literal, kept as a server keeps them: balanced, and after the pair around the
   * whole the loop takes off the first one's opening and the second one's closing parenthesis.
   */
  lemma ParenthesesInLiterals()
    ensures Balanced(EITHER) && Wrapped(EITHER) && !RealPair(EITHER, SERVER_MARKS) && !Agrees(EITHER, SERVER_MARKS)
    ensures Strip(EITHER) == "`a` = '(') or (`b` = ')'" && StripReal(EITHER, SERVER_MARKS) == EITHER
    ensures Strip("(" + EITHER + ")") == "`a` = '(') or (`b` = ')'"
  {
    hide Depth, RealDepth, Quoted, Inner, Trim;
    EitherDepths(EITHER);
    EitherApart(EITHER, SERVER_MARKS);
    EitherInner();
    EitherTrimmed();
    PairAround(EITHER);
  }

  lemma EitherTrimmed()
    ensures Trim(EITHER) == EITHER
  {
    hide SPACES, Trim;
    MarksNotSpaces();
    AlreadyTrimmed(EITHER);
  }
}
