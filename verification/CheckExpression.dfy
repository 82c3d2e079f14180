/** introspect.ts of the MySQL and Postgres adapters: taking the outer parentheses off a check expression. */
module CheckExpression {
  import opened Texts
  import CheckClause

  /** The parentheses opened and not closed in the first `i` characters. */
  function Depth(text: string, i: nat): int
    requires i <= |text|
  {
    if i == 0 then 0 else Depth(text, i - 1) + (if text[i - 1] == '(' then 1 else if text[i - 1] == ')' then -1 else 0)
  }

  predicate InPair(text: string) {
    text != "" && text[0] == '(' && text[|text| - 1] == ')'
  }

  /** The first parenthesis is not closed before the last character. */
  predicate Wrapped(text: string) {
    InPair(text) && forall i :: 0 < i < |text| ==> Depth(text, i) != 0
  }

  function Inner(text: string): (inner: string)
    requires InPair(text)
    ensures |inner| < |text|
  {
    assert |text| >= 2;
    Trimmed(text[1..|text| - 1])
  }

  function Trimmed(s: string): (t: string)
    ensures |t| <= |s|
  {
    Trim(s)
  }

  function Strip(text: string): string
    decreases |text|
  {
    if Wrapped(text) then Strip(Inner(text)) else text
  }

  /** The inner loop: whether the pair around the text is one pair. */
  method Wraps(text: string) returns (wraps: bool)
    requires InPair(text)
    ensures wraps <==> Wrapped(text)
  {
    var depth := 0;
    var i := 0;
    wraps := true;
    while i < |text|
      invariant i <= |text| && depth == Depth(text, i)
      invariant forall k :: 0 < k <= i && k < |text| ==> Depth(text, k) != 0
    {
      if text[i] == '(' {
        depth := depth + 1;
      } else if text[i] == ')' {
        depth := depth - 1;
      }
      if depth == 0 && i < |text| - 1 {
        assert Depth(text, i + 1) == 0;
        return false;
      }
      i := i + 1;
    }
  }

  method TakeOff(start: string) returns (text: string)
    ensures text == Strip(start)
  {
    text := start;
    while InPair(text)
      invariant Strip(text) == Strip(start)
      decreases |text|
    {
      var wraps := Wraps(text);
      if !wraps {
        return;
      }
      text := Inner(text);
    }
  }

  method CheckExpressionOf(clause: string) returns (text: string)
    ensures text == Strip(Trim(CheckClause.Normalized(clause)))
  {
    var normalized := CheckClause.NormalizeCheckClause(clause);
    text := TakeOff(Trim(normalized));
  }

  // ---- what is taken off --------------------------------------------------

  predicate Balanced(text: string) {
    Depth(text, |text|) == 0 && forall i :: 0 <= i <= |text| ==> Depth(text, i) >= 0
  }

  predicate AllSpaces(s: string) {
    forall k :: 0 <= k < |s| ==> s[k] in SPACES
  }

  /** A pair of parentheses around `middle`, with what is inside it on either side. */
  function Paired(left: string, middle: string, right: string): string {
    ("(" + left) + middle + (right + ")")
  }

  /** `n` pairs around `inner`, with any white space inside each. */
  ghost predicate Around(text: string, inner: string, n: nat)
    decreases n
  {
    if n == 0 then text == inner
    else exists left, middle, right :: AllSpaces(left) && AllSpaces(right) && text == Paired(left, middle, right) && Around(middle, inner, n - 1)
  }

  lemma {:induction false} DepthIn(a: string, b: string, c: string, i: nat)
    requires i <= |b|
    ensures Depth(a + b + c, |a| + i) == Depth(a, |a|) + Depth(b, i)
    decreases i
  {
    if i > 0 {
      DepthIn(a, b, c, i - 1);
      assert (a + b + c)[|a| + i - 1] == b[i - 1];
    } else {
      DepthPrefix(a, b + c, |a|);
      assert a + b + c == a + (b + c);
    }
  }

  lemma {:induction false} DepthPrefix(a: string, b: string, i: nat)
    requires i <= |a|
    ensures Depth(a + b, i) == Depth(a, i)
    decreases i
  {
    if i > 0 {
      DepthPrefix(a, b, i - 1);
    }
  }

  lemma {:induction false} FlatDepth(s: string, i: nat)
    requires i <= |s| && AllSpaces(s)
    ensures Depth(s, i) == 0
    decreases i
  {
    if i > 0 {
      assert '(' !in SPACES && ')' !in SPACES;
      FlatDepth(s, i - 1);
    }
  }

  lemma LeftParts(s: string)
    ensures var n := |s| - |TrimLeft(s)|; s == s[..n] + TrimLeft(s) && AllSpaces(s[..n])
  {
    hide SPACES, TrimLeft;
    var n := |s| - |TrimLeft(s)|;
    assert s[n..] == TrimLeft(s);
  }

  lemma RightParts(s: string)
    ensures var n := |TrimRight(s)|; n <= |s| && s == TrimRight(s) + s[n..] && AllSpaces(s[n..])
  {
    hide SPACES, TrimRight;
    var n := |TrimRight(s)|;
    assert forall k :: 0 <= k < |s[n..]| ==> s[n..][k] == s[n + k];
  }

  /** Trimming leaves what is between two runs of white space. */
  lemma TrimParts(s: string) returns (left: string, right: string)
    ensures AllSpaces(left) && AllSpaces(right) && s == left + Trim(s) + right
  {
    hide SPACES, TrimLeft, TrimRight, AllSpaces;
    var t := TrimLeft(s);
    LeftParts(s);
    RightParts(t);
    left, right := s[..|s| - |t|], t[|TrimRight(t)|..];
    assert left + (Trim(s) + right) == left + Trim(s) + right;
  }

  /** Inside a pair with only white space before it, every depth is one more. */
  lemma DepthInPair(left: string, middle: string, right: string, i: nat)
    requires i <= |middle| && AllSpaces(left)
    ensures Depth(Paired(left, middle, right), 1 + |left| + i) == 1 + Depth(middle, i)
  {
    hide SPACES, Depth, AllSpaces;
    DepthIn("(" + left, middle, right + ")", i);
    OpenThenFlat(left);
  }

  lemma OpenThenFlat(left: string)
    requires AllSpaces(left)
    ensures Depth("(" + left, |left| + 1) == 1
  {
    hide SPACES;
    DepthIn("(", left, "", |left|);
    assert "(" + left + "" == "(" + left;
    FlatDepth(left, |left|);
    assert Depth("(", 1) == 1;
  }

  /** The pair's own end closes it. */
  lemma DepthAfterPair(left: string, middle: string, right: string)
    requires AllSpaces(left) && AllSpaces(right)
    ensures var text := Paired(left, middle, right); Depth(text, |text|) == Depth(middle, |middle|)
  {
    hide SPACES, Depth, AllSpaces;
    var before := ("(" + left) + middle;
    DepthIn(before, right + ")", "", |right| + 1);
    assert before + (right + ")") + "" == Paired(left, middle, right);
    CloseAfterFlat(right);
    DepthInPair(left, middle, right, |middle|);
    DepthPrefix(before, right + ")", |before|);
  }

  lemma CloseAfterFlat(right: string)
    requires AllSpaces(right)
    ensures Depth(right + ")", |right| + 1) == -1
  {
    hide SPACES, AllSpaces;
    DepthPrefix(right, ")", |right|);
    FlatDepth(right, |right|);
  }

  /** What is in a pair around the whole of a balanced text is balanced. */
  lemma BalancedInPair(left: string, middle: string, right: string)
    requires AllSpaces(left) && AllSpaces(right) && Balanced(Paired(left, middle, right)) && Wrapped(Paired(left, middle, right))
    ensures Balanced(middle)
  {
    hide SPACES, Depth, AllSpaces;
    var text := Paired(left, middle, right);
    DepthAfterPair(left, middle, right);
    forall i | 0 <= i <= |middle|
      ensures Depth(middle, i) >= 0
    {
      DepthInPair(left, middle, right, i);
      assert Depth(text, 1 + |left| + i) != 0;
    }
  }

  lemma PairParts(text: string) returns (left: string, right: string)
    requires InPair(text)
    ensures AllSpaces(left) && AllSpaces(right) && text == Paired(left, Inner(text), right)
  {
    hide SPACES, Depth, AllSpaces, Trim;
    var inside := text[1..|text| - 1];
    left, right := TrimParts(inside);
    assert text == "(" + inside + ")";
  }

  lemma InnerParts(text: string) returns (left: string, right: string)
    requires Wrapped(text)
    ensures AllSpaces(left) && AllSpaces(right) && text == Paired(left, Inner(text), right)
  {
    left, right := PairParts(text);
  }

  /**
   * Of a balanced text exactly its outer pairs are taken off, with the white space inside each, until no pair is around the
   * whole; what is left is balanced.
   */
  lemma {:induction false} StripTakesOuterPairs(text: string) returns (n: nat)
    requires Balanced(text)
    ensures Balanced(Strip(text)) && !Wrapped(Strip(text)) && Around(text, Strip(text), n)
    decreases |text|
  {
    hide Balanced, Depth, AllSpaces, Paired, Inner;
    if Wrapped(text) {
      var left, right := InnerParts(text);
      BalancedInPair(left, Inner(text), right);
      var m := StripTakesOuterPairs(Inner(text));
      n := m + 1;
    } else {
      n := 0;
    }
  }

  lemma AlreadyTrimmed(s: string)
    requires s == "" || (s[0] !in SPACES && s[|s| - 1] !in SPACES)
    ensures Trim(s) == s
  {
    hide SPACES;
    assert TrimLeft(s) == s && TrimRight(s) == s;
  }

  lemma TrimmedOnce(s: string)
    ensures Trim(Trim(s)) == Trim(s)
  {
    hide SPACES, TrimLeft, TrimRight;
    var t := TrimLeft(s);
    var u := TrimRight(t);
    if u != "" {
      assert u[0] == t[0];
    }
    AlreadyTrimmed(u);
  }

  /** What is left has no white space around it, so neither has it a pair behind white space. */
  lemma {:induction false} StripIsTrimmed(text: string)
    requires Trim(text) == text
    ensures Trim(Strip(text)) == Strip(text)
    decreases |text|
  {
    hide Wrapped, Trim;
    if Wrapped(text) {
      WrappedInPair(text);
      TrimmedOnce(text[1..|text| - 1]);
      StripIsTrimmed(Inner(text));
    }
  }

  lemma WrappedInPair(text: string)
    requires Wrapped(text)
    ensures InPair(text) && |text| >= 2 && Inner(text) == Trim(text[1..|text| - 1])
  {
    hide Trim;
    assert |text| >= 2;
  }
}
