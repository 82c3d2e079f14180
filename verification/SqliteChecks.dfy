/** introspect.ts of the SQLite adapter: finding the CHECK constraints of a CREATE TABLE statement by hand. */
module SqliteChecks {
  import opened Wrappers
  import opened Texts
  import QuotedLiterals

  // ---- quoted regions -----------------------------------------------------

  predicate OpensQuote(c: char) {
    c == '\'' || c == '"' || c == '`' || c == '['
  }

  function CloserOf(open: char): char {
    if open == '[' then ']' else open
  }

  /** The place after the quoted region, from `j` inside it. */
  function AfterQuoted(s: string, close: char, j: nat): (end: nat)
    requires j <= |s|
    ensures j <= end <= |s| && (j < |s| ==> j < end)
    decreases |s| - j
  {
    if j == |s| then j
    else if s[j] != close then AfterQuoted(s, close, j + 1)
    else if close != ']' && j + 1 < |s| && s[j + 1] == close then AfterQuoted(s, close, j + 2)
    else j + 1
  }

  method SkipQuoted(s: string, i: nat) returns (end: nat)
    requires i < |s| && OpensQuote(s[i])
    ensures end == AfterQuoted(s, CloserOf(s[i]), i + 1)
  {
    var close := if s[i] == '[' then ']' else s[i];
    var j := i + 1;
    while j < |s|
      invariant j <= |s| && AfterQuoted(s, close, j) == AfterQuoted(s, close, i + 1)
    {
      if s[j] == close {
        if close != ']' && j + 1 < |s| && s[j + 1] == close {
          j := j + 2;
          continue;
        }
        return j + 1;
      }
      j := j + 1;
    }
    return j;
  }

  /** Where the next token starts: after a quoted region, or after one character. */
  function Next(s: string, i: nat): (n: nat)
    requires i < |s|
    ensures i < n <= |s|
  {
    if OpensQuote(s[i]) then AfterQuoted(s, CloserOf(s[i]), i + 1) else i + 1
  }

  // ---- the parenthesis that closes ----------------------------------------

  /** From the token at `e`, inside `depth` parentheses: the one that closes them all, or the end of the text. */
  function CloseFrom(s: string, e: nat, depth: int): (close: nat)
    requires e <= |s|
    ensures e <= close <= |s|
    decreases |s| - e
  {
    if e == |s| then e
    else if s[e] == ')' && depth == 1 then e
    else CloseFrom(s, Next(s, e), depth + Weight(s[e]))
  }

  function Weight(c: char): int {
    if c == '(' then 1 else if c == ')' then -1 else 0
  }

  method FindClose(s: string, k: nat) returns (end: nat)
    requires k <= |s|
    ensures end == CloseFrom(s, k, 0)
  {
    var depth := 0;
    end := k;
    while end < |s|
      invariant end <= |s| && CloseFrom(s, end, depth) == CloseFrom(s, k, 0)
      decreases |s| - end
    {
      var c := s[end];
      if OpensQuote(c) {
        end := SkipQuoted(s, end);
        continue;
      }
      if c == '(' {
        depth := depth + 1;
      } else if c == ')' {
        depth := depth - 1;
        if depth == 0 {
          break;
        }
      }
      end := end + 1;
    }
  }

  // ---- words and comments -------------------------------------------------

  predicate StartsWord(c: char) {
    IsLetter(c) || c == '_'
  }

  predicate InWord(c: char) {
    IsWord(c) || c == '$'
  }

  function WordEnd(s: string, i: nat): (j: nat)
    requires i <= |s|
    ensures i <= j <= |s| && (forall k :: i <= k < j ==> InWord(s[k])) && (j < |s| ==> !InWord(s[j]))
    ensures i < |s| && InWord(s[i]) ==> i < j
    decreases |s| - i
  {
    if i < |s| && InWord(s[i]) then WordEnd(s, i + 1) else i
  }

  function UpperChar(c: char): char {
    if 'a' <= c <= 'z' then (c as int - 32) as char else c
  }

  function Upper(s: string): (u: string)
    ensures |u| == |s| && forall k :: 0 <= k < |s| ==> u[k] == UpperChar(s[k])
  {
    if s == "" then "" else [UpperChar(s[0])] + Upper(s[1..])
  }

  /** The end of a comment: after its line. */
  function CommentEnd(s: string, i: nat): (n: nat)
    requires i < |s|
    ensures i < n <= |s|
  {
    match QuotedLiterals.IndexOf(s, '\n', i) case None => |s| case Some(at) => at + 1
  }

  /** The first opening parenthesis from `j` on, or the end. */
  function OpenFrom(s: string, j: nat): (k: nat)
    requires j <= |s|
    ensures j <= k <= |s| && (k < |s| ==> s[k] == '(') && forall n :: j <= n < k ==> s[n] != '('
    decreases |s| - j
  {
    if j == |s| || s[j] == '(' then j else OpenFrom(s, j + 1)
  }

  // ---- scanCheckConstraints -----------------------------------------------

  datatype Check = Check(name: Option<string>, expression: string)

  /** Where a constraint was found: its word, its opening parenthesis, and the one that closes it or the end of the text. */
  datatype Found = Found(name: Option<string>, at: nat, open: nat, close: nat)

  /** `CONSTRAINT <name>` immediately before. */
  function NameBefore(tokens: seq<string>): Option<string> {
    if |tokens| >= 2 && Upper(tokens[|tokens| - 2]) == "CONSTRAINT" then Some(tokens[|tokens| - 1]) else None
  }

  /** `ddl.slice(i + 1, end - 1)`. */
  function QuotedText(s: string, i: nat, end: nat): string
    requires i < end <= |s|
  {
    if i + 1 <= end - 1 then s[i + 1..end - 1] else ""
  }

  /** What the scan does at one place: where it goes on, what it has seen, and the constraint it found. */
  datatype Token = Token(next: nat, tokens: seq<string>, found: Option<Found>)

  function TokenAt(s: string, i: nat, tokens: seq<string>): (t: Token)
    requires i < |s|
    ensures i < t.next
  {
    if OpensQuote(s[i]) then Token(Next(s, i), tokens + [QuotedText(s, i, Next(s, i))], None)
    else if s[i] == '-' && i + 1 < |s| && s[i + 1] == '-' then Token(CommentEnd(s, i), tokens, None)
    else if StartsWord(s[i]) then WordAt(s, i, tokens)
    else Token(i + 1, tokens, None)
  }

  function WordAt(s: string, i: nat, tokens: seq<string>): (t: Token)
    requires i < |s| && StartsWord(s[i])
    ensures i < t.next
  {
    var j := WordEnd(s, i);
    if Upper(s[i..j]) == "CHECK" then
      var open := OpenFrom(s, j);
      var close := CloseFrom(s, open, 0);
      Token(close + 1, tokens + [s[i..j]], if open < |s| && close > open then Some(Found(NameBefore(tokens), i, open, close)) else None)
    else Token(j, tokens + [s[i..j]], None)
  }

  function ScanFrom(s: string, i: nat, tokens: seq<string>): seq<Found>
    decreases |s| - i
  {
    if i >= |s| then []
    else
      var t := TokenAt(s, i, tokens);
      (if t.found.Some? then [t.found.value] else []) + ScanFrom(s, t.next, t.tokens)
  }

  function CheckOf(s: string, f: Found): Check {
    Check(f.name, if f.open < f.close <= |s| then Trim(s[f.open + 1..f.close]) else "")
  }

  function Checks(s: string, found: seq<Found>): seq<Check> {
    if found == [] then [] else Checks(s, found[..|found| - 1]) + [CheckOf(s, found[|found| - 1])]
  }

  lemma {:induction false} ChecksAre(s: string, found: seq<Found>)
    ensures |Checks(s, found)| == |found| && forall k :: 0 <= k < |found| ==> Checks(s, found)[k] == CheckOf(s, found[k])
    decreases |found|
  {
    hide CheckOf;
    if found != [] {
      ChecksAre(s, found[..|found| - 1]);
    }
  }

  method ScanCheckConstraints(s: string) returns (results: seq<Check>)
    ensures results == Checks(s, ScanFrom(s, 0, []))
  {
    hide TokenAt, Trim, Checks, CheckOf, ScanFrom;
    results := [];
    ghost var found: seq<Found> := [];
    ChecksAre(s, found);
    var tokens: seq<string> := [];
    var i := 0;
    while i < |s|
      invariant found + ScanFrom(s, i, tokens) == ScanFrom(s, 0, []) && results == Checks(s, found)
      decreases |s| - i
    {
      ghost var t := TokenAt(s, i, tokens);
      var check;
      ScanStep(s, i, tokens);
      i, tokens, check := TakeToken(s, i, tokens);
      if check.Some? {
        OneMoreCheck(s, found, t.found.value);
        results := results + [check.value];
        found := found + [t.found.value];
      }
    }
    ScanEnds(s, i, tokens);
    assert found + [] == found;
  }

  lemma ScanStep(s: string, i: nat, tokens: seq<string>)
    requires i < |s|
    ensures var t := TokenAt(s, i, tokens);
            ScanFrom(s, i, tokens) == (if t.found.Some? then [t.found.value] else []) + ScanFrom(s, t.next, t.tokens)
  {
    hide TokenAt;
  }

  lemma ScanEnds(s: string, i: nat, tokens: seq<string>)
    requires i >= |s|
    ensures ScanFrom(s, i, tokens) == []
  {
  }

  lemma OneMoreCheck(s: string, found: seq<Found>, f: Found)
    ensures Checks(s, found + [f]) == Checks(s, found) + [CheckOf(s, f)]
  {
    hide CheckOf;
    assert (found + [f])[..|found|] == found;
  }

  /** One turn of the scan's loop. */
  method TakeToken(s: string, i: nat, tokens: seq<string>) returns (next: nat, more: seq<string>, check: Option<Check>)
    requires i < |s|
    ensures var t := TokenAt(s, i, tokens);
            && next == t.next && more == t.tokens
            && check == (if t.found.Some? then Some(CheckOf(s, t.found.value)) else None)
  {
    hide WordAt, CheckOf;
    var ch := s[i];
    check := None;
    if OpensQuote(ch) {
      next := SkipQuoted(s, i);
      more := tokens + [QuotedText(s, i, next)];
    } else if ch == '-' && i + 1 < |s| && s[i + 1] == '-' {
      next, more := CommentEnd(s, i), tokens;
    } else if StartsWord(ch) {
      next, more, check := TakeWord(s, i, tokens);
    } else {
      next, more := i + 1, tokens;
    }
  }

  method TakeWord(s: string, i: nat, tokens: seq<string>) returns (next: nat, more: seq<string>, check: Option<Check>)
    requires i < |s| && StartsWord(s[i])
    ensures var t := WordAt(s, i, tokens);
            && next == t.next && more == t.tokens
            && check == (if t.found.Some? then Some(CheckOf(s, t.found.value)) else None)
  {
    hide Upper, NameBefore, CloseFrom, Trim;
    var j := i;
    while j < |s| && InWord(s[j])
      invariant i <= j <= |s| && WordEnd(s, j) == WordEnd(s, i)
    {
      j := j + 1;
    }
    var word := s[i..j];
    next, more, check := j, tokens + [word], None;
    if Upper(word) == "CHECK" {
      var name := NameBefore(tokens);
      var k := j;
      while k < |s| && s[k] != '('
        invariant j <= k <= |s| && OpenFrom(s, k) == OpenFrom(s, j)
      {
        k := k + 1;
      }
      var end := FindClose(s, k);
      if k < |s| && end > k {
        check := Some(Check(name, Trim(s[k + 1..end])));
      }
      next := end + 1;
    }
  }

  // ---- what is found ------------------------------------------------------

  /** The depth of parentheses at the token `to`, counted from the token `from`; nothing where no token starts. */
  function DepthAt(s: string, from: nat, to: nat): Option<int>
    requires from <= |s|
    decreases |s| - from
  {
    if from == to then Some(0)
    else if from > to || from == |s| then None
    else match DepthAt(s, Next(s, from), to) case Some(d) => Some(d + Weight(s[from])) case None => None
  }

  /** `close` is the parenthesis that closes `open`, quoted text not counted. */
  ghost predicate Matching(s: string, open: nat, close: nat) {
    && open < close < |s| && s[open] == '(' && s[close] == ')'
    && DepthAt(s, open, close) == Some(1)
    && forall e :: open < e <= close && DepthAt(s, open, e).Some? ==> DepthAt(s, open, e).value >= 1
  }

  /** From the token `e` at a positive depth: until the place found the depth stays positive, and there it is one. */
  lemma {:induction false} CloseFromMatches(s: string, e: nat, depth: int)
    requires e <= |s| && depth >= 1
    ensures var close := CloseFrom(s, e, depth);
            && (close < |s| ==> s[close] == ')' && DepthAt(s, e, close) == Some(1 - depth))
            && (forall n :: e <= n <= close && DepthAt(s, e, n).Some? ==> DepthAt(s, e, n).value + depth >= 1)
    decreases |s| - e
  {
    if e < |s| && !(s[e] == ')' && depth == 1) {
      CloseFromMatches(s, Next(s, e), depth + Weight(s[e]));
    }
  }

  lemma OpenMatches(s: string, open: nat)
    requires open < |s| && s[open] == '('
    ensures var close := CloseFrom(s, open, 0); open < close && (close < |s| ==> Matching(s, open, close))
  {
    hide Next;
    NextOfOpen(s, open);
    CloseFromMatches(s, open + 1, 1);
    var close := CloseFrom(s, open, 0);
    assert close == CloseFrom(s, open + 1, 1);
    forall e | open < e <= close && DepthAt(s, open, e).Some?
      ensures DepthAt(s, open, e).value >= 1
    {
      assert DepthAt(s, open + 1, e).Some?;
    }
  }

  lemma {:induction false} MatchFrom(s: string, e: nat, depth: int, close: nat)
    requires e <= close < |s| && depth >= 1 && s[close] == ')' && DepthAt(s, e, close) == Some(1 - depth)
    requires forall n :: e <= n <= close && DepthAt(s, e, n).Some? ==> DepthAt(s, e, n).value + depth >= 1
    ensures CloseFrom(s, e, depth) == close
    decreases |s| - e
  {
    if e < close {
      var next := Next(s, e);
      assert DepthAt(s, next, next) == Some(0) && DepthAt(s, e, next) == Some(Weight(s[e]));
      forall n | next <= n <= close && DepthAt(s, next, n).Some?
        ensures DepthAt(s, next, n).value + depth + Weight(s[e]) >= 1
      {
        assert DepthAt(s, e, n) == Some(DepthAt(s, next, n).value + Weight(s[e]));
      }
      MatchFrom(s, next, depth + Weight(s[e]), close);
    }
  }

  /** A parenthesis is closed by one place at most, and the scan stops there exactly when there is one. */
  lemma FoundExactlyWhenMatching(s: string, open: nat, close: nat)
    requires open < |s| && s[open] == '(' && close < |s|
    ensures CloseFrom(s, open, 0) == close <==> Matching(s, open, close)
  {
    hide Next;
    OpenMatches(s, open);
    if Matching(s, open, close) {
      NextOfOpen(s, open);
      var e := open + 1;
      forall n | e <= n <= close && DepthAt(s, e, n).Some?
        ensures DepthAt(s, e, n).value + 1 >= 1
      {
        assert DepthAt(s, open, n) == Some(DepthAt(s, e, n).value + 1);
      }
      MatchFrom(s, e, 1, close);
    }
  }

  lemma NextOfOpen(s: string, open: nat)
    requires open < |s| && s[open] == '('
    ensures Next(s, open) == open + 1
  {
  }

  /** A constraint is where the scan says: at a word CHECK, its opening parenthesis the first after it, closed by the one that matches. */
  ghost predicate FoundOk(s: string, f: Found) {
    && f.at < f.open < f.close <= |s| && s[f.open] == '('
    && StartsWord(s[f.at])
    && (var j := WordEnd(s, f.at); Upper(s[f.at..j]) == "CHECK" && OpenFrom(s, j) == f.open)
    && (f.close < |s| ==> Matching(s, f.open, f.close))
  }

  /** Each ends before the next begins. */
  ghost predicate InOrder(found: seq<Found>, from: nat) {
    && (forall k :: 0 <= k < |found| ==> from <= found[k].at)
    && (forall k :: 0 < k < |found| ==> found[k - 1].close < found[k].at)
  }

  lemma TokenFinds(s: string, i: nat, tokens: seq<string>)
    requires i < |s|
    ensures var t := TokenAt(s, i, tokens); t.found.Some? ==> FoundOk(s, t.found.value) && i <= t.found.value.at && t.found.value.close < t.next
  {
    hide Upper, Matching, CloseFrom, NameBefore, Next, CommentEnd;
    if !OpensQuote(s[i]) && StartsWord(s[i]) {
      var open := OpenFrom(s, WordEnd(s, i));
      if open < |s| {
        OpenMatches(s, open);
      }
    }
  }

  lemma {:induction false} ScanFinds(s: string, i: nat, tokens: seq<string>)
    ensures var found := ScanFrom(s, i, tokens);
            (forall k :: 0 <= k < |found| ==> FoundOk(s, found[k])) && InOrder(found, i)
    decreases |s| - i
  {
    hide TokenAt, FoundOk;
    if i < |s| {
      var t := TokenAt(s, i, tokens);
      TokenFinds(s, i, tokens);
      ScanFinds(s, t.next, t.tokens);
    }
  }

  // ---- none missed --------------------------------------------------------

  /** Where the next token starts: after a quoted region, a comment, a word, a constraint's closing parenthesis, or any other character. */
  function LexNext(s: string, i: nat): (n: nat)
    requires i < |s|
    ensures i < n
  {
    if OpensQuote(s[i]) then Next(s, i)
    else if s[i] == '-' && i + 1 < |s| && s[i + 1] == '-' then CommentEnd(s, i)
    else if StartsWord(s[i]) then
      var j := WordEnd(s, i);
      if Upper(s[i..j]) == "CHECK" then CloseFrom(s, OpenFrom(s, j), 0) + 1 else j
    else i + 1
  }

  /** A token starts at `i`, reading from `from`. */
  predicate AtToken(s: string, from: nat, i: nat)
    decreases |s| - from
  {
    from == i || (from < i && from < |s| && AtToken(s, LexNext(s, from), i))
  }

  /** The word CHECK is at `i`, in whatever case, with an opening parenthesis somewhere after it. */
  predicate IsCheck(s: string, i: nat) {
    && i < |s| && WordEnd(s, i) == i + 5
    && s[i] in {'c', 'C'} && s[i + 1] in {'h', 'H'} && s[i + 2] in {'e', 'E'} && s[i + 3] in {'c', 'C'} && s[i + 4] in {'k', 'K'}
    && exists k :: i + 5 <= k < |s| && s[k] == '('
  }

  lemma UpperIs(c: char, lower: char, upper: char)
    requires 'a' <= lower <= 'z' && upper as int == lower as int - 32
    ensures UpperChar(c) == upper <==> c in {lower, upper}
  {
  }

  lemma UpperCheck(w: string)
    ensures Upper(w) == "CHECK" <==>
            |w| == 5 && w[0] in {'c', 'C'} && w[1] in {'h', 'H'} && w[2] in {'e', 'E'} && w[3] in {'c', 'C'} && w[4] in {'k', 'K'}
  {
    hide Upper, UpperChar;
    if |w| == 5 {
      UpperIs(w[0], 'c', 'C');
      UpperIs(w[1], 'h', 'H');
      UpperIs(w[2], 'e', 'E');
      UpperIs(w[3], 'c', 'C');
      UpperIs(w[4], 'k', 'K');
      assert Upper(w) == "CHECK" <==>
        Upper(w)[0] == 'C' && Upper(w)[1] == 'H' && Upper(w)[2] == 'E' && Upper(w)[3] == 'C' && Upper(w)[4] == 'K';
    }
  }

  lemma CheckIs(s: string, i: nat)
    ensures IsCheck(s, i) <==> i < |s| && StartsWord(s[i]) && Upper(s[i..WordEnd(s, i)]) == "CHECK" && OpenFrom(s, WordEnd(s, i)) < |s|
  {
    hide Upper, WordEnd, OpenFrom;
    if i < |s| {
      var j := WordEnd(s, i);
      UpperCheck(s[i..j]);
      if j == i + 5 {
        assert forall n :: 0 <= n < 5 ==> s[i..j][n] == s[i + n];
        if OpenFrom(s, j) < |s| {
          assert s[OpenFrom(s, j)] == '(';
        }
      }
    }
  }

  lemma {:induction false} TokensAhead(s: string, from: nat, i: nat)
    requires AtToken(s, from, i)
    ensures from <= i
  {
  }

  /** Nothing inside a quoted region, a comment, a word or a constraint starts a token. */
  lemma {:induction false} NoTokenInside(s: string, from: nat, a: nat, i: nat)
    requires AtToken(s, from, a) && a < |s| && a < i < LexNext(s, a)
    ensures !AtToken(s, from, i)
    decreases |s| - from
  {
    hide LexNext;
    if from == a {
      if AtToken(s, LexNext(s, from), i) {
        TokensAhead(s, LexNext(s, from), i);
      }
    } else {
      TokensAhead(s, from, a);
      NoTokenInside(s, LexNext(s, from), a, i);
    }
  }

  /** One turn of the scan moves to the next token, and finds a constraint exactly at a CHECK. */
  lemma TokenLexed(s: string, i: nat, tokens: seq<string>)
    requires i < |s|
    ensures var t := TokenAt(s, i, tokens);
            && t.next == LexNext(s, i)
            && (t.found.Some? <==> IsCheck(s, i))
            && (t.found.Some? ==> t.found.value.at == i)
  {
    hide Upper, CloseFrom, NameBefore, Next, CommentEnd, IsCheck;
    CheckIs(s, i);
    if StartsWord(s[i]) && OpenFrom(s, WordEnd(s, i)) < |s| {
      OpenMatches(s, OpenFrom(s, WordEnd(s, i)));
    }
  }

  ghost predicate FoundAt(found: seq<Found>, i: nat) {
    exists k :: 0 <= k < |found| && found[k].at == i
  }

  lemma FoundFirst(f: Found, rest: seq<Found>, i: nat)
    ensures FoundAt([f] + rest, i) <==> f.at == i || FoundAt(rest, i)
  {
    if FoundAt(rest, i) {
      var k :| 0 <= k < |rest| && rest[k].at == i;
      assert ([f] + rest)[k + 1].at == i;
    }
    assert ([f] + rest)[0] == f;
    if FoundAt([f] + rest, i) && f.at != i {
      var k :| 0 <= k < |[f] + rest| && ([f] + rest)[k].at == i;
      assert rest[k - 1].at == i;
    }
  }

  /** A constraint is found at a place if and only if a token starts there and it is a CHECK with a parenthesis after it. */
  lemma {:induction false} FoundExactlyAtChecks(s: string, from: nat, tokens: seq<string>, i: nat)
    ensures FoundAt(ScanFrom(s, from, tokens), i) <==> AtToken(s, from, i) && IsCheck(s, i)
    decreases |s| - from
  {
    hide TokenAt, LexNext, IsCheck, FoundAt;
    if from >= |s| {
      NoneFound(s, i);
      if AtToken(s, from, i) {
        TokensAhead(s, from, i);
      }
    } else {
      var t := TokenAt(s, from, tokens);
      var rest := ScanFrom(s, t.next, t.tokens);
      TokenLexed(s, from, tokens);
      FoundExactlyAtChecks(s, t.next, t.tokens, i);
      if t.found.Some? {
        FoundFirst(t.found.value, rest, i);
      } else {
        assert [] + rest == rest;
      }
      if AtToken(s, t.next, i) {
        TokensAhead(s, t.next, i);
      }
    }
  }

  lemma NoneFound(s: string, i: nat)
    ensures !FoundAt([], i) && (i >= |s| ==> !IsCheck(s, i))
  {
  }

  /**
   * Every expression is the trimmed text between a CHECK's parenthesis and the one that matches it, in order and apart; the
   * CHECK is a token of its own, outside quotes, comments, longer words and earlier constraints.
   */
  lemma ChecksAreTheirText(s: string, k: nat)
    requires k < |ScanFrom(s, 0, [])|
    ensures var f := ScanFrom(s, 0, [])[k];
            && FoundOk(s, f) && AtToken(s, 0, f.at)
            && k < |Checks(s, ScanFrom(s, 0, []))|
            && Checks(s, ScanFrom(s, 0, []))[k].expression == Trim(s[f.open + 1..f.close])
            && (k > 0 ==> ScanFrom(s, 0, [])[k - 1].close < f.at)
  {
    hide Upper, Matching, CloseFrom, NameBefore, ScanFrom, Trim, AtToken, IsCheck;
    ScanFinds(s, 0, []);
    ChecksAre(s, ScanFrom(s, 0, []));
    FoundExactlyAtChecks(s, 0, [], ScanFrom(s, 0, [])[k].at);
  }

  // ---- the name of a constraint -------------------------------------------

  /** What a token counts as: the text inside quotes, or a word; a comment or any other character as nothing. */
  function TextAt(s: string, i: nat): seq<string>
    requires i < |s|
  {
    if OpensQuote(s[i]) then [if Next(s, i) - 1 >= i + 1 then s[i + 1..Next(s, i) - 1] else ""]
    else if StartsWord(s[i]) then [s[i..WordEnd(s, i)]]
    else []
  }

  /** The texts of the tokens from `from` up to `to`, in order. */
  function TextsTo(s: string, from: nat, to: nat): seq<string>
    decreases |s| - from
  {
    if from >= to || from >= |s| then [] else TextAt(s, from) + TextsTo(s, LexNext(s, from), to)
  }

  lemma TokenTexts(s: string, i: nat, tokens: seq<string>)
    requires i < |s|
    ensures var t := TokenAt(s, i, tokens);
            t.tokens == tokens + TextAt(s, i) && (t.found.Some? ==> t.found.value.name == NameBefore(tokens))
  {
    hide Upper, CloseFrom, NameBefore, Next, CommentEnd;
    assert tokens + [] == tokens;
  }

  /** A constraint found is named by the tokens before its word. */
  lemma {:induction false} ScanNames(s: string, i: nat, tokens: seq<string>, k: nat)
    requires k < |ScanFrom(s, i, tokens)|
    ensures var f := ScanFrom(s, i, tokens)[k]; f.name == NameBefore(tokens + TextsTo(s, i, f.at))
    decreases |s| - i
  {
    hide TokenAt, LexNext, IsCheck, NameBefore, TextAt, TextsTo;
    var t := TokenAt(s, i, tokens);
    TokenTexts(s, i, tokens);
    TokenLexed(s, i, tokens);
    NoTextsYet(s, i);
    assert tokens + [] == tokens;
    var rest := ScanFrom(s, t.next, t.tokens);
    if t.found.Some? && k == 0 {
      assert ScanFrom(s, i, tokens)[0] == t.found.value;
    } else {
      var n := if t.found.Some? then k - 1 else k;
      var f := rest[n];
      assert ScanFrom(s, i, tokens)[k] == f;
      ScanNames(s, t.next, t.tokens, n);
      LaterIn(s, t.next, t.tokens, n);
      TextsGoOn(s, i, f.at);
      assert tokens + (TextAt(s, i) + TextsTo(s, t.next, f.at)) == (tokens + TextAt(s, i)) + TextsTo(s, t.next, f.at);
    }
  }

  lemma NoTextsYet(s: string, i: nat)
    ensures TextsTo(s, i, i) == []
  {
  }

  lemma TextsGoOn(s: string, from: nat, to: nat)
    requires from < to && from < |s|
    ensures TextsTo(s, from, to) == TextAt(s, from) + TextsTo(s, LexNext(s, from), to)
  {
    hide TextAt, LexNext;
  }

  lemma LaterIn(s: string, i: nat, tokens: seq<string>, n: nat)
    requires n < |ScanFrom(s, i, tokens)|
    ensures ScanFrom(s, i, tokens)[n].at >= i
  {
    hide ScanFrom, FoundOk;
    ScanFinds(s, i, tokens);
  }

  /** A constraint has a name exactly when the last two tokens before its word are the word CONSTRAINT, in whatever case, and that name. */
  lemma NamedExactlyWhen(s: string, k: nat, name: string)
    requires k < |ScanFrom(s, 0, [])|
    ensures var f := ScanFrom(s, 0, [])[k];
            f.name == Some(name) <==>
              exists before, word :: TextsTo(s, 0, f.at) == before + [word, name] && Upper(word) == "CONSTRAINT"
  {
    hide Upper, ScanFrom, TextsTo;
    ScanNames(s, 0, [], k);
    var tokens := TextsTo(s, 0, ScanFrom(s, 0, [])[k].at);
    assert [] + tokens == tokens;
    if |tokens| >= 2 {
      var n := |tokens| - 2;
      assert tokens == tokens[..n] + [tokens[n], tokens[n + 1]];
    }
  }

  // ---- quoted regions and comments, by what is in them --------------------

  /** A text as it stands inside quotes: its closing character doubled, but for brackets. */
  function Doubled(v: string, close: char): string {
    if v == "" then "" else (if v[0] == close && close != ']' then [close, close] else [v[0]]) + Doubled(v[1..], close)
  }

  /** Whatever is quoted, the region ends right after its closing quote. */
  lemma {:induction false} QuotedTextIsSkipped(s: string, j: nat, close: char, v: string, rest: string)
    requires j <= |s| && s[j..] == Doubled(v, close) + ([close] + rest)
    requires if close == ']' then ']' !in v else rest == "" || rest[0] != close
    ensures AfterQuoted(s, close, j) == j + |Doubled(v, close)| + 1
    decreases |v|
  {
    var tail := s[j..];
    assert s[j] == tail[0] && s[j + 1..] == tail[1..];
    if v == "" {
      assert tail == [close] + rest;
      assert j + 1 < |s| ==> s[j + 1] == tail[1] == rest[0];
    } else {
      var w := Doubled(v[1..], close) + ([close] + rest);
      if v[0] == close && close != ']' {
        assert tail == [close, close] + w;
        assert s[j + 1] == tail[1] && s[j + 2..] == tail[2..] == w;
        QuotedTextIsSkipped(s, j + 2, close, v[1..], rest);
      } else {
        assert tail == [v[0]] + w;
        assert tail[1..] == w;
        QuotedTextIsSkipped(s, j + 1, close, v[1..], rest);
      }
    }
  }

  /** One that is never closed runs to the end. */
  lemma {:induction false} UnclosedTextIsSkipped(s: string, j: nat, close: char, v: string)
    requires j <= |s| && s[j..] == Doubled(v, close) && (close == ']' ==> ']' !in v)
    ensures AfterQuoted(s, close, j) == |s|
    decreases |v|
  {
    if v != "" {
      var tail := s[j..];
      assert s[j] == tail[0] && s[j + 1..] == tail[1..];
      if v[0] == close && close != ']' {
        assert tail == [close, close] + Doubled(v[1..], close);
        assert s[j + 1] == tail[1] && s[j + 2..] == tail[2..] == Doubled(v[1..], close);
        UnclosedTextIsSkipped(s, j + 2, close, v[1..]);
      } else {
        assert tail == [v[0]] + Doubled(v[1..], close);
        UnclosedTextIsSkipped(s, j + 1, close, v[1..]);
      }
    }
  }

  /** A comment ends after its line, or with the text. */
  lemma CommentIsItsLine(s: string, i: nat)
    requires i < |s|
    ensures var end := CommentEnd(s, i);
            (forall k :: i <= k < end - 1 ==> s[k] != '\n') && (s[end - 1] == '\n' || end == |s|)
  {
  }
}
