/** type-map.ts of the MySQL adapter: the parenthesis stripper, and reading the values of an `enum(…)` or `set(…)` column type. */
module EnumValues {
  import opened Wrappers
  import opened Regex
  import opened QuotedLiterals
  import opened Texts

  // ---- stripFirstParenGroup -----------------------------------------------

  const NOT_CLOSE := Class(true, {')'})

  /** `/\([^)]*\)/` */
  const PARENS := Then(Lit('('), Then(Star(NOT_CLOSE), Lit(')')))

  function StripFirstParenGroup(value: string): string {
    match IndexOf(value, '(', 0)
    case None => value
    case Some(open) =>
      match IndexOf(value, ')', open + 1)
      case None => value
      case Some(close) => value[..open] + value[close + 1..]
  }

  /** From an opening parenthesis the pattern matches up to the first closing one, if there is one. */
  lemma ParensAt(s: string, open: nat)
    requires open <= |s|
    ensures MatchAt(PARENS, s, open) ==
            if open < |s| && s[open] == '(' && IndexOf(s, ')', open + 1).Some?
            then Some(Found(IndexOf(s, ')', open + 1).value + 1, map[])) else None
  {
    hide Ends, EndsOfEach;
    var x := Found(open, map[]);
    ThenEnds(Lit('('), PARENS.second, s, x);
    EndsOfLit('(', s, x);
    if open < |s| && s[open] == '(' {
      var y := x.(end := open + 1);
      EndsOfOne(PARENS.second, s, y, open);
      CloseAfter(s, y);
    } else {
      NoneOfEach(PARENS.second, s, open);
    }
  }

  lemma CloseAfter(s: string, y: Found)
    requires y.end <= |s|
    ensures Ends(PARENS.second, s, y) ==
            match IndexOf(s, ')', y.end) case Some(close) => [y.(end := close + 1)] case None => []
  {
    hide Ends, EndsOfEach;
    var close := IndexOf(s, ')', y.end);
    var n := (if close.Some? then close.value else |s|) - y.end;
    EndsOfRun(NOT_CLOSE, s, y, n);
    ThenEnds(Star(NOT_CLOSE), Lit(')'), s, y);
    var xs := Ends(Star(NOT_CLOSE), s, y);
    forall k | 0 <= k < |xs|
      ensures Ends(Lit(')'), s, xs[k]) == if k == 0 && close.Some? then [y.(end := close.value + 1)] else []
    {
      EndsOfLit(')', s, xs[k]);
    }
    OnlyFirst(Lit(')'), s, xs, y.end);
  }

  /** The scan removes exactly what the expression would. */
  lemma StripIsRemoveFirst(value: string)
    ensures StripFirstParenGroup(value) == RemoveFirst(PARENS, value)
  {
    hide MatchAt, IndexOf;
    forall k | 0 <= k <= |value|
      ensures MatchAt(PARENS, value, k).Some? ==> k < |value| && value[k] == '('
    {
      ParensAt(value, k);
    }
    match IndexOf(value, '(', 0)
    case None =>
      assert Search(PARENS, value, 0).None?;
    case Some(open) =>
      ParensAt(value, open);
      match IndexOf(value, ')', open + 1)
      case Some(close) =>
        assert Search(PARENS, value, 0) == Some(open);
      case None =>
        forall k | open < k < |value| && value[k] == '('
          ensures MatchAt(PARENS, value, k).None?
        {
          ParensAt(value, k);
        }
        assert Search(PARENS, value, 0).None?;
  }

  // ---- parseEnumValues ----------------------------------------------------

  const SPACE := Class(false, SPACES)
  const ANY := Class(true, {})
  const ENUM := Then(Class(false, {'e', 'E'}), Then(Class(false, {'n', 'N'}), Then(Class(false, {'u', 'U'}), Class(false, {'m', 'M'}))))
  const SET := Then(Class(false, {'s', 'S'}), Then(Class(false, {'e', 'E'}), Class(false, {'t', 'T'})))

  /** `\)\s*$` */
  const CLOSING := Then(Lit(')'), Then(Star(SPACE), AtEnd))

  /** `\s*\((.*)\)\s*$`, the point matching everything. */
  const IN_PARENS := Then(Star(SPACE), Then(Lit('('), Then(Group(2, Star(ANY)), CLOSING)))

  /** `/^\s*(enum|set)\s*\((.*)\)\s*$/is` */
  const ENUM_TYPE := Then(AtStart, Then(Star(SPACE), Then(Group(1, Or(ENUM, SET)), IN_PARENS)))

  function Unescape(literal: string): string {
    ReplaceAll(ReplaceAll(literal, "''", "'"), "\\'", "'")
  }

  function UnescapeAll(literals: seq<string>): seq<string> {
    if literals == [] then [] else [Unescape(literals[0])] + UnescapeAll(literals[1..])
  }

  /** What the second group captured. */
  function ListBody(columnType: string, m: Found): string {
    if 2 in m.groups && m.groups[2].0 <= m.groups[2].1 <= |columnType| then columnType[m.groups[2].0..m.groups[2].1] else ""
  }

  function ParseEnumValues(columnType: string): Option<seq<string>> {
    match Search(ENUM_TYPE, columnType, 0)
    case None => None
    case Some(at) => Some(UnescapeAll(LiteralsFrom(ListBody(columnType, MatchAt(ENUM_TYPE, columnType, at).value), 0)))
  }

  method ReadEnumValues(columnType: string) returns (values: Option<seq<string>>)
    ensures values == ParseEnumValues(columnType)
  {
    var at := Search(ENUM_TYPE, columnType, 0);
    if at.None? {
      return None;
    }
    var literals, _ := ScanQuotedLiterals(ListBody(columnType, MatchAt(ENUM_TYPE, columnType, at.value).value));
    return Some(UnescapeAll(literals));
  }

  // ---- what MySQL prints --------------------------------------------------

  /** A character, or a quote twice. */
  function Twice(c: char): string {
    if c == QUOTE then "''" else [c]
  }

  /** A value with its quotes doubled. */
  function Double(v: string): string {
    if v == "" then "" else Twice(v[0]) + Double(v[1..])
  }

  function DoubleAll(vs: seq<string>): seq<string> {
    if vs == [] then [] else [Double(vs[0])] + DoubleAll(vs[1..])
  }

  function PrintList(vs: seq<string>): string {
    if vs == [] then ""
    else "'" + Double(vs[0]) + "'" + (if |vs| == 1 then "" else "," + PrintList(vs[1..]))
  }

  /** A backslash right before a quote. */
  ghost predicate Escapes(v: string) {
    exists i :: 0 <= i < |v| - 1 && v[i] == BACKSLASH && v[i + 1] == QUOTE
  }

  /** Each backslash that is not itself escaped stands before a character that is no line terminator. */
  predicate Walks(v: string, escaped: bool) {
    if v == "" then !escaped
    else if escaped then v[0] !in LINE_TERMINATORS && Walks(v[1..], false)
    else Walks(v[1..], v[0] == BACKSLASH)
  }

  ghost predicate Readable(v: string) {
    !Escapes(v) && Walks(v, false)
  }

  ghost predicate AllReadable(vs: seq<string>) {
    forall i :: 0 <= i < |vs| ==> Readable(vs[i])
  }

  lemma {:induction false} PlainIsReadable(v: string)
    requires BACKSLASH !in v
    ensures Readable(v)
  {
    if v != "" {
      PlainIsReadable(v[1..]);
    }
  }

  // ---- undoubling and unescaping ------------------------------------------

  lemma {:induction false} UndoubledValue(v: string)
    ensures ReplaceAll(Double(v), "''", "'") == v
  {
    if v != "" {
      UndoubledValue(v[1..]);
      var d := Double(v);
      if v[0] == QUOTE {
        assert d[..2] == "''" && d[2..] == Double(v[1..]);
      } else {
        assert d[0] == v[0] && d[1..] == Double(v[1..]);
        assert |d| >= 2 ==> d[..2][0] != "''"[0];
      }
    }
  }

  lemma StartsWithEscape(v: string)
    requires |v| >= 2
    ensures v[..2] == "\\'" <==> v[0] == BACKSLASH && v[1] == QUOTE
  {
    if v[0] == BACKSLASH && v[1] == QUOTE {
      assert v[..2] == "\\'";
    } else {
      assert v[..2][0] == v[0] && v[..2][1] == v[1];
    }
  }

  lemma {:induction false} NothingEscaped(v: string)
    requires !Escapes(v)
    ensures ReplaceAll(v, "\\'", "'") == v
  {
    if v != "" {
      var rest := v[1..];
      assert forall i :: 0 <= i < |rest| ==> rest[i] == v[i + 1];
      NothingEscaped(rest);
      if |v| >= 2 {
        StartsWithEscape(v);
      }
    }
  }

  lemma {:induction false} NoLonger(v: string)
    ensures |ReplaceAll(v, "\\'", "'")| <= |v|
  {
    if v == "" {
    } else if |v| >= 2 && v[..2] == "\\'" {
      NoLonger(v[2..]);
    } else {
      NoLonger(v[1..]);
    }
  }

  /** No text that goes on from a value with an escape unescapes to that value. */
  lemma {:induction false} EscapeIsLost(v: string, longer: string)
    requires Escapes(v) && v <= longer
    ensures ReplaceAll(longer, "\\'", "'") != v
    decreases |v|
  {
    StartsWithEscape(longer);
    if !(v[0] == BACKSLASH && v[1] == QUOTE) {
      var i :| 0 <= i < |v| - 1 && v[i] == BACKSLASH && v[i + 1] == QUOTE;
      assert v[1..][i - 1] == BACKSLASH && v[1..][i] == QUOTE;
      EscapeIsLost(v[1..], longer[1..]);
    }
  }

  /** Nor does a text the value goes on from. */
  lemma NeverUnescapesTo(v: string, other: string)
    requires Escapes(v) && (v <= other || other <= v)
    ensures ReplaceAll(other, "\\'", "'") != v
  {
    hide ReplaceAll;
    NoLonger(other);
    if v <= other {
      EscapeIsLost(v, other);
    } else if |other| >= |v| {
      assert false;
    }
  }

  lemma {:induction false} UndoublingWalks(v: string, escaped: bool)
    requires Walks(v, escaped)
    ensures Walks(ReplaceAll(v, "''", "'"), escaped)
    decreases |v|
  {
    if v == "" {
    } else if |v| >= 2 && v[..2] == "''" {
      assert v[0] == v[..2][0] && v[1] == v[..2][1] && v[1..][1..] == v[2..];
      UndoublingWalks(v[2..], false);
    } else {
      UndoublingWalks(v[1..], !escaped && v[0] == BACKSLASH);
    }
  }

  lemma {:induction false} UnescapingWalks(v: string, escaped: bool)
    requires Walks(v, escaped)
    ensures Walks(ReplaceAll(v, "\\'", "'"), escaped)
    decreases |v|
  {
    if v == "" {
    } else if |v| >= 2 && v[..2] == "\\'" {
      assert v[0] == v[..2][0] && v[1] == v[..2][1] && v[1..][1..] == v[2..];
      UnescapingWalks(v[2..], false);
    } else {
      UnescapingWalks(v[1..], !escaped && v[0] == BACKSLASH);
    }
  }

  // ---- a printed value and the walk ---------------------------------------

  /** What the walk has passed by a boundary it stops at. */
  lemma {:induction false} PassedWalks(s: string, i: nat, last: nat)
    requires i <= |s| && LastQuote(s, i) == Some(last)
    ensures Walks(s[i..last], false)
    decreases |s| - i
  {
    if last > i {
      var next := Piece(s, i).value;
      var passed := s[i..last];
      PassedWalks(s, next, last);
      assert passed[0] == s[i] && s[next..last] == passed[next - i..];
      if next == i + 2 {
        assert passed[1..][0] == s[i + 1] && passed[1..][1..] == passed[2..];
      }
    }
  }

  /** A value that walks lets the walk over its printed form come to a quote: whatever follows. */
  lemma {:induction false} WalkFindsQuote(s: string, p: nat, v: string, rest: string)
    requires p <= |s| && s[p..] == Double(v) + ("'" + rest) && Walks(v, false)
    ensures LastQuote(s, p).Some?
    decreases |v|
  {
    hide LastQuote, WalkEnd;
    AtPrinted(s, p, v, rest);
    WalkOn(s, p);
    if v != "" && v[0] != QUOTE {
      if v[0] != BACKSLASH {
        WalkFindsQuote(s, p + 1, v[1..], rest);
      } else {
        AtPrinted(s, p + 1, v[1..], rest);
        if v[1] == QUOTE {
          WalkOn(s, p + 2);
        } else {
          WalkFindsQuote(s, p + 2, v[1..][1..], rest);
        }
      }
    }
  }

  lemma AfterPart(s: string, p: nat, part: string, rest: string)
    requires p <= |s| && s[p..] == part + rest
    ensures p + |part| <= |s| && s[p + |part|..] == rest && forall k :: 0 <= k < |part| ==> s[p + k] == part[k]
  {
    var tail := s[p..];
    assert s[p + |part|..] == tail[|part|..];
    assert forall k :: 0 <= k < |part| ==> s[p + k] == tail[k];
  }

  lemma DoubleStep(v: string, end: string)
    requires v != ""
    ensures Double(v) + end == Twice(v[0]) + (Double(v[1..]) + end)
  {
  }

  /** The printed form, one character of the value on. */
  lemma AtPrinted(s: string, p: nat, v: string, rest: string)
    requires p <= |s| && s[p..] == Double(v) + ("'" + rest)
    ensures p < |s|
    ensures v == "" ==> s[p] == QUOTE && s[p + 1..] == rest
    ensures v != "" ==> s[p] == v[0]
    ensures v != "" && v[0] != QUOTE ==> s[p + 1..] == Double(v[1..]) + ("'" + rest)
    ensures v != "" && v[0] == QUOTE ==> p + 1 < |s| && s[p + 1] == QUOTE && s[p + 2..] == Double(v[1..]) + ("'" + rest)
  {
    if v == "" {
      assert Double(v) + ("'" + rest) == "'" + rest;
      AfterPart(s, p, "'", rest);
    } else {
      hide Double;
      DoubleStep(v, "'" + rest);
      AfterPart(s, p, Twice(v[0]), Double(v[1..]) + ("'" + rest));
    }
  }

  /** A readable value, one step of the walk on. */
  lemma ReadableOn(v: string)
    requires v != "" && Readable(v)
    ensures v[0] != BACKSLASH ==> Readable(v[1..])
    ensures v[0] == BACKSLASH ==> |v| >= 2 && v[1] !in LINE_TERMINATORS && v[1] != QUOTE && Readable(v[1..][1..])
  {
    var on := v[1..];
    assert forall i :: 0 <= i < |on| ==> on[i] == v[i + 1];
    assert Walks(on, v[0] == BACKSLASH);
    if v[0] == BACKSLASH {
      assert Walks(on[1..], false);
      assert forall i :: 0 <= i < |on[1..]| ==> on[1..][i] == v[i + 2];
    }
  }

  /** The walk over a readable value's printed form ends at its closing quote. */
  lemma {:induction false} WalkOverValue(s: string, p: nat, v: string, rest: string)
    requires p <= |s| && s[p..] == Double(v) + ("'" + rest) && Readable(v) && (rest == "" || rest[0] != QUOTE)
    ensures LastQuote(s, p) == Some(p + |Double(v)|)
    decreases |v|
  {
    hide LastQuote, WalkEnd, Walks, Escapes;
    AtPrinted(s, p, v, rest);
    WalkOn(s, p);
    if v == "" {
      assert p + 1 < |s| ==> s[p + 1] == s[p + 1..][0];
    } else {
      ReadableOn(v);
      if v[0] == QUOTE {
        WalkOverValue(s, p + 2, v[1..], rest);
      } else if v[0] == BACKSLASH {
        AtPrinted(s, p + 1, v[1..], rest);
        WalkOverValue(s, p + 2, v[1..][1..], rest);
      } else {
        WalkOverValue(s, p + 1, v[1..], rest);
      }
    }
  }

  /** What a literal that starts with a printed value undoubles to: a start of the value, or a text that starts with it. */
  lemma {:induction false} UndoublesAlong(s: string, p: nat, v: string, rest: string, last: nat)
    requires p <= last < |s| && s[p..] == Double(v) + ("'" + rest) && s[last] == QUOTE && (rest == "" || rest[0] != QUOTE)
    ensures var u := ReplaceAll(s[p..last], "''", "'"); u <= v || v <= u
    decreases |v|
  {
    if v != "" && last > p {
      AtPrinted(s, p, v, rest);
      var passed := s[p..last];
      assert passed[0] == s[p] && passed[1..] == s[p + 1..last];
      if v[0] != QUOTE {
        UndoublesAlong(s, p + 1, v[1..], rest, last);
        assert |passed| >= 2 ==> passed[..2][0] != "''"[0];
      } else if last == p + 1 {
        assert passed == "'";
      } else {
        assert passed[..2] == "''" && passed[2..] == s[p + 2..last];
        UndoublesAlong(s, p + 2, v[1..], rest, last);
      }
    }
  }

  /** The first literal found from a place on, and that the walk passed over it. */
  lemma {:induction false} FirstFound(s: string, p: nat)
    requires p <= |s| && LiteralsFrom(s, p) != []
    ensures Walks(LiteralsFrom(s, p)[0], false)
    decreases |s| - p
  {
    hide LiteralsFrom, LastQuote;
    if p == |s| {
      NoneAtEnd(s, p);
      assert false;
    } else if QuoteAt(s, p) && LastQuote(s, p + 1).Some? {
      NextLiteral(s, p, p);
      PassedWalks(s, p + 1, LastQuote(s, p + 1).value);
    } else {
      NoLiteral(s, p, p + 1);
      FirstFound(s, p + 1);
    }
  }

  lemma FirstLiteral(s: string, p: nat, v: string, rest: string)
    requires p <= |s| && s[p..] == "'" + (Double(v) + ("'" + rest)) && Readable(v) && (rest == "" || rest[0] != QUOTE)
    ensures var next := p + |Double(v)| + 2;
            next <= |s| && s[next..] == rest && LiteralsFrom(s, p) == [Double(v)] + LiteralsFrom(s, next)
  {
    hide LastQuote, LiteralsFrom, Double, Readable;
    var d := Double(v);
    var last := p + 1 + |d|;
    assert s[p] == s[p..][0] && s[p + 1..] == s[p..][1..] == d + ("'" + rest);
    WalkOverValue(s, p + 1, v, rest);
    assert s[p + 1..last] == s[p + 1..][..|d|] == d;
    NextLiteral(s, p, p);
    assert s[last + 1..] == s[p + 1..][|d| + 1..] == rest;
  }

  /** A value that is not readable is not what the first literal from its opening quote on reads as. */
  lemma FirstIsAnother(s: string, p: nat, v: string, rest: string)
    requires p <= |s| && s[p..] == "'" + (Double(v) + ("'" + rest)) && !Readable(v) && (rest == "" || rest[0] != QUOTE)
    ensures LiteralsFrom(s, p) == [] || Unescape(LiteralsFrom(s, p)[0]) != v
  {
    hide LastQuote, LiteralsFrom, Double, ReplaceAll, Walks, Escapes;
    assert s[p] == s[p..][0] && s[p + 1..] == s[p..][1..] == Double(v) + ("'" + rest);
    if LiteralsFrom(s, p) != [] {
      var first := LiteralsFrom(s, p)[0];
      FirstFound(s, p);
      UndoublingWalks(first, false);
      UnescapingWalks(ReplaceAll(first, "''", "'"), false);
      if Unescape(first) == v {
        WalkFindsQuote(s, p + 1, v, rest);
        var last := LastQuote(s, p + 1).value;
        NextLiteral(s, p, p);
        UndoublesAlong(s, p + 1, v, rest, last);
        NeverUnescapesTo(v, ReplaceAll(first, "''", "'"));
      }
    }
  }

  lemma UnescapesDouble(v: string)
    requires Readable(v)
    ensures Unescape(Double(v)) == v
  {
    hide Double, ReplaceAll, Escapes, Walks;
    UndoubledValue(v);
    NothingEscaped(v);
  }

  lemma {:induction false} LiteralsOfList(s: string, p: nat, vs: seq<string>)
    requires p <= |s| && s[p..] == PrintList(vs) && AllReadable(vs)
    ensures LiteralsFrom(s, p) == DoubleAll(vs)
    decreases |vs|
  {
    hide LiteralsFrom, Double, Readable;
    if vs == [] {
      NoneAtEnd(s, p);
    } else {
      var next := p + |Double(vs[0])| + 2;
      AtFirst(vs);
      FirstLiteral(s, p, vs[0], AfterFirst(vs));
      ListGoesOn(s, next, vs);
      if |vs| > 1 {
        LiteralsOfList(s, next + 1, vs[1..]);
      }
    }
  }

  /** What a printed list holds after its first value. */
  function AfterFirst(vs: seq<string>): (rest: string)
    requires vs != []
    ensures rest == "" || rest[0] == ','
  {
    if |vs| == 1 then "" else "," + PrintList(vs[1..])
  }

  lemma AtFirst(vs: seq<string>)
    requires vs != []
    ensures PrintList(vs) == "'" + (Double(vs[0]) + ("'" + AfterFirst(vs)))
  {
    hide Double;
  }

  lemma ListGoesOn(s: string, next: nat, vs: seq<string>)
    requires vs != [] && next <= |s| && s[next..] == AfterFirst(vs)
    ensures |vs| == 1 ==> LiteralsFrom(s, next) == []
    ensures |vs| > 1 ==> next < |s| && s[next + 1..] == PrintList(vs[1..]) && LiteralsFrom(s, next) == LiteralsFrom(s, next + 1)
  {
    hide LiteralsFrom, PrintList;
    if |vs| == 1 {
      NoneAtEnd(s, next);
    } else {
      assert s[next] == s[next..][0] && s[next + 1..] == s[next..][1..];
      NoLiteral(s, next, next + 1);
    }
  }

  /** A printed list reads as it was exactly when each of its values is readable. */
  lemma {:induction false} ListReadsExactlyWhen(s: string, p: nat, vs: seq<string>)
    requires p <= |s| && s[p..] == PrintList(vs)
    ensures UnescapeAll(LiteralsFrom(s, p)) == vs <==> AllReadable(vs)
    decreases |vs|
  {
    hide LiteralsFrom, Double, Readable, Unescape, AfterFirst;
    if vs == [] {
      NoneAtEnd(s, p);
    } else {
      AtFirst(vs);
      if Readable(vs[0]) {
        var next := p + |Double(vs[0])| + 2;
        FirstLiteral(s, p, vs[0], AfterFirst(vs));
        UnescapesDouble(vs[0]);
        ListGoesOn(s, next, vs);
        if |vs| > 1 {
          ListReadsExactlyWhen(s, next + 1, vs[1..]);
        }
        TailReadable(vs);
      } else {
        FirstIsAnother(s, p, vs[0], AfterFirst(vs));
      }
    }
  }

  lemma TailReadable(vs: seq<string>)
    requires vs != []
    ensures AllReadable(vs) <==> Readable(vs[0]) && AllReadable(vs[1..])
  {
    hide Readable;
    var rest := vs[1..];
    assert forall i :: 0 < i < |vs| ==> vs[i] == rest[i - 1];
  }

  // ---- the type around the list -------------------------------------------

  /** What follows the word, from its opening parenthesis on: the group takes everything up to the last closing one. */
  lemma TakesWholeList(s: string, x: Found)
    requires x.end + 1 < |s| && s[x.end] == '(' && s[|s| - 1] == ')'
    ensures Ends(IN_PARENS, s, x) != []
    ensures Ends(IN_PARENS, s, x)[0] == x.(end := |s|, groups := x.groups[2 := (x.end + 1, |s| - 1)])
  {
    hide Ends, EndsOfEach, Accepts;
    assert !Accepts(SPACE, '(') && !Accepts(SPACE, ')') by { NotSpace(); }
    EndsOfRun(SPACE, s, x, 0);
    assert Ends(Star(SPACE), s, x) == [x];
    ThenOne(Star(SPACE), IN_PARENS.second, s, x, x);
    var y := x.(end := x.end + 1);
    EndsOfLit('(', s, x);
    ThenOne(Lit('('), IN_PARENS.second.second, s, x, y);
    GroupTakesAll(s, y);
  }

  lemma GroupTakesAll(s: string, y: Found)
    requires 0 < y.end < |s| && s[|s| - 1] == ')'
    ensures var ends := Ends(Then(Group(2, Star(ANY)), CLOSING), s, y);
            ends != [] && ends[0] == y.(end := |s|, groups := y.groups[2 := (y.end, |s| - 1)])
  {
    hide Ends, EndsOfEach, Accepts, ANY, CLOSING;
    AnyAccepts();
    ThenEnds(Group(2, Star(ANY)), CLOSING, s, y);
    GroupEnds(2, Star(ANY), s, y);
    EndsOfRun(ANY, s, y, |s| - y.end);
    var xs := Ends(Group(2, Star(ANY)), s, y);
    ClosesOnlyAtEnd(s, xs[0]);
    ClosesOnlyAtEnd(s, xs[1]);
    FirstThatGoesOn(CLOSING, s, xs, y.end, 1);
  }

  lemma NotSpace()
    ensures !Accepts(SPACE, '(') && !Accepts(SPACE, ')') && !Accepts(SPACE, 'e') && !Accepts(SPACE, 's')
  {
  }

  lemma AnyAccepts()
    ensures ANY.Class? && forall c :: Accepts(ANY, c)
  {
  }

  lemma ClosesOnlyAtEnd(s: string, x: Found)
    requires x.end <= |s| && s != "" && s[|s| - 1] == ')'
    ensures x.end == |s| ==> Ends(CLOSING, s, x) == []
    ensures x.end == |s| - 1 ==> Ends(CLOSING, s, x) == [x.(end := |s|)]
  {
    hide Ends, EndsOfEach;
    EndsOfLit(')', s, x);
    if x.end == |s| {
      ThenEnds(Lit(')'), CLOSING.second, s, x);
      NoneOfEach(CLOSING.second, s, x.end);
    } else if x.end == |s| - 1 {
      var y := x.(end := |s|);
      ThenOne(Lit(')'), CLOSING.second, s, x, y);
      EndsOfRun(SPACE, s, y, 0);
      assert Ends(Star(SPACE), s, y) == [y];
      ThenOne(Star(SPACE), AtEnd, s, y, y);
      EndsOfEnd(s, y);
    }
  }

  lemma EndsOfEnd(s: string, x: Found)
    requires x.end == |s|
    ensures Ends(AtEnd, s, x) == [x]
  {
  }

  /**
   * Reading a printed list gives it back if and only if in no value a backslash stands before a quote, and each backslash that
   * is not itself escaped stands before a character of the value that is no line terminator.
   */
  lemma PrintedListIsRead(vs: seq<string>, word: string)
    requires word == "enum" || word == "set"
    ensures ParseEnumValues(word + "(" + PrintList(vs) + ")") == Some(vs) <==> AllReadable(vs)
  {
    hide LiteralsFrom, PrintList, AllReadable, UnescapeAll, ParseEnumValues;
    var list := PrintList(vs);
    ParsesList(word, list);
    assert list[0..] == list;
    ListReadsExactlyWhen(list, 0, vs);
  }

  /** The values of a type are those of the text between its parentheses, whatever it is. */
  lemma ParsesList(word: string, list: string)
    requires word == "enum" || word == "set"
    ensures ParseEnumValues(word + "(" + list + ")") == Some(UnescapeAll(LiteralsFrom(list, 0)))
  {
    hide LiteralsFrom, MatchAt, UnescapeAll;
    var s := word + "(" + list + ")";
    TypeMatches(word, list);
    assert Search(ENUM_TYPE, s, 0) == Some(0);
    assert s[|word| + 1..|s| - 1] == list;
  }

  /** A backslash and a quote, printed as a value: the backslash is taken for an escape of the first of the two quotes. */
  lemma BackslashQuoteIsLost()
    ensures PrintList(["\\'"]) == "'\\'''" && ParseEnumValues("enum('\\''')") == Some(["'"])
  {
    hide LiteralsFrom, ParseEnumValues, ReplaceAll;
    var list := "'\\'''";
    EscapedPrinted();
    assert "enum" + "(" + list + ")" == "enum('\\''')";
    ParsesList("enum", list);
    EscapedLiteral(list);
    EscapedReads("\\'");
    assert UnescapeAll(["\\'"]) == [Unescape("\\'")];
  }

  lemma EscapedReads(value: string)
    requires value == "\\'"
    ensures Unescape(value) == "'"
  {
    assert value[..2] == "\\'" && value[1..] == "'" && value[2..] == "";
    assert ReplaceAll(value, "''", "'") == value && ReplaceAll(value, "\\'", "'") == "'";
  }

  lemma EscapedPrinted()
    ensures PrintList(["\\'"]) == "'\\'''"
  {
    var value := "\\'";
    assert value[1..] == "'" && "'"[1..] == "";
    assert Double("'") == "''" + Double("") == "''";
    assert Double(value) == ['\\'] + Double("'") == "\\''";
    assert PrintList([value]) == "'" + Double(value) + "'" + "";
  }

  lemma EscapedLiteral(list: string)
    requires list == "'\\'''"
    ensures LiteralsFrom(list, 0) == ["\\'"]
  {
    hide LiteralsFrom, LastQuote, WalkEnd;
    WalkOn(list, 1);
    WalkOn(list, 3);
    WalkOn(list, 5);
    NextLiteral(list, 0, 0);
    NoLiteral(list, 4, 5);
    NoneAtEnd(list, 5);
    assert list[1..3] == "\\'";
  }

  lemma TypeMatches(word: string, list: string)
    requires word == "enum" || word == "set"
    ensures var s := word + "(" + list + ")";
            MatchAt(ENUM_TYPE, s, 0) == Some(Found(|s|, map[1 := (0, |word|), 2 := (|word| + 1, |s| - 1)]))
  {
    hide Ends, EndsOfEach, Captured;
    var s := word + "(" + list + ")";
    var x := Found(0, map[]);
    var y := Found(|word|, map[1 := (0, |word|)]);
    StartsHere(s, x);
    ThenOne(AtStart, ENUM_TYPE.second, s, x, x);
    WordMatches(word, s, x);
    EndsOfRun(SPACE, s, x, 0);
    assert Ends(Star(SPACE), s, x) == [x];
    ThenOne(Star(SPACE), ENUM_TYPE.second.second, s, x, x);
    ThenOne(Group(1, Or(ENUM, SET)), IN_PARENS, s, x, y);
    TakesWholeList(s, y);
  }

  lemma StartsHere(s: string, x: Found)
    requires x.end == 0
    ensures Ends(AtStart, s, x) == [x]
  {
  }

  lemma WordMatches(word: string, s: string, x: Found)
    requires (word == "enum" || word == "set") && word <= s && x == Found(0, map[])
    ensures s != "" && !Accepts(SPACE, s[0])
    ensures Ends(Group(1, Or(ENUM, SET)), s, x) == [Found(|word|, map[1 := (0, |word|)])]
  {
    hide Ends, Accepts, ENUM, SET;
    NotSpace();
    GroupEnds(1, Or(ENUM, SET), s, x);
    OrEnds(ENUM, SET, s, x);
    if word == "enum" {
      EnumMatches(s, x);
    } else {
      SetMatches(s, x);
    }
  }

  lemma EnumMatches(s: string, x: Found)
    requires "enum" <= s && x.end == 0
    ensures Ends(ENUM, s, x) == [x.(end := 4)] && Ends(SET, s, x) == []
  {
    hide Ends;
    assert s[0] == 'e' && s[1] == 'n' && s[2] == 'u' && s[3] == 'm';
    EndsOfClass(ENUM.first, s, x);
    ThenOne(ENUM.first, ENUM.second, s, x, x.(end := 1));
    EndsOfClass(ENUM.second.first, s, x.(end := 1));
    ThenOne(ENUM.second.first, ENUM.second.second, s, x.(end := 1), x.(end := 2));
    EndsOfTwo(ENUM.second.second.first, ENUM.second.second.second, s, x.(end := 2));
    EndsOfClass(SET.first, s, x);
    ThenNone(SET.first, SET.second, s, x);
  }

  lemma SetMatches(s: string, x: Found)
    requires "set" <= s && x.end == 0
    ensures Ends(ENUM, s, x) == [] && Ends(SET, s, x) == [x.(end := 3)]
  {
    hide Ends;
    assert s[0] == 's' && s[1] == 'e' && s[2] == 't';
    EndsOfClass(SET.first, s, x);
    ThenOne(SET.first, SET.second, s, x, x.(end := 1));
    EndsOfTwo(SET.second.first, SET.second.second, s, x.(end := 1));
    EndsOfClass(ENUM.first, s, x);
    ThenNone(ENUM.first, ENUM.second, s, x);
  }
}
