/** introspect.ts of the MySQL adapter: the values of a `col IN (…)` check, read back from the clause the server prints. */
module CheckEnum {
  import opened Wrappers
  import opened Texts
  import opened Regex
  import QuotedLiterals
  import opened CheckClause

  // ---- the patterns -------------------------------------------------------

  const LETTERS: set<char> := set c: char | IsLetter(c)
  const DIGITS: set<char> := set c: char | '0' <= c <= '9'

  const TICK := Class(false, {'`', '"'})
  const FIRST := Class(false, LETTERS + {'_'})
  const NAME := Class(false, LETTERS + DIGITS + {'_', '$'})
  const SPACE := Class(false, SPACES)
  const NAME_MAX := 64

  /** `\s+in\s+\(`, ignoring case. */
  const IN := Then(Plus(SPACE), Then(Class(false, {'i', 'I'}), Then(Class(false, {'n', 'N'}), Then(Plus(SPACE), Lit('(')))))

  /** `/[`"]?([a-zA-Z_][\w$]{0,63})[`"]?\s+in\s+\(/i` */
  const HEAD := Then(Optional(TICK), Then(Group(1, Then(FIRST, UpTo(NAME, NAME_MAX - 1))), Then(Optional(TICK), IN)))

  const NOT_QUOTE := Class(true, {'\''})

  /** `/'((?:[^']|'')*)'/` */
  const VALUE := Then(Lit('\''), Then(Group(1, Star(Or(NOT_QUOTE, QuotedLiterals.DOUBLED))), Lit('\'')))

  // ---- parseCheckEnum -----------------------------------------------------

  datatype Parsed = Parsed(column: string, values: seq<string>)

  function Undoubled(literals: seq<string>): seq<string> {
    if literals == [] then [] else [ReplaceAll(literals[0], "''", "'")] + Undoubled(literals[1..])
  }

  /** The values of a list, from the text between its parentheses. */
  function ValuesOf(list: string): seq<string> {
    Undoubled(QuotedLiterals.Captures(list, MatchAll(VALUE, list, 0)))
  }

  lemma HeadMovesOn(text: string, at: nat)
    requires at <= |text| && MatchAt(HEAD, text, at).Some?
    ensures MatchAt(HEAD, text, at).value.end > at
  {
    hide Ends, LETTERS, DIGITS, SPACES, UpTo, IN;
    var body := Then(FIRST, UpTo(NAME, NAME_MAX - 1));
    var rest := Then(Group(1, body), Then(Optional(TICK), IN));
    assert HEAD == Then(Optional(TICK), rest);
    assert Consumes(FIRST);
    assert Consumes(body);
    assert Consumes(Group(1, body));
    assert Consumes(rest);
    ConsumesMoves(HEAD, text, Found(at, map[]));
  }

  /** From `from` on, in a clause already normalized. */
  function ParseFrom(text: string, from: nat): Option<Parsed>
    decreases |text| + 1 - from
  {
    match Search(HEAD, text, from)
    case None => None
    case Some(at) =>
      HeadMovesOn(text, at);
      var head := MatchAt(HEAD, text, at).value;
      match QuotedLiterals.IndexOf(text, ')', head.end)
      case None => None
      case Some(end) =>
        if end > head.end then
          var values := ValuesOf(text[head.end..end]);
          if values == [] then None else Some(Parsed(QuotedLiterals.Capture(text, head), values))
        else ParseFrom(text, head.end)
  }

  function ParseCheckEnum(clause: string): Option<Parsed> {
    ParseFrom(Normalized(clause), 0)
  }

  /**
   * What the first head from a place on decides: nothing is read where no parenthesis closes its list or the list has no literal,
   * an empty list is passed over, and otherwise its column and values are what is read.
   */
  lemma HeadDecides(text: string, from: nat, at: nat)
    requires Search(HEAD, text, from) == Some(at)
    ensures var head := MatchAt(HEAD, text, at).value;
            var list := text[head.end..];
            && (')' !in list ==> ParseFrom(text, from) == None)
            && (list != "" && list[0] == ')' ==> ParseFrom(text, from) == ParseFrom(text, head.end))
            && (forall end :: head.end < end < |text| && text[end] == ')' && ')' !in text[head.end..end] ==>
                  var values := ValuesOf(text[head.end..end]);
                  ParseFrom(text, from) == if values == [] then None else Some(Parsed(QuotedLiterals.Capture(text, head), values)))
  {
    hide MatchAt, ValuesOf;
    HeadMovesOn(text, at);
    var start := MatchAt(HEAD, text, at).value.end;
    var found := QuotedLiterals.IndexOf(text, ')', start);
    assert forall k :: start <= k < |text| ==> text[start..][k - start] == text[k];
    if found.Some? {
      assert text[start..][found.value - start] == ')';
    }
    forall end | start < end < |text| && text[end] == ')' && ')' !in text[start..end]
      ensures found == Some(end)
    {
      assert forall k :: start <= k < end ==> text[start..end][k - start] == text[k];
    }
  }

  /** The loop of the source. */
  method ReadCheckEnum(clause: string) returns (parsed: Option<Parsed>)
    ensures parsed == ParseCheckEnum(clause)
  {
    hide Normalized, MatchAt, Search, ValuesOf;
    var text := NormalizeCheckClause(clause);
    var from := 0;
    var at := Search(HEAD, text, 0);
    while at.Some?
      invariant at == Search(HEAD, text, from) && ParseFrom(text, from) == ParseCheckEnum(clause)
      decreases |text| + 1 - from
    {
      HeadMovesOn(text, at.value);
      var head := MatchAt(HEAD, text, at.value).value;
      var end := QuotedLiterals.IndexOf(text, ')', head.end);
      if end.None? {
        return None;
      }
      if end.value > head.end {
        var values := ValuesOf(text[head.end..end.value]);
        return if values == [] then None else Some(Parsed(QuotedLiterals.Capture(text, head), values));
      }
      from := head.end;
      at := Search(HEAD, text, from);
    }
    parsed := None;
  }

  // ---- without a backslash the two literal patterns are one ----------------

  predicate NoBackslash(s: string) {
    forall i :: 0 <= i < |s| ==> s[i] != '\\'
  }

  lemma SamePiece(s: string, x: Found)
    requires x.end <= |s| && NoBackslash(s)
    ensures Ends(Or(NOT_QUOTE, QuotedLiterals.DOUBLED), s, x) == Ends(QuotedLiterals.PIECE, s, x)
  {
    hide Ends, QuotedLiterals.PIECE, QuotedLiterals.ESCAPED, QuotedLiterals.LINE_TERMINATORS;
    QuotedLiterals.PieceIs();
    OrEnds(NOT_QUOTE, QuotedLiterals.DOUBLED, s, x);
    EndsOfClass(NOT_QUOTE, s, x);
    QuotedLiterals.EndsOfTwo(Lit('\''), Lit('\''), s, x);
    QuotedLiterals.EndsOfPiece(s, x);
  }

  lemma {:induction false} SameStar(s: string, x: Found)
    requires x.end <= |s| && NoBackslash(s)
    ensures Ends(Star(Or(NOT_QUOTE, QuotedLiterals.DOUBLED)), s, x) == Ends(Star(QuotedLiterals.PIECE), s, x)
    decreases |s| - x.end
  {
    hide Ends, QuotedLiterals.PIECE, NoBackslash, QuotedLiterals.Piece;
    var piece := Or(NOT_QUOTE, QuotedLiterals.DOUBLED);
    assert GroupsOf(piece) == {};
    QuotedLiterals.PieceIs();
    SamePiece(s, x);
    QuotedLiterals.EndsOfPiece(s, x);
    match QuotedLiterals.Piece(s, x.end)
    case Some(next) =>
      var y := x.(end := next);
      SameStar(s, y);
      StarGoesOn(piece, s, x, y);
      StarGoesOn(QuotedLiterals.PIECE, s, x, y);
    case None =>
      StarStops(piece, s, x);
      StarStops(QuotedLiterals.PIECE, s, x);
  }

  lemma SameMatch(s: string, at: nat)
    requires at <= |s| && NoBackslash(s)
    ensures MatchAt(VALUE, s, at) == MatchAt(QuotedLiterals.QUOTED, s, at)
  {
    hide Ends, EndsOfEach, Captured, NoBackslash;
    var x := Found(at, map[]);
    SameTail(s, x);
    QuotedLiterals.EndsOfLit('\'', s, x);
    if at < |s| && s[at] == '\'' {
      var y := x.(end := at + 1);
      SameTail(s, y);
      ThenOne(Lit('\''), VALUE.second, s, x, y);
      ThenOne(Lit('\''), QuotedLiterals.QUOTED.second, s, x, y);
    } else {
      ThenNone(Lit('\''), VALUE.second, s, x);
      ThenNone(Lit('\''), QuotedLiterals.QUOTED.second, s, x);
    }
  }

  lemma SameTail(s: string, y: Found)
    requires y.end <= |s| && NoBackslash(s)
    ensures Ends(VALUE.second, s, y) == Ends(QuotedLiterals.QUOTED.second, s, y)
  {
    hide Ends, EndsOfEach, Captured, NoBackslash;
    SameStar(s, y);
    GroupEnds(1, Star(Or(NOT_QUOTE, QuotedLiterals.DOUBLED)), s, y);
    GroupEnds(1, Star(QuotedLiterals.PIECE), s, y);
    ThenEnds(VALUE.second.first, Lit('\''), s, y);
    ThenEnds(QuotedLiterals.QUOTED.second.first, Lit('\''), s, y);
  }

  lemma {:induction false} SameSearch(s: string, from: nat)
    requires NoBackslash(s)
    ensures Search(VALUE, s, from) == Search(QuotedLiterals.QUOTED, s, from)
    decreases |s| + 1 - from
  {
    hide MatchAt, NoBackslash;
    if from <= |s| {
      SameMatch(s, from);
      SameSearch(s, from + 1);
    }
  }

  lemma {:induction false} SameMatches(s: string, from: nat)
    requires NoBackslash(s)
    ensures MatchAll(VALUE, s, from) == MatchAll(QuotedLiterals.QUOTED, s, from)
    decreases |s| + 1 - from
  {
    hide MatchAt, Search, NoBackslash;
    SameSearch(s, from);
    match Search(VALUE, s, from)
    case Some(at) =>
      SameMatch(s, at);
      var m := MatchAt(VALUE, s, at).value;
      SameMatches(s, if m.end == at then at + 1 else m.end);
    case None =>
  }
}
