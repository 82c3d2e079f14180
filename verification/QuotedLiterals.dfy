/**
 * type-map.ts of the MySQL adapter: two scanners that stand in for regular expressions, and the enum reader built on one.
 *
 * Each scanner is proved to give exactly what the backtracking expression it replaces gives, and the quoted one to look at
 * no more than about twice as many characters as there are.
 */
module QuotedLiterals {
  import opened Wrappers
  import opened Regex

  const QUOTE := '\''
  const BACKSLASH := '\\'
  const LINE_TERMINATORS: set<char> := {'\n', '\r', '\U{2028}', '\U{2029}'}

  // ---- `/'((?:[^'\\]|\\.|'')*)'/` -----------------------------------------

  /** `[^'\\]|\\.|''` */
  const PLAIN := Class(true, {QUOTE, BACKSLASH})
  const ESCAPED := Then(Lit(BACKSLASH), Class(true, LINE_TERMINATORS))
  const DOUBLED := Then(Lit(QUOTE), Lit(QUOTE))
  const PIECE := Or(PLAIN, Or(ESCAPED, DOUBLED))

  const QUOTED := Then(Lit(QUOTE), Then(Group(1, Star(PIECE)), Lit(QUOTE)))

  /** Where one piece that starts at `i` ends: at most one of the three alternatives applies. */
  function Piece(s: string, i: nat): (next: Option<nat>)
    ensures next.Some? ==> i < next.value <= |s|
  {
    if i >= |s| then None
    else if s[i] == QUOTE then if i + 1 < |s| && s[i + 1] == QUOTE then Some(i + 2) else None
    else if s[i] == BACKSLASH then if i + 1 < |s| && s[i + 1] !in LINE_TERMINATORS then Some(i + 2) else None
    else Some(i + 1)
  }

  /** Where the walk over pieces from `i` stops. */
  function WalkEnd(s: string, i: nat): (stop: nat)
    ensures stop >= i && (i <= |s| ==> stop <= |s|)
    decreases |s| - i
  {
    match Piece(s, i) case Some(next) => WalkEnd(s, next) case None => i
  }

  predicate QuoteAt(s: string, i: nat) {
    i < |s| && s[i] == QUOTE
  }

  /** The last boundary of the walk from `i` that holds a quote. */
  function LastQuote(s: string, i: nat): (last: Option<nat>)
    ensures last.Some? ==> i <= last.value < |s| && s[last.value] == QUOTE
    decreases |s| - i
  {
    var here := if QuoteAt(s, i) then Some(i) else None;
    match Piece(s, i)
    case Some(next) => (match LastQuote(s, next) case Some(last) => Some(last) case None => here)
    case None => here
  }

  lemma EndsOfLit(c: char, s: string, x: Found)
    requires x.end <= |s|
    ensures Ends(Lit(c), s, x) == if x.end < |s| && s[x.end] == c then [x.(end := x.end + 1)] else []
  {
  }

  lemma EndsOfTwo(a: Pattern, b: Pattern, s: string, x: Found)
    requires x.end <= |s| && a.Class? && b.Class?
    ensures Ends(Then(a, b), s, x) ==
            if x.end + 1 < |s| && Accepts(a, s[x.end]) && Accepts(b, s[x.end + 1]) then [x.(end := x.end + 2)] else []
  {
    hide Ends, Accepts;
    var y := x.(end := x.end + 1);
    ThenEnds(a, b, s, x);
    EndsOfClass(a, s, x);
    if x.end < |s| && Accepts(a, s[x.end]) {
      EndsOfOne(b, s, y, x.end);
      EndsOfClass(b, s, y);
    }
  }

  /** The alternatives exclude each other. */
  lemma EndsOfPiece(s: string, x: Found)
    requires x.end <= |s|
    ensures Ends(PIECE, s, x) == match Piece(s, x.end) case Some(next) => [x.(end := next)] case None => []
  {
    hide Ends, GroupsOf, PIECE, PLAIN, ESCAPED, DOUBLED, LINE_TERMINATORS, Accepts;
    PieceIs();
    PiecesAccept();
    OrEnds(PLAIN, Or(ESCAPED, DOUBLED), s, x);
    OrEnds(ESCAPED, DOUBLED, s, x);
    EndsOfClass(PLAIN, s, x);
    EndsOfTwo(Lit(BACKSLASH), Class(true, LINE_TERMINATORS), s, x);
    EndsOfTwo(Lit(QUOTE), Lit(QUOTE), s, x);
  }

  lemma PiecesAccept()
    ensures PLAIN.Class? && ESCAPED == Then(Lit(BACKSLASH), Class(true, LINE_TERMINATORS)) && DOUBLED == Then(Lit(QUOTE), Lit(QUOTE))
    ensures forall c :: Accepts(PLAIN, c) <==> c != QUOTE && c != BACKSLASH
    ensures forall c :: Accepts(Lit(BACKSLASH), c) <==> c == BACKSLASH
    ensures forall c :: Accepts(Lit(QUOTE), c) <==> c == QUOTE
    ensures forall c :: Accepts(Class(true, LINE_TERMINATORS), c) <==> c !in LINE_TERMINATORS
  {
    hide LINE_TERMINATORS;
  }

  lemma PieceIs()
    ensures PIECE == Or(PLAIN, Or(ESCAPED, DOUBLED)) && GroupsOf(PIECE) == {}
  {
  }

  /** What the greedy repetition then the closing quote give first: the last boundary with a quote. */
  lemma {:induction false} ClosingQuote(s: string, x: Found)
    requires x.end <= |s|
    ensures var ends := EndsOfEach(Lit(QUOTE), s, Ends(Star(PIECE), s, x), x.end);
            match LastQuote(s, x.end)
            case Some(last) => ends != [] && ends[0] == x.(end := last + 1)
            case None => ends == []
    decreases |s| - x.end
  {
    hide Ends, EndsOfEach, Piece, PIECE, GroupsOf;
    PieceIs();
    EndsOfPiece(s, x);
    EndsOfLit(QUOTE, s, x);
    match Piece(s, x.end)
    case Some(next) =>
      var y := x.(end := next);
      ClosingQuote(s, y);
      StarGoesOn(PIECE, s, x, y);
      AnyBound(Lit(QUOTE), s, Ends(Star(PIECE), s, y), x.end, next);
      EndsOfJoined(Lit(QUOTE), s, Ends(Star(PIECE), s, y), x, x.end);
    case None =>
      StarStops(PIECE, s, x);
      EndsOfOne(Lit(QUOTE), s, x, x.end);
  }

  /** Capturing what came before a character, then the character. */
  lemma {:induction false} LitAfterGroup(c: char, s: string, xs: seq<Found>, index: nat, from: nat)
    requires Within(xs, from, |s|)
    ensures var plain, captured := EndsOfEach(Lit(c), s, xs, from), EndsOfEach(Lit(c), s, Captured(xs, index, from, |s|), from);
            && |captured| == |plain|
            && forall k :: 0 <= k < |plain| ==>
                 plain[k].end > from && captured[k] == plain[k].(groups := plain[k].groups[index := (from, plain[k].end - 1)])
    decreases |xs|
  {
    hide Ends, Accepts;
    if xs != [] {
      assert Within(xs[1..], from, |s|);
      var y := xs[0].(groups := xs[0].groups[index := (from, xs[0].end)]);
      EndsOfLit(c, s, xs[0]);
      EndsOfLit(c, s, y);
      LitAfterGroup(c, s, xs[1..], index, from);
      assert Captured(xs, index, from, |s|) == [y] + Captured(xs[1..], index, from, |s|);
    }
  }

  /** A literal that starts at `open`: it ends at the last boundary with a quote, and captures what lies between. */
  lemma QuotedAt(s: string, open: nat)
    requires open <= |s|
    ensures MatchAt(QUOTED, s, open) ==
            if QuoteAt(s, open) && LastQuote(s, open + 1).Some?
            then Some(Found(LastQuote(s, open + 1).value + 1, map[1 := (open + 1, LastQuote(s, open + 1).value)]))
            else None
  {
    hide Ends, LastQuote, EndsOfEach, Captured;
    var x := Found(open, map[]);
    ThenEnds(Lit(QUOTE), QUOTED.second, s, x);
    EndsOfLit(QUOTE, s, x);
    if QuoteAt(s, open) {
      var y := x.(end := open + 1);
      EndsOfOne(QUOTED.second, s, y, open);
      ThenEnds(QUOTED.second.first, Lit(QUOTE), s, y);
      GroupEnds(1, Star(PIECE), s, y);
      LitAfterGroup(QUOTE, s, Ends(Star(PIECE), s, y), 1, open + 1);
      ClosingQuote(s, y);
    } else {
      NoneOfEach(QUOTED.second, s, open);
    }
  }

  lemma NoneOfEach(p: Pattern, s: string, from: int)
    ensures EndsOfEach(p, s, [], from) == []
  {
    hide Ends;
  }

  // ---- scanQuotedLiterals -------------------------------------------------

  /** `match[1]`. */
  function Capture(s: string, m: Found): string {
    if 1 in m.groups && m.groups[1].0 <= m.groups[1].1 <= |s| then s[m.groups[1].0..m.groups[1].1] else ""
  }

  function Captures(s: string, ms: seq<Found>): seq<string> {
    if ms == [] then [] else [Capture(s, ms[0])] + Captures(s, ms[1..])
  }

  /** The captures of `body.matchAll(/'((?:[^'\\]|\\.|'')*)'/g)` from `from` on. */
  function LiteralsFrom(body: string, from: nat): seq<string> {
    Captures(body, MatchAll(QUOTED, body, from))
  }

  predicate NoQuotes(s: string, from: nat, to: nat) {
    forall k :: from <= k < to ==> !QuoteAt(s, k)
  }

  /** `s.indexOf(c, from)`. */
  function IndexOf(s: string, c: char, from: nat): (at: Option<nat>)
    ensures at.Some? ==> from <= at.value < |s| && s[at.value] == c
    ensures forall k :: from <= k < |s| && (at.None? || k < at.value) ==> s[k] != c
    decreases |s| - from
  {
    if from >= |s| then None else if s[from] == c then Some(from) else IndexOf(s, c, from + 1)
  }

  lemma NextLiteral(s: string, pos: nat, open: nat)
    requires pos <= open && NoQuotes(s, pos, open) && QuoteAt(s, open) && LastQuote(s, open + 1).Some?
    ensures var last := LastQuote(s, open + 1).value; LiteralsFrom(s, pos) == [s[open + 1..last]] + LiteralsFrom(s, last + 1)
  {
    hide LastQuote, QUOTED, MatchAt;
    var last := LastQuote(s, open + 1).value;
    forall k | pos <= k <= open
      ensures MatchAt(QUOTED, s, k).Some? <==> k == open
    {
      QuotedAt(s, k);
    }
    QuotedAt(s, open);
    var m := Found(last + 1, map[1 := (open + 1, last)]);
    MatchAllSkips(QUOTED, s, pos, open);
    assert MatchAll(QUOTED, s, open) == [m] + MatchAll(QUOTED, s, last + 1);
  }

  /** No literal starts at a place without a quote, or at a quote whose walk finds none. */
  lemma NoLiteral(s: string, pos: nat, next: nat)
    requires pos <= next <= |s| + 1
    requires forall k :: pos <= k < next && QuoteAt(s, k) ==> LastQuote(s, k + 1).None?
    ensures LiteralsFrom(s, pos) == LiteralsFrom(s, next)
  {
    hide LastQuote, QUOTED, MatchAt, MatchAll;
    forall k | pos <= k < next && k <= |s|
      ensures MatchAt(QUOTED, s, k).None?
    {
      QuotedAt(s, k);
    }
    MatchAllSkips(QUOTED, s, pos, next);
  }

  lemma NoneAtEnd(s: string, pos: nat)
    requires pos >= |s|
    ensures LiteralsFrom(s, pos) == []
  {
    hide LastQuote, QUOTED, MatchAt;
    if pos == |s| {
      QuotedAt(s, pos);
    }
  }

  /** A walk that finds no quote at a boundary: every quote it passed is escaped, and a walk from there finds none either. */
  lemma {:induction false} DeadWalk(s: string, i: nat)
    requires LastQuote(s, i).None?
    ensures forall k :: i <= k <= WalkEnd(s, i) && QuoteAt(s, k) ==> LastQuote(s, k + 1).None?
    decreases |s| - i
  {
    match Piece(s, i)
    case Some(next) => DeadWalk(s, next);
    case None =>
  }

  /** What the scan has spent by `pos`: twice the way come, but for one walk still to be repeated that finds nothing. */
  ghost predicate Paid(s: string, pos: nat, steps: nat) {
    || steps <= 2 * pos
    || (QuoteAt(s, pos) && LastQuote(s, pos + 1).None? && steps <= pos + WalkEnd(s, pos + 1))
  }

  /**
   * The literals of an enum or set list, still escaped: those the expression finds, in at most about twice as many steps as
   * there are characters. A step is one look of `indexOf` or of the walk at a place of the list, the look one past it included.
   */
  method ScanQuotedLiterals(body: string) returns (literals: seq<string>, ghost steps: nat)
    ensures literals == LiteralsFrom(body, 0)
    ensures steps <= 2 * |body| + 2
  {
    hide LiteralsFrom, LastQuote, WalkEnd, IndexOf;
    literals, steps := [], 0;
    var pos := 0;
    while pos < |body|
      invariant pos <= |body| + 1
      invariant literals + LiteralsFrom(body, pos) == LiteralsFrom(body, 0)
      invariant Paid(body, pos, steps)
    {
      var found := IndexOf(body, QUOTE, pos);
      if found.None? {
        steps := steps + (|body| - pos);
        NoLiteral(body, pos, |body|);
        pos := |body|;
        break;
      }
      var open := found.value;
      var stop, lastQuote, looked := Walk(body, open);
      steps := steps + (open - pos + 1) + looked;
      if lastQuote == -1 {
        DeadWalk(body, open + 1);
        NoLiteral(body, pos, stop + 1);
        pos := stop + 1;
        continue;
      }
      NextLiteral(body, pos, open);
      literals := literals + [body[open + 1..lastQuote]];
      pos := lastQuote + 1;
    }
    NoneAtEnd(body, pos);
  }

  /** The walk at one boundary. */
  lemma WalkOn(s: string, i: nat)
    requires i <= |s|
    ensures i == |s| ==> WalkEnd(s, i) == i && LastQuote(s, i) == None
    ensures i < |s| && s[i] == QUOTE && !QuoteAt(s, i + 1) ==> WalkEnd(s, i) == i && LastQuote(s, i) == Some(i)
    ensures QuoteAt(s, i) && QuoteAt(s, i + 1) ==>
              WalkEnd(s, i) == WalkEnd(s, i + 2) && LastQuote(s, i) == match LastQuote(s, i + 2) case Some(last) => Some(last) case None => Some(i)
    ensures i < |s| && s[i] == BACKSLASH && (i + 1 >= |s| || s[i + 1] in LINE_TERMINATORS) ==> WalkEnd(s, i) == i && LastQuote(s, i) == None
    ensures i + 1 < |s| && s[i] == BACKSLASH && s[i + 1] !in LINE_TERMINATORS ==>
              WalkEnd(s, i) == WalkEnd(s, i + 2) && LastQuote(s, i) == LastQuote(s, i + 2)
    ensures i < |s| && s[i] != QUOTE && s[i] != BACKSLASH ==> WalkEnd(s, i) == WalkEnd(s, i + 1) && LastQuote(s, i) == LastQuote(s, i + 1)
  {
  }

  /** The inner loop, from the quote at `open`: where it stops, the last quote it saw at a boundary, and how often it looked at a place. */
  method Walk(body: string, open: nat) returns (i: nat, lastQuote: int, ghost looked: nat)
    requires QuoteAt(body, open)
    ensures open < i <= |body| && i == WalkEnd(body, open + 1) && looked <= i - open + 1
    ensures lastQuote == match LastQuote(body, open + 1) case Some(last) => last case None => -1
    ensures lastQuote != -1 && lastQuote != i ==>
              QuoteAt(body, lastQuote + 1) && LastQuote(body, lastQuote + 2).None? && WalkEnd(body, lastQuote + 2) == i
  {
    hide LastQuote, WalkEnd, Piece;
    i, lastQuote, looked := open + 1, -1, 0;
    while true
      invariant open < i <= |body| && looked <= i - open - 1
      invariant WalkEnd(body, i) == WalkEnd(body, open + 1)
      invariant lastQuote == -1 ==> LastQuote(body, i) == LastQuote(body, open + 1)
      invariant lastQuote != -1 ==> open < lastQuote && lastQuote + 2 <= i && QuoteAt(body, lastQuote + 1)
      invariant lastQuote != -1 ==> LastQuote(body, lastQuote + 2) == LastQuote(body, i) && WalkEnd(body, lastQuote + 2) == WalkEnd(body, i)
      invariant lastQuote != -1 ==>
                  LastQuote(body, open + 1) == match LastQuote(body, i) case Some(last) => Some(last) case None => Some(lastQuote)
      decreases |body| - i
    {
      WalkOn(body, i);
      if i >= |body| {
        break;
      }
      looked := looked + 1;
      var ch := body[i];
      if ch == QUOTE {
        looked := looked + 1;
        lastQuote := i;
        if i + 1 >= |body| || body[i + 1] != QUOTE {
          break;
        }
        i := i + 2;
        continue;
      }
      if ch == BACKSLASH {
        looked := looked + 1;
        if i + 1 >= |body| || body[i + 1] in LINE_TERMINATORS {
          break;
        }
        i := i + 2;
        continue;
      }
      i := i + 1;
    }
  }
}
