/** The values of a check clause as MySQL and MariaDB print it, introducers and all, come back as they were. */
module CheckRoundTrip {
  import opened Wrappers
  import opened Texts
  import opened Regex
  import QuotedLiterals
  import EnumValues
  import opened CheckClause
  import opened CheckEnum

  // ---- what the server prints ---------------------------------------------

  /** A value as a literal with its quotes doubled, and what follows it. */
  function Literal(v: string, rest: string): string {
    "'" + (EnumValues.Double(v) + ("'" + rest))
  }

  /** A value as the server prints it: behind the name of its character set, or behind none. */
  datatype Item = Item(charset: Option<string>, value: string)

  function Prefix(item: Item): string {
    match item.charset case Some(charset) => "_" + charset case None => ""
  }

  function Items(items: seq<Item>): string {
    if items == [] then ""
    else Prefix(items[0]) + Literal(items[0].value, if |items| == 1 then "" else "," + Items(items[1..]))
  }

  function ValuesIn(items: seq<Item>): (vs: seq<string>)
    ensures |vs| == |items| && forall k :: 0 <= k < |vs| ==> vs[k] == items[k].value
  {
    if items == [] then [] else [items[0].value] + ValuesIn(items[1..])
  }

  /** How a clause is written: in parentheses or not, the column quoted or not, the word in either case. */
  datatype Shape = Shape(outer: bool, tick: string, word: string)

  predicate IsShape(shape: Shape) {
    (shape.tick == "" || shape.tick == "`" || shape.tick == "\"") && (shape.word == " in (" || shape.word == " IN (")
  }

  /** As MySQL 8 writes a clause, and as MariaDB does. */
  const MYSQL := Shape(true, "`", " in (")
  const MARIADB := Shape(false, "`", " in (")

  function HeadOf(shape: Shape, column: string): string {
    (if shape.outer then "(" else "") + shape.tick + column + shape.tick + shape.word
  }

  function TailOf(shape: Shape): string {
    if shape.outer then "))" else ")"
  }

  function Printed(shape: Shape, column: string, items: seq<Item>): string {
    HeadOf(shape, column) + (Items(items) + TailOf(shape))
  }

  predicate IsColumn(column: string) {
    && 0 < |column| <= 64
    && (IsLetter(column[0]) || column[0] == '_')
    && forall i :: 0 <= i < |column| ==> IsWord(column[i]) || column[i] == '$'
  }

  /** A name short enough for the introducer's quote to fall in the window. */
  predicate IsCharset(charset: string) {
    && 0 < |charset| < WINDOW - 1
    && IsLetter(charset[0])
    && forall i :: 0 <= i < |charset| ==> IsLetterOrDigit(charset[i])
  }

  /** No backslash, which starts an escape, and no closing parenthesis, at which the list is taken to end. */
  predicate Plain(v: string) {
    forall i :: 0 <= i < |v| ==> v[i] != '\\' && v[i] != ')'
  }

  /** Every value plain, behind a character set's name or none. */
  predicate ItemsOk(items: seq<Item>) {
    forall k :: 0 <= k < |items| ==> ItemOk(items[k])
  }

  predicate ItemOk(item: Item) {
    Plain(item.value) && (item.charset.Some? ==> IsCharset(item.charset.value))
  }

  // ---- normalizing it -----------------------------------------------------

  /** Before a parenthesis with no quote on the way, an underscore introduces nothing. */
  lemma NoIntroducer(text: string, p: nat)
    requires 0 < p < |text| && text[p] == '(' && QUOTE !in text[..p]
    ensures Introducer(text) == 0
  {
    hide SPACES;
    PlainSpaces('(');
    var j := NameRun(text, 1);
    assert j <= p;
    var n := SpaceRun(text, j);
    assert n <= p;
    if n < p {
      assert text[n] in text[..p];
    }
  }

  /** The text up to the parenthesis of the list goes through as it is. */
  lemma {:induction false} HeadKept(head: string, rest: string, last: string)
    requires head != "" && head[|head| - 1] == '(' && QUOTE !in head
    ensures Outside(head + rest, last) == head + Outside(rest, "(")
    decreases |head|
  {
    hide Introducer, AfterWord;
    var text := head + rest;
    assert text[1..] == head[1..] + rest && text[0] == head[0];
    assert head == [head[0]] + head[1..];
    if |head| == 1 {
      assert head == "(" && text[1..] == rest;
    } else {
      assert text[..|head| - 1] == head[..|head| - 1];
      NoIntroducer(text, |head| - 1);
      HeadKept(head[1..], rest, [head[0]]);
    }
  }

  /** A literal goes through as it is, up to its end. */
  lemma {:induction false} LiteralKept(v: string, rest: string)
    requires rest == "" || rest[0] != QUOTE
    ensures Inside(EnumValues.Double(v) + ("'" + rest)) == EnumValues.Double(v) + ("'" + Outside(rest, "'"))
    decreases |v|
  {
    hide Outside, Inside, EnumValues.Double;
    if v == "" {
      EmptyLiteral(rest);
    } else {
      LiteralKept(v[1..], rest);
      FirstOfLiteral(v, "'" + rest);
      Reassociate(if v[0] == QUOTE then "''" else [v[0]], EnumValues.Double(v[1..]), "'" + Outside(rest, "'"));
    }
  }

  lemma Reassociate(a: string, b: string, c: string)
    ensures (a + b) + c == a + (b + c)
  {
  }

  lemma EmptyLiteral(rest: string)
    requires rest == "" || rest[0] != QUOTE
    ensures EnumValues.Double("") == "" && Inside("" + ("'" + rest)) == "" + ("'" + Outside(rest, "'"))
  {
    hide Outside;
    assert "" + ("'" + rest) == "'" + rest && ("'" + rest)[1..] == rest;
  }

  lemma FirstOfLiteral(v: string, tail: string)
    requires v != ""
    ensures var first := if v[0] == QUOTE then "''" else [v[0]];
            && EnumValues.Double(v) == first + EnumValues.Double(v[1..])
            && Inside(EnumValues.Double(v) + tail) == first + Inside(EnumValues.Double(v[1..]) + tail)
  {
    hide Outside, Inside;
    var more := EnumValues.Double(v[1..]) + tail;
    if v[0] == QUOTE {
      Reassociate("''", EnumValues.Double(v[1..]), tail);
      InsideDoubled(more);
    } else {
      Reassociate([v[0]], EnumValues.Double(v[1..]), tail);
      InsideOther(v[0], more);
    }
  }

  lemma IntroducerOf(charset: string, rest: string)
    requires IsCharset(charset)
    ensures var text := "_" + charset + ("'" + rest); Introducer(text) == |charset| + 1 && text[|charset| + 1..] == "'" + rest
  {
    hide SPACES;
    var text := "_" + charset + ("'" + rest);
    var n := |charset| + 1;
    assert forall k :: 1 <= k < n ==> text[k] == charset[k - 1];
    assert text[n] == QUOTE;
    PlainSpaces(QUOTE);
    NameRunIs(text, 1, n);
    SpaceRunIs(text, n, n);
  }

  /** An introducer goes and its literal stays. */
  lemma ItemKept(item: Item, rest: string, last: string)
    requires (item.charset.Some? ==> IsCharset(item.charset.value)) && !AfterWord(last) && (rest == "" || rest[0] != QUOTE)
    ensures Outside(Prefix(item) + Literal(item.value, rest), last) == Literal(item.value, Outside(rest, "'"))
  {
    hide Introducer, AfterWord, Inside, IsCharset, EnumValues.Double, Outside;
    var inner := EnumValues.Double(item.value) + ("'" + rest);
    LiteralKept(item.value, rest);
    QuoteOpens(inner, last);
    match item.charset
    case Some(charset) =>
      IntroducerOf(charset, inner);
      Dropped("_" + charset + ("'" + inner), last);
    case None =>
      assert "" + ("'" + inner) == "'" + inner;
  }

  lemma Dropped(text: string, last: string)
    requires text != "" && text[0] == '_' && !AfterWord(last) && Introducer(text) > 0
    ensures Introducer(text) <= |text| && Outside(text, last) == Outside(text[Introducer(text)..], last)
  {
    hide Introducer, AfterWord, Inside;
    IntroducerLength(text);
  }

  lemma {:induction false} ItemsKept(items: seq<Item>, tail: string, last: string)
    requires ItemsOk(items) && items != [] && !AfterWord(last) && tail != "" && tail[0] != QUOTE && Outside(tail, "'") == tail
    ensures Outside(Items(items) + tail, last) == EnumValues.PrintList(ValuesIn(items)) + tail
    decreases |items|
  {
    hide Introducer, Inside, IsCharset, AfterWord, EnumValues.Double, Outside, Literal, Plain;
    assert ItemOk(items[0]);
    var vs := ValuesIn(items);
    if |items| == 1 {
      ItemKept(items[0], tail, last);
      FirstItem(items, tail, tail, tail);
    } else {
      var more := Items(items[1..]) + tail;
      ItemKept(items[0], "," + more, last);
      FirstItem(items, tail, "," + more, "," + (EnumValues.PrintList(ValuesIn(items[1..])) + tail));
      OtherChar(',', more, "'");
      NotAfterWord();
      assert ItemsOk(items[1..]);
      ItemsKept(items[1..], tail, ",");
    }
  }

  lemma TailKept(shape: Shape)
    ensures Outside(TailOf(shape), "'") == TailOf(shape)
  {
    hide Outside;
    OtherChar(')', "", "'");
    OtherChar(')', "", ")");
    OtherChar(')', ")", "'");
    EndOfText(")");
    assert [')'] + "" == ")" && [')'] + ")" == "))";
  }

  /** The first item of a list, and what follows it, before and after. */
  lemma FirstItem(items: seq<Item>, tail: string, before: string, after: string)
    requires items != []
    requires before == if |items| == 1 then tail else "," + (Items(items[1..]) + tail)
    requires after == if |items| == 1 then tail else "," + (EnumValues.PrintList(ValuesIn(items[1..])) + tail)
    ensures Items(items) + tail == Prefix(items[0]) + Literal(items[0].value, before)
    ensures EnumValues.PrintList(ValuesIn(items)) + tail == Literal(items[0].value, after)
  {
    hide EnumValues.Double, Items, EnumValues.PrintList, Literal, Prefix, ValuesIn;
    var vs := ValuesIn(items);
    FirstOfValues(items);
    FirstOfItems(items);
    FirstOfList(vs);
    var more := if |items| == 1 then "" else "," + Items(items[1..]);
    var listed := if |items| == 1 then "" else "," + EnumValues.PrintList(vs[1..]);
    if |items| == 1 {
      assert more + tail == tail && listed + tail == tail;
    } else {
      Reassociate(",", Items(items[1..]), tail);
      Reassociate(",", EnumValues.PrintList(vs[1..]), tail);
    }
    LiteralThen(vs[0], more, tail);
    LiteralThen(vs[0], listed, tail);
    Reassociate(Prefix(items[0]), Literal(vs[0], more), tail);
  }

  lemma FirstOfValues(items: seq<Item>)
    requires items != []
    ensures var vs := ValuesIn(items); |vs| == |items| && vs[0] == items[0].value && vs[1..] == ValuesIn(items[1..])
  {
  }

  lemma FirstOfItems(items: seq<Item>)
    requires items != []
    ensures Items(items) == Prefix(items[0]) + Literal(items[0].value, if |items| == 1 then "" else "," + Items(items[1..]))
  {
    hide EnumValues.Double, Literal, Prefix;
  }

  lemma FirstOfList(vs: seq<string>)
    requires vs != []
    ensures EnumValues.PrintList(vs) == Literal(vs[0], if |vs| == 1 then "" else "," + EnumValues.PrintList(vs[1..]))
  {
    hide EnumValues.Double;
    var d, rest := EnumValues.Double(vs[0]), if |vs| == 1 then "" else "," + EnumValues.PrintList(vs[1..]);
    Reassociate("'" + d, "'", rest);
    Reassociate("'", d, "'" + rest);
  }

  lemma LiteralThen(v: string, rest: string, end: string)
    ensures Literal(v, rest) + end == Literal(v, rest + end)
  {
    hide EnumValues.Double;
    var d := EnumValues.Double(v);
    Reassociate("'", d + ("'" + rest), end);
    Reassociate(d, "'" + rest, end);
    Reassociate("'", rest, end);
  }

  lemma NotAfterWord()
    ensures !AfterWord(",") && !AfterWord("(")
  {
  }

  // ---- nothing to unescape ------------------------------------------------

  lemma {:induction false} DoubleAvoids(v: string, c: char)
    requires c !in v && c != QUOTE
    ensures c !in EnumValues.Double(v)
  {
    if v != "" {
      DoubleAvoids(v[1..], c);
    }
  }

  predicate Avoids(item: Item, c: char) {
    c !in Prefix(item) && c !in item.value
  }

  lemma {:induction false} ItemsAvoid(items: seq<Item>, c: char)
    requires c != QUOTE && c != ',' && forall k :: 0 <= k < |items| ==> Avoids(items[k], c)
    ensures c !in Items(items)
    decreases |items|
  {
    hide EnumValues.Double, Prefix;
    if items != [] {
      assert Avoids(items[0], c);
      DoubleAvoids(items[0].value, c);
      ItemsAvoid(items[1..], c);
    }
  }

  lemma {:induction false} ListAvoids(vs: seq<string>, c: char)
    requires c != QUOTE && c != ',' && forall k :: 0 <= k < |vs| ==> c !in vs[k]
    ensures c !in EnumValues.PrintList(vs)
    decreases |vs|
  {
    hide EnumValues.Double;
    if vs != [] {
      DoubleAvoids(vs[0], c);
      ListAvoids(vs[1..], c);
    }
  }

  lemma ColumnPlain(column: string)
    requires IsColumn(column)
    ensures '\\' !in column && QUOTE !in column
  {
  }

  lemma HeadPlain(shape: Shape, column: string)
    requires IsShape(shape) && IsColumn(column)
    ensures '\\' !in HeadOf(shape, column) && QUOTE !in HeadOf(shape, column)
    ensures HeadOf(shape, column) != "" && HeadOf(shape, column)[|HeadOf(shape, column)| - 1] == '('
  {
    hide IsColumn;
    ColumnPlain(column);
    var before := (if shape.outer then "(" else "") + shape.tick + column + shape.tick;
    assert '\\' !in before && QUOTE !in before;
    assert HeadOf(shape, column) == before + shape.word;
  }

  lemma NoBackslashPrinted(shape: Shape, column: string, items: seq<Item>)
    requires IsShape(shape) && IsColumn(column) && ItemsOk(items)
    ensures '\\' !in Printed(shape, column, items)
  {
    hide Items, HeadOf, IsColumn;
    HeadPlain(shape, column);
    forall k | 0 <= k < |items|
      ensures Avoids(items[k], '\\')
    {
      assert ItemOk(items[k]);
    }
    ItemsAvoid(items, '\\');
  }

  lemma NothingUnescaped(text: string)
    requires '\\' !in text
    ensures Unescaped(text) == text
  {
    hide ReplaceAll;
    EnumValues.NothingEscaped(text);
  }

  lemma PrintedNormalized(shape: Shape, column: string, items: seq<Item>)
    requires IsShape(shape) && IsColumn(column) && ItemsOk(items) && items != []
    ensures Normalized(Printed(shape, column, items)) == HeadOf(shape, column) + (EnumValues.PrintList(ValuesIn(items)) + TailOf(shape))
  {
    hide Items, Outside, ItemsOk, AfterWord, IsColumn, IsShape, HeadOf, ReplaceAll, EnumValues.PrintList;
    NoBackslashPrinted(shape, column, items);
    NothingUnescaped(Printed(shape, column, items));
    HeadPlain(shape, column);
    HeadKept(HeadOf(shape, column), Items(items) + TailOf(shape), "");
    NotAfterWord();
    TailKept(shape);
    ItemsKept(items, TailOf(shape), "(");
  }

  // ---- reading it ---------------------------------------------------------

  lemma NameAccepts(c: char)
    ensures Accepts(NAME, c) <==> IsWord(c) || c == '$'
    ensures Accepts(FIRST, c) <==> IsLetter(c) || c == '_'
    ensures Accepts(TICK, c) <==> c == '`' || c == '"'
  {
  }

  lemma BlankOnly(c: char)
    requires IsLetter(c) || c == '('
    ensures Accepts(SPACE, ' ') && !Accepts(SPACE, c)
  {
    PlainSpaces(c);
    Blank();
  }

  /** ` in (` at `p`, in either case. */
  lemma InMatches(s: string, x: Found, word: string)
    requires word == " in (" || word == " IN ("
    requires x.end + 5 <= |s| && s[x.end..x.end + 5] == word
    ensures Ends(IN, s, x) == [x.(end := x.end + 5)]
  {
    hide Ends, EndsOfEach, Accepts, SPACES;
    var p := x.end;
    assert s[p] == s[p..p + 5][0] && s[p + 1] == s[p..p + 5][1] && s[p + 2] == s[p..p + 5][2];
    assert s[p + 3] == s[p..p + 5][3] && s[p + 4] == s[p..p + 5][4];
    OneBlank(s, x);
    ThenOne(Plus(SPACE), IN.second, s, x, x.(end := p + 1));
    LetterMatches({'i', 'I'}, s, x.(end := p + 1));
    ThenOne(Class(false, {'i', 'I'}), IN.second.second, s, x.(end := p + 1), x.(end := p + 2));
    LetterMatches({'n', 'N'}, s, x.(end := p + 2));
    ThenOne(Class(false, {'n', 'N'}), IN.second.second.second, s, x.(end := p + 2), x.(end := p + 3));
    OneBlank(s, x.(end := p + 3));
    ThenOne(Plus(SPACE), Lit('('), s, x.(end := p + 3), x.(end := p + 4));
    QuotedLiterals.EndsOfLit('(', s, x.(end := p + 4));
  }

  lemma LetterMatches(cs: set<char>, s: string, x: Found)
    requires x.end < |s| && s[x.end] in cs
    ensures Ends(Class(false, cs), s, x) == [x.(end := x.end + 1)]
  {
    EndsOfClass(Class(false, cs), s, x);
  }

  /** One blank and no more. */
  lemma OneBlank(s: string, x: Found)
    requires x.end + 1 < |s| && s[x.end] == ' ' && (IsLetter(s[x.end + 1]) || s[x.end + 1] == '(')
    ensures Ends(Plus(SPACE), s, x) == [x.(end := x.end + 1)]
  {
    hide Ends, Accepts, SPACES;
    var y := x.(end := x.end + 1);
    BlankOnly(s[x.end + 1]);
    EndsOfClass(SPACE, s, x);
    ThenOne(SPACE, Star(SPACE), s, x, y);
    EndsOfRun(SPACE, s, y, 0);
    assert Ends(Star(SPACE), s, y) == [y];
  }

  lemma ColumnChars(s: string, p: nat, column: string)
    requires IsColumn(column) && p + |column| < |s| && s[p..p + |column|] == column
    ensures 0 < |column| <= NAME_MAX && Accepts(FIRST, s[p]) && forall i :: p < i < p + |column| ==> Accepts(NAME, s[i])
  {
    hide Accepts;
    forall i | p <= i < p + |column|
      ensures s[i] == column[i - p] && Accepts(NAME, s[i])
    {
      assert s[i] == s[p..p + |column|][i - p];
      NameAccepts(s[i]);
    }
    NameAccepts(s[p]);
  }

  /** A run of `n` characters of which the first is one of `first` and the others, at most `most`, are the longest run of `more`. */
  lemma RunMatches(first: Pattern, more: Pattern, most: nat, s: string, n: nat, x: Found)
    requires first.Class? && more.Class? && 0 < n <= most + 1 && x.end + n < |s|
    requires Accepts(first, s[x.end]) && (forall i :: x.end < i < x.end + n ==> Accepts(more, s[i])) && !Accepts(more, s[x.end + n])
    ensures var ends := Ends(Group(1, Then(first, UpTo(more, most))), s, x);
            ends != [] && ends[0] == x.(end := x.end + n, groups := x.groups[1 := (x.end, x.end + n)])
  {
    hide Ends, Accepts, UpTo;
    var y := x.(end := x.end + 1);
    EndsOfClass(first, s, x);
    UpToRun(more, most, s, y, n - 1);
    ThenOne(first, UpTo(more, most), s, x, y);
    GroupEnds(1, Then(first, UpTo(more, most)), s, x);
  }

  /** The name of the column. */
  lemma ColumnMatches(s: string, column: string, x: Found)
    requires IsColumn(column) && x.end + |column| < |s| && s[x.end..x.end + |column|] == column && !Accepts(NAME, s[x.end + |column|])
    ensures var ends := Ends(Group(1, Then(FIRST, UpTo(NAME, NAME_MAX - 1))), s, x);
            ends != [] && ends[0] == x.(end := x.end + |column|, groups := x.groups[1 := (x.end, x.end + |column|)])
  {
    hide Ends, Accepts, UpTo, IsColumn;
    ColumnChars(s, x.end, column);
    RunMatches(FIRST, NAME, NAME_MAX - 1, s, |column|, x);
  }

  /** The quote around the column, there or not. */
  lemma TickMatches(s: string, x: Found, tick: string)
    requires x.end + |tick| < |s| && s[x.end..x.end + |tick|] == tick && (tick == "" || tick == "`" || tick == "\"")
    requires tick == "" ==> s[x.end] != '`' && s[x.end] != '"'
    ensures Ends(Optional(TICK), s, x) != [] && Ends(Optional(TICK), s, x)[0] == x.(end := x.end + |tick|)
  {
    hide Ends, Accepts;
    NameAccepts(s[x.end]);
    if tick == "" {
      OptionalAbsent(TICK, s, x);
    } else {
      assert s[x.end] == s[x.end..x.end + 1][0] == tick[0];
      EndsOfClass(TICK, s, x);
      OrEnds(TICK, Nothing, s, x);
    }
  }

  /** The head of the check at `p`, its column captured. */
  lemma HeadMatches(s: string, p: nat, tick: string, column: string, word: string)
    requires IsColumn(column) && (tick == "" || tick == "`" || tick == "\"") && (word == " in (" || word == " IN (")
    requires var q, r := p + |tick|, p + |tick| + |column| + |tick|;
             && r + 5 <= |s| && s[p..q] == tick && s[q..q + |column|] == column && s[q + |column|..r] == tick && s[r..r + 5] == word
    ensures var q := p + |tick|; MatchAt(HEAD, s, p) == Some(Found(q + |column| + |tick| + 5, map[1 := (q, q + |column|)]))
  {
    hide Ends, Accepts, UpTo, IN, IsColumn;
    var q, r := p + |tick|, p + |tick| + |column| + |tick|;
    var x, y, z := Found(p, map[]), Found(q, map[]), Found(q + |column|, map[1 := (q, q + |column|)]);
    Chars(s, q, column, tick, word);
    TickMatches(s, x, tick);
    NameAccepts(s[q + |column|]);
    ColumnMatches(s, column, y);
    TickMatches(s, z, tick);
    var w := z.(end := r);
    InMatches(s, w, word);
    ThenFirst(Optional(TICK), IN, s, z);
    ThenFirst(HEAD.second.first, HEAD.second.second, s, y);
    ThenFirst(Optional(TICK), HEAD.second, s, x);
  }

  lemma Chars(s: string, q: nat, column: string, tick: string, word: string)
    requires IsColumn(column) && (tick == "" || tick == "`" || tick == "\"") && (word == " in (" || word == " IN (")
    requires var r := q + |column| + |tick|; r + 5 <= |s| && s[q..q + |column|] == column && s[q + |column|..r] == tick && s[r..r + 5] == word
    ensures s[q] != '`' && s[q] != '"'
    ensures var c := s[q + |column|]; !IsWord(c) && c != '$' && (tick == "" ==> c == ' ')
  {
    var r := q + |column| + |tick|;
    assert s[q] == s[q..q + |column|][0] == column[0];
    assert s[r] == s[r..r + 5][0] == ' ';
    if tick != "" {
      assert s[q + |column|] == s[q + |column|..r][0] == tick[0];
    }
  }

  /** Nothing starts at the parenthesis around a clause. */
  lemma NoHeadAtParenthesis(s: string)
    requires s != "" && s[0] == '('
    ensures MatchAt(HEAD, s, 0) == None
  {
    hide Ends, Accepts, UpTo, IN;
    var x := Found(0, map[]);
    NameAccepts('(');
    OptionalAbsent(TICK, s, x);
    ThenOne(Optional(TICK), HEAD.second, s, x, x);
    EndsOfClass(FIRST, s, x);
    ThenNone(FIRST, UpTo(NAME, NAME_MAX - 1), s, x);
    GroupEnds(1, Then(FIRST, UpTo(NAME, NAME_MAX - 1)), s, x);
    ThenNone(HEAD.second.first, HEAD.second.second, s, x);
  }

  // ---- the round trip -----------------------------------------------------

  lemma {:induction false} UndoublesAll(vs: seq<string>)
    ensures Undoubled(EnumValues.DoubleAll(vs)) == vs
  {
    hide EnumValues.Double, ReplaceAll;
    if vs != [] {
      EnumValues.UndoubledValue(vs[0]);
      UndoublesAll(vs[1..]);
    }
  }

  lemma PlainValues(items: seq<Item>)
    requires ItemsOk(items)
    ensures EnumValues.AllReadable(ValuesIn(items))
    ensures forall k :: 0 <= k < |items| ==> '\\' !in ValuesIn(items)[k] && ')' !in ValuesIn(items)[k]
  {
    forall k | 0 <= k < |items|
      ensures Plain(ValuesIn(items)[k]) && EnumValues.Readable(ValuesIn(items)[k])
    {
      assert ItemOk(items[k]);
      EnumValues.PlainIsReadable(ValuesIn(items)[k]);
    }
  }

  /** The values between the parentheses. */
  lemma ListValues(items: seq<Item>)
    requires ItemsOk(items)
    ensures ValuesOf(EnumValues.PrintList(ValuesIn(items))) == ValuesIn(items)
  {
    hide ItemsOk, EnumValues.PrintList, EnumValues.AllReadable, MatchAll, Undoubled, QuotedLiterals.Captures;
    var vs := ValuesIn(items);
    var list := EnumValues.PrintList(vs);
    PlainValues(items);
    ListAvoids(vs, '\\');
    assert NoBackslash(list);
    SameMatches(list, 0);
    assert list[0..] == list;
    EnumValues.LiteralsOfList(list, 0, vs);
    UndoublesAll(vs);
  }

  lemma CloseAt(text: string, from: nat, at: nat)
    requires from <= at < |text| && text[at] == ')' && ')' !in text[from..at]
    ensures QuotedLiterals.IndexOf(text, ')', from) == Some(at)
  {
    assert forall k :: from <= k < at ==> text[k] == text[from..at][k - from];
  }

  /** The parts of a clause's head, at their places. */
  lemma HeadParts(shape: Shape, column: string, rest: string)
    requires IsShape(shape) && IsColumn(column)
    ensures var text, p := HeadOf(shape, column) + rest, if shape.outer then 1 else 0;
            var q := p + |shape.tick|;
            var r := q + |column| + |shape.tick|;
            && |HeadOf(shape, column)| == r + 5 && r + 5 <= |text|
            && text[p..q] == shape.tick && text[q..q + |column|] == column && text[q + |column|..r] == shape.tick && text[r..r + 5] == shape.word
            && (shape.outer ==> text[0] == '(')
  {
    hide IsColumn, HeadOf, IsShape;
    var outer, tick, text := if shape.outer then "(" else "", shape.tick, HeadOf(shape, column) + rest;
    HeadIs(shape, column);
    PartOf(text, outer + tick + column + tick, shape.word);
    PartOf(text, outer + tick + column, tick);
    PartOf(text, outer + tick, column);
    PartOf(text, outer, tick);
  }

  lemma HeadIs(shape: Shape, column: string)
    requires IsShape(shape)
    ensures HeadOf(shape, column) == (if shape.outer then "(" else "") + shape.tick + column + shape.tick + shape.word && |shape.word| == 5
  {
  }

  lemma PartOf(text: string, before: string, part: string)
    requires before + part <= text
    ensures before <= text && text[|before|..|before| + |part|] == part
  {
    assert text[..|before| + |part|] == before + part;
    assert text[|before|..|before| + |part|] == (before + part)[|before|..];
  }

  /** Where the head of a clause is first found. */
  lemma HeadFound(shape: Shape, column: string, rest: string)
    requires IsShape(shape) && IsColumn(column)
    ensures var text, p := HeadOf(shape, column) + rest, if shape.outer then 1 else 0;
            var q := p + |shape.tick|;
            && Search(HEAD, text, 0) == Some(p)
            && MatchAt(HEAD, text, p) == Some(Found(|HeadOf(shape, column)|, map[1 := (q, q + |column|)]))
            && q + |column| <= |text| && text[q..q + |column|] == column
  {
    hide MatchAt, IsColumn, HeadOf;
    var text, p := HeadOf(shape, column) + rest, if shape.outer then 1 else 0;
    HeadParts(shape, column, rest);
    HeadMatches(text, p, shape.tick, column, shape.word);
    if shape.outer {
      NoHeadAtParenthesis(text);
      assert Search(HEAD, text, 1) == Some(1);
    }
  }

  /**
   * The clause as MySQL 8 and MariaDB print it, and every other way it can be written: any values free of backslashes and closing
   * parentheses, with any underscores, commas, blanks or quotes in them, each behind its own introducer or none.
   */
  lemma PrintedCheckIsRead(shape: Shape, column: string, items: seq<Item>)
    requires IsShape(shape) && IsColumn(column) && ItemsOk(items) && items != []
    ensures ParseCheckEnum(Printed(shape, column, items)) == Some(Parsed(column, ValuesIn(items)))
  {
    hide Normalized, IsColumn, ItemsOk, MatchAt, Search, EnumValues.PrintList, ValuesOf, Items, EnumValues.AllReadable, HeadOf, IsShape, Printed;
    PrintedNormalized(shape, column, items);
    var list, head := EnumValues.PrintList(ValuesIn(items)), HeadOf(shape, column);
    var text, start := head + (list + TailOf(shape)), |head|;
    HeadFound(shape, column, list + TailOf(shape));
    assert text[start..start + |list|] == list && text[start + |list|] == ')';
    PlainValues(items);
    ListAvoids(ValuesIn(items), ')');
    CloseAt(text, start, start + |list|);
    ListNotEmpty(ValuesIn(items));
    ListValues(items);
  }

  lemma ListNotEmpty(vs: seq<string>)
    requires vs != []
    ensures EnumValues.PrintList(vs) != ""
  {
  }

  // ---- and no others ------------------------------------------------------

  lemma {:induction false} ReplaceAvoids(s: string, what: string, with: string, c: char)
    requires what != "" && c !in s && c !in with
    ensures c !in ReplaceAll(s, what, with)
    decreases |s|
  {
    if s == "" {
    } else if |s| >= |what| && s[..|what|] == what {
      ReplaceAvoids(s[|what|..], what, with, c);
    } else {
      ReplaceAvoids(s[1..], what, with, c);
    }
  }

  lemma {:induction false} CapturesAvoid(s: string, ms: seq<Found>, c: char)
    requires c !in s && c != QUOTE
    ensures forall k :: 0 <= k < |Undoubled(QuotedLiterals.Captures(s, ms))| ==> c !in Undoubled(QuotedLiterals.Captures(s, ms))[k]
  {
    hide ReplaceAll;
    if ms != [] {
      CapturesAvoid(s, ms[1..], c);
      ReplaceAvoids(QuotedLiterals.Capture(s, ms[0]), "''", "'", c);
    }
  }

  /** Whatever the clause, no value read from it holds a closing parenthesis. */
  lemma {:induction false} ValuesAreUnclosed(text: string, from: nat)
    requires ParseFrom(text, from).Some?
    ensures forall k :: 0 <= k < |ParseFrom(text, from).value.values| ==> ')' !in ParseFrom(text, from).value.values[k]
    decreases |text| + 1 - from
  {
    hide MatchAt, MatchAll, Undoubled, QuotedLiterals.Captures, QuotedLiterals.Capture;
    var at := Search(HEAD, text, from).value;
    HeadMovesOn(text, at);
    var start := MatchAt(HEAD, text, at).value.end;
    var end := QuotedLiterals.IndexOf(text, ')', start).value;
    if end > start {
      var list := text[start..end];
      CapturesAvoid(list, MatchAll(VALUE, list, 0), ')');
    } else {
      ValuesAreUnclosed(text, start);
    }
  }

  /** A printed check without backslashes is read back if and only if none of its values holds a closing parenthesis. */
  lemma ReadExactlyWhenUnclosed(shape: Shape, column: string, items: seq<Item>)
    requires IsShape(shape) && IsColumn(column) && items != []
    requires forall k :: 0 <= k < |items| ==> '\\' !in items[k].value && (items[k].charset.Some? ==> IsCharset(items[k].charset.value))
    ensures ParseCheckEnum(Printed(shape, column, items)) == Some(Parsed(column, ValuesIn(items))) <==>
            forall k :: 0 <= k < |items| ==> ')' !in items[k].value
  {
    hide IsShape, IsColumn, IsCharset, Normalized, ParseFrom, Printed;
    if forall k :: 0 <= k < |items| ==> ')' !in items[k].value {
      forall k | 0 <= k < |items|
        ensures ItemOk(items[k])
      {
      }
      PrintedCheckIsRead(shape, column, items);
    } else {
      var k :| 0 <= k < |items| && ')' in items[k].value;
      assert ValuesIn(items)[k] == items[k].value;
      if ParseCheckEnum(Printed(shape, column, items)).Some? {
        ValuesAreUnclosed(Normalized(Printed(shape, column, items)), 0);
      }
    }
  }

  /** A value with a closing parenthesis, as MariaDB prints its check. */
  lemma ClosingParenthesisIsLost()
    ensures Printed(MARIADB, "tier", [Item(None, "a)b"), Item(None, "pro")]) == "`tier` in ('a)b','pro')"
    ensures ParseCheckEnum("`tier` in ('a)b','pro')") != Some(Parsed("tier", ["a)b", "pro"]))
  {
    hide IsColumn, IsCharset, Printed, Items, ParseCheckEnum;
    var items := [Item(None, "a)b"), Item(None, "pro")];
    TierPrinted(items);
    TierIsColumn();
    assert "a)b"[1] == ')' && "pro"[0] == 'p' && ')' in items[0].value;
    assert ValuesIn(items) == ["a)b", "pro"];
    ReadExactlyWhenUnclosed(MARIADB, "tier", items);
  }

  lemma TierIsColumn()
    ensures IsColumn("tier")
  {
  }

  lemma TierItems(items: seq<Item>)
    requires items == [Item(None, "a)b"), Item(None, "pro")]
    ensures Items(items) == "'a)b','pro'"
  {
    hide EnumValues.Double;
    PlainDouble("a)b");
    PlainDouble("pro");
    var last := items[1..];
    assert last == [Item(None, "pro")];
    assert Items(last) == "" + Literal("pro", "") == "'pro'";
    assert Items(items) == "" + Literal("a)b", "," + "'pro'");
  }

  lemma TierPrinted(items: seq<Item>)
    requires items == [Item(None, "a)b"), Item(None, "pro")]
    ensures Printed(MARIADB, "tier", items) == "`tier` in ('a)b','pro')"
  {
    hide Items;
    TierItems(items);
    assert Printed(MARIADB, "tier", items) == "" + "`" + "tier" + "`" + " in (" + (Items(items) + ")");
  }

  lemma {:induction false} PlainDouble(v: string)
    requires QUOTE !in v
    ensures EnumValues.Double(v) == v
  {
    if v != "" {
      PlainDouble(v[1..]);
    }
  }

  // ---- with its quotes escaped --------------------------------------------

  /** As MySQL 8 hands a clause out: a backslash before every quote. */
  function Escaped(text: string): string {
    if text == "" then "" else (if text[0] == QUOTE then "\\'" else [text[0]]) + Escaped(text[1..])
  }

  lemma {:induction false} UnescapedEscaped(text: string)
    requires '\\' !in text
    ensures Unescaped(Escaped(text)) == text
    decreases |text|
  {
    if text != "" {
      UnescapedEscaped(text[1..]);
      var e := Escaped(text);
      if text[0] == QUOTE {
        assert e[..2] == "\\'" && e[2..] == Escaped(text[1..]);
      } else {
        assert e[0] == text[0] && e[1..] == Escaped(text[1..]);
        assert |e| >= 2 ==> e[..2][0] != "\\'"[0];
      }
      assert text == [text[0]] + text[1..];
    }
  }

  /** The same clause with a backslash before every quote reads the same: with `MYSQL`, exactly what MySQL 8 hands out. */
  lemma EscapedCheckIsRead(shape: Shape, column: string, items: seq<Item>)
    requires IsShape(shape) && IsColumn(column) && ItemsOk(items) && items != []
    ensures ParseCheckEnum(Escaped(Printed(shape, column, items))) == Some(Parsed(column, ValuesIn(items)))
  {
    hide Outside, ReplaceAll, Items, ParseFrom, Escaped, Printed, IsColumn, ItemsOk, IsShape;
    PrintedCheckIsRead(shape, column, items);
    NoBackslashPrinted(shape, column, items);
    NothingUnescaped(Printed(shape, column, items));
    UnescapedEscaped(Printed(shape, column, items));
  }

  /** The two servers' clauses: MySQL 8's escaped and with introducers, MariaDB's plain and without. */
  lemma ServerClausesAreRead(column: string, items: seq<Item>)
    requires IsColumn(column) && ItemsOk(items) && items != []
    ensures ParseCheckEnum(Escaped("(`" + column + "` in (" + Items(items) + "))")) == Some(Parsed(column, ValuesIn(items)))
    ensures ParseCheckEnum("`" + column + "` in (" + Items(items) + ")") == Some(Parsed(column, ValuesIn(items)))
  {
    hide IsColumn, ItemsOk, Items, ParseCheckEnum, Escaped;
    EscapedCheckIsRead(MYSQL, column, items);
    assert Printed(MYSQL, column, items) == "(`" + column + "` in (" + Items(items) + "))";
    PrintedCheckIsRead(MARIADB, column, items);
    assert Printed(MARIADB, column, items) == "`" + column + "` in (" + Items(items) + ")";
  }
}
