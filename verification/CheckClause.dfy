/** introspect.ts of the MySQL adapter: dropping the charset introducers of a CHECK clause without touching its literals. */
module CheckClause {
  import opened Texts

  const QUOTE := '\''

  // ---- introducers --------------------------------------------------------

  predicate IsLetterOrDigit(c: char) {
    IsLetter(c) || '0' <= c <= '9'
  }

  function NameRun(s: string, i: nat): (j: nat)
    ensures i <= j && (i <= |s| ==> j <= |s|)
    ensures forall k :: i <= k < j ==> k < |s| && IsLetterOrDigit(s[k])
    ensures j < |s| ==> !IsLetterOrDigit(s[j])
    decreases |s| - i
  {
    if i < |s| && IsLetterOrDigit(s[i]) then NameRun(s, i + 1) else i
  }

  function SpaceRun(s: string, i: nat): (j: nat)
    ensures i <= j && (i <= |s| ==> j <= |s|)
    ensures forall k :: i <= k < j ==> k < |s| && s[k] in SPACES
    ensures j < |s| ==> s[j] !in SPACES
    decreases |s| - i
  {
    if i < |s| && s[i] in SPACES then SpaceRun(s, i + 1) else i
  }

  const WINDOW := 80

  /** The length of what `/^_[a-z][a-z0-9]*\s*(?=')/i` matches in the first 80 characters of `s`, or 0. */
  function Introducer(s: string): (n: nat)
    ensures n > 0 ==> n < |s| && s[0] == '_' && s[n] == QUOTE && QUOTE !in s[..n]
  {
    if |s| < 2 || s[0] != '_' || !IsLetter(s[1]) then 0
    else
      var n := SpaceRun(s, NameRun(s, 1));
      if n < |s| && n < WINDOW && s[n] == QUOTE then n else 0
  }

  // ---- normalizeCheckClause -----------------------------------------------

  /** `/[\w$]/.test(out.at(-1) ?? '')`. */
  predicate AfterWord(out: string) {
    out != "" && (IsWord(out[|out| - 1]) || out[|out| - 1] == '$')
  }

  /** What the loop adds from `text` on, outside a literal, `last` being the last character written. */
  function Outside(text: string, last: string): string
    decreases |text|
  {
    if text == "" then ""
    else if text[0] == QUOTE then [QUOTE] + Inside(text[1..])
    else if text[0] == '_' && !AfterWord(last) && Introducer(text) > 0 then Outside(text[Introducer(text)..], last)
    else [text[0]] + Outside(text[1..], [text[0]])
  }

  function Inside(text: string): string
    decreases |text|
  {
    if text == "" then ""
    else if text[0] != QUOTE then [text[0]] + Inside(text[1..])
    else if |text| > 1 && text[1] == QUOTE then [QUOTE, QUOTE] + Inside(text[2..])
    else [QUOTE] + Outside(text[1..], [QUOTE])
  }

  /** A backslash before a quote is taken off, as MySQL 8 puts one before the quotes around a literal. */
  function Unescaped(clause: string): string {
    ReplaceAll(clause, "\\'", "'")
  }

  function Normalized(clause: string): string {
    Outside(Unescaped(clause), "")
  }

  // ---- the loop -----------------------------------------------------------

  lemma LastOnly(text: string, out: string, last: string)
    requires AfterWord(out) == AfterWord(last)
    ensures Outside(text, out) == Outside(text, last)
    decreases |text|
  {
    if text != "" && text[0] == '_' && !AfterWord(last) && Introducer(text) > 0 {
      LastOnly(text[Introducer(text)..], out, last);
    }
  }

  method NormalizeCheckClause(clause: string) returns (out: string)
    ensures out == Normalized(clause)
  {
    hide Introducer, Outside, Inside;
    var text := Unescaped(clause);
    out := "";
    var inside := false;
    var i := 0;
    assert text[0..] == text;
    while i < |text|
      invariant i <= |text|
      invariant out + (if inside then Inside(text[i..]) else Outside(text[i..], out)) == Normalized(clause)
      decreases |text| - i
    {
      var ch, rest := text[i], text[i..];
      OneChar(text, i, out);
      OneCharInside(text, i, out);
      if inside {
        if ch == QUOTE {
          if i + 1 < |text| && text[i + 1] == QUOTE {
            out := out + [QUOTE, QUOTE];
            i := i + 1;
          } else {
            out := out + [ch];
            inside := false;
          }
        } else {
          out := out + [ch];
        }
      } else if ch == QUOTE {
        inside := true;
        out := out + [ch];
      } else {
        var n := if ch == '_' && !AfterWord(out) then Introducer(rest) else 0;
        if n > 0 {
          i := i + (n - 1);
        } else {
          out := out + [ch];
        }
      }
      i := i + 1;
    }
    EndOfText(out);
    assert text[i..] == "";
  }

  lemma EndOfText(out: string)
    ensures Inside("") == "" && Outside("", out) == ""
  {
  }

  /** What one character adds to what is written, outside a literal. */
  lemma OneChar(text: string, i: nat, out: string)
    requires i < |text|
    ensures var ch, rest := text[i], text[i..];
            && (ch == QUOTE ==> out + Outside(rest, out) == (out + [ch]) + Inside(text[i + 1..]))
            && (ch == '_' && !AfterWord(out) && Introducer(rest) > 0 ==>
                  i + Introducer(rest) <= |text| && Outside(rest, out) == Outside(text[i + Introducer(rest)..], out))
            && (ch != QUOTE && !(ch == '_' && !AfterWord(out) && Introducer(rest) > 0) ==>
                  out + Outside(rest, out) == (out + [ch]) + Outside(text[i + 1..], out + [ch]))
  {
    hide Introducer, IsWord, Inside;
    var ch, rest := text[i], text[i..];
    assert rest[0] == ch && rest[1..] == text[i + 1..];
    if Introducer(rest) > 0 {
      IntroducerLength(rest);
      assert rest[Introducer(rest)..] == text[i + Introducer(rest)..];
    }
    LastOnly(text[i + 1..], out + [ch], [ch]);
  }

  /** What one character adds to what is written, inside a literal. */
  lemma OneCharInside(text: string, i: nat, out: string)
    requires i < |text|
    ensures var ch, rest := text[i], text[i..];
            && (ch != QUOTE ==> out + Inside(rest) == (out + [ch]) + Inside(text[i + 1..]))
            && (ch == QUOTE && i + 1 < |text| && text[i + 1] == QUOTE ==> out + Inside(rest) == (out + [QUOTE, QUOTE]) + Inside(text[i + 2..]))
            && (ch == QUOTE && !(i + 1 < |text| && text[i + 1] == QUOTE) ==>
                  out + Inside(rest) == (out + [ch]) + Outside(text[i + 1..], out + [ch]))
  {
    hide Outside, IsWord;
    var ch, rest := text[i], text[i..];
    assert rest[0] == ch && rest[1..] == text[i + 1..];
    if |rest| > 1 {
      assert rest[1] == text[i + 1] && rest[2..] == text[i + 2..];
    }
    LastOnly(text[i + 1..], out + [ch], [ch]);
  }

  lemma IntroducerLength(s: string)
    ensures Introducer(s) <= |s|
  {
  }

  // ---- literals -----------------------------------------------------------

  /** The literals of a text, still escaped, in order; one left open runs to the end. */
  function Literals(text: string): seq<string>
    decreases |text|
  {
    if text == "" then [] else if text[0] == QUOTE then LiteralsIn(text[1..], "") else Literals(text[1..])
  }

  /** The same from inside a literal of which `so_far` was read. */
  function LiteralsIn(text: string, so_far: string): (ls: seq<string>)
    ensures ls != []
    decreases |text|
  {
    if text == "" then [so_far]
    else if text[0] != QUOTE then LiteralsIn(text[1..], so_far + [text[0]])
    else if |text| > 1 && text[1] == QUOTE then LiteralsIn(text[2..], so_far + [QUOTE, QUOTE])
    else [so_far] + Literals(text[1..])
  }

  /** How many introducers that are dropped stand right after a literal, so that it runs into the next. */
  function Glued(text: string, last: string): nat
    decreases |text|
  {
    if text == "" then 0
    else if text[0] == QUOTE then GluedIn(text[1..])
    else if text[0] == '_' && !AfterWord(last) && Introducer(text) > 0 then
      (if last == [QUOTE] then 1 else 0) + Glued(text[Introducer(text)..], last)
    else Glued(text[1..], [text[0]])
  }

  function GluedIn(text: string): nat
    decreases |text|
  {
    if text == "" then 0
    else if text[0] != QUOTE then GluedIn(text[1..])
    else if |text| > 1 && text[1] == QUOTE then GluedIn(text[2..])
    else Glued(text[1..], [QUOTE])
  }

  /** How many literals a text has from inside one does not depend on what was read of it. */
  lemma {:induction false} CountIn(text: string, a: string, b: string)
    ensures |LiteralsIn(text, a)| == |LiteralsIn(text, b)|
    decreases |text|
  {
    if text != "" {
      if text[0] != QUOTE {
        CountIn(text[1..], a + [text[0]], b + [text[0]]);
      } else if |text| > 1 && text[1] == QUOTE {
        CountIn(text[2..], a + [QUOTE, QUOTE], b + [QUOTE, QUOTE]);
      }
    }
  }

  /** `out` lost `glued` literals of `text`, by two running into one; with none glued they are the same. */
  predicate Keeps(out: seq<string>, text: seq<string>, glued: nat) {
    |out| + glued == |text| && (glued == 0 ==> out == text)
  }

  lemma {:induction false} NoLiteralBefore(text: string, n: nat)
    requires n <= |text| && QUOTE !in text[..n]
    ensures Literals(text) == Literals(text[n..])
    decreases n
  {
    if n == 0 {
      assert text[0..] == text;
    } else {
      assert text[0] == text[..n][0];
      assert forall c :: c in text[1..][..n - 1] ==> c in text[..n] by {
        assert text[1..][..n - 1] == text[..n][1..];
      }
      NoLiteralBefore(text[1..], n - 1);
      assert text[1..][n - 1..] == text[n..];
    }
  }

  lemma {:induction false} OutsideKeeps(text: string, last: string)
    requires last != [QUOTE]
    ensures Keeps(Literals(Outside(text, last)), Literals(text), Glued(text, last))
    decreases |text|, 1
  {
    hide Introducer, AfterWord, Inside, GluedIn, LiteralsIn;
    if text == "" {
    } else if text[0] == QUOTE {
      InsideKeeps(text[1..], "");
      FromQuote(Inside(text[1..]));
    } else if text[0] == '_' && !AfterWord(last) && Introducer(text) > 0 {
      IntroducerKeeps(text, last);
    } else {
      OutsideKeeps(text[1..], [text[0]]);
      AfterChar(text[0], Outside(text[1..], [text[0]]));
    }
  }

  /** An introducer dropped where no literal ends just before it: what follows is its literal. */
  lemma IntroducerKeeps(text: string, last: string)
    requires last != [QUOTE] && text != "" && text[0] == '_' && !AfterWord(last) && Introducer(text) > 0
    ensures Keeps(Literals(Outside(text, last)), Literals(text), Glued(text, last))
    decreases |text|, 0
  {
    hide Introducer, AfterWord, Inside, GluedIn, LiteralsIn;
    var n := Introducer(text);
    IntroducerLength(text);
    NoLiteralBefore(text, n);
    assert text[n..][0] == QUOTE && text[n..][1..] == text[n + 1..];
    InsideKeeps(text[n + 1..], "");
    FromQuote(Inside(text[n + 1..]));
  }

  lemma FromQuote(rest: string)
    ensures Literals([QUOTE] + rest) == LiteralsIn(rest, "")
  {
    hide LiteralsIn;
    assert ([QUOTE] + rest)[1..] == rest;
  }

  lemma AfterChar(c: char, rest: string)
    requires c != QUOTE
    ensures Literals([c] + rest) == Literals(rest)
  {
    hide LiteralsIn;
    assert ([c] + rest)[1..] == rest;
  }

  lemma {:induction false} InsideKeeps(text: string, so_far: string)
    ensures Keeps(LiteralsIn(Inside(text), so_far), LiteralsIn(text, so_far), GluedIn(text))
    decreases |text|, 2
  {
    hide Outside, Glued, Literals;
    if text == "" {
    } else if text[0] != QUOTE {
      InsideKeeps(text[1..], so_far + [text[0]]);
      assert ([text[0]] + Inside(text[1..]))[1..] == Inside(text[1..]);
    } else if |text| > 1 && text[1] == QUOTE {
      InsideKeeps(text[2..], so_far + [QUOTE, QUOTE]);
      assert ([QUOTE, QUOTE] + Inside(text[2..]))[2..] == Inside(text[2..]);
    } else {
      ClosingKeeps(text[1..], so_far);
    }
  }

  /** Right after a literal. */
  lemma {:induction false} ClosingKeeps(text: string, so_far: string)
    requires text == "" || text[0] != QUOTE
    ensures Keeps(LiteralsIn([QUOTE] + Outside(text, [QUOTE]), so_far), [so_far] + Literals(text), Glued(text, [QUOTE]))
    decreases |text|, 1
  {
    hide Introducer, Inside, GluedIn, IsWord;
    if text == "" {
      Closes(so_far, "");
    } else if text[0] == '_' && Introducer(text) > 0 {
      GlueLosesOne(text, so_far);
    } else {
      var rest := Outside(text[1..], [text[0]]);
      OutsideKeeps(text[1..], [text[0]]);
      Closes(so_far, [text[0]] + rest);
      AfterChar(text[0], rest);
      assert [so_far] + Literals(text) == [so_far] + Literals(text[1..]);
    }
  }

  lemma Closes(so_far: string, rest: string)
    requires rest == "" || rest[0] != QUOTE
    ensures LiteralsIn([QUOTE] + rest, so_far) == [so_far] + Literals(rest)
  {
    hide Literals;
    assert ([QUOTE] + rest)[1..] == rest;
  }

  lemma GlueLosesOne(text: string, so_far: string)
    requires text != "" && text[0] == '_' && Introducer(text) > 0
    ensures Keeps(LiteralsIn([QUOTE] + Outside(text, [QUOTE]), so_far), [so_far] + Literals(text), Glued(text, [QUOTE]))
    decreases |text|, 0
  {
    hide Introducer, Inside, GluedIn, LiteralsIn;
    assert !AfterWord([QUOTE]);
    var n := Introducer(text);
    IntroducerLength(text);
    NoLiteralBefore(text, n);
    assert text[n..][0] == QUOTE && text[n..][1..] == text[n + 1..];
    var inner := text[n + 1..];
    assert Outside(text, [QUOTE]) == [QUOTE] + Inside(inner);
    assert [QUOTE] + ([QUOTE] + Inside(inner)) == [QUOTE, QUOTE] + Inside(inner);
    Doubles(so_far, Inside(inner));
    InsideKeeps(inner, so_far + [QUOTE, QUOTE]);
    CountIn(inner, so_far + [QUOTE, QUOTE], "");
  }

  lemma Doubles(so_far: string, rest: string)
    ensures LiteralsIn([QUOTE, QUOTE] + rest, so_far) == LiteralsIn(rest, so_far + [QUOTE, QUOTE])
  {
    hide Literals;
    assert ([QUOTE, QUOTE] + rest)[2..] == rest;
  }

  /** Normalizing keeps every literal as it is exactly when no introducer that it drops stands right after a literal. */
  lemma LiteralsKeptExactlyWhen(clause: string)
    ensures Literals(Normalized(clause)) == Literals(Unescaped(clause)) <==> Glued(Unescaped(clause), "") == 0
    ensures |Literals(Normalized(clause))| + Glued(Unescaped(clause), "") == |Literals(Unescaped(clause))|
  {
    hide Literals, Outside, Glued;
    OutsideKeeps(Unescaped(clause), "");
  }

  // ---- what is dropped ----------------------------------------------------

  /** `_[a-z][a-z0-9]*\s*`, ignoring case. */
  predicate IsIntroducer(w: string) {
    |w| >= 2 && w[0] == '_' && IsLetter(w[1]) && exists j :: 2 <= j <= |w| && NameThenSpaces(w, j)
  }

  predicate NameThenSpaces(w: string, j: nat)
    requires j <= |w|
  {
    (forall k :: 1 <= k < j ==> IsLetterOrDigit(w[k])) && forall k :: j <= k < |w| ==> w[k] in SPACES
  }

  /**
   * `out` is `text` less some introducers, each right before a quote and after an even number of quotes, that is outside
   * every literal; `quotes` of them came before `text`.
   */
  ghost predicate Erased(text: string, out: string, quotes: nat)
    decreases |text|
  {
    || (text == "" && out == "")
    || (text != "" && out != "" && text[0] == out[0] && Erased(text[1..], out[1..], if text[0] == QUOTE then quotes + 1 else quotes))
    || (quotes % 2 == 0 && exists n :: 0 < n < |text| && IsIntroducer(text[..n]) && text[n] == QUOTE && Erased(text[n..], out, quotes))
  }

  lemma IntroducerIsOne(text: string)
    requires Introducer(text) > 0
    ensures IsIntroducer(text[..Introducer(text)])
  {
    hide SPACES;
    var j, n := NameRun(text, 1), Introducer(text);
    var w := text[..n];
    assert IsLetterOrDigit(text[1]);
    assert j >= 2;
    assert NameThenSpaces(w, j);
  }

  lemma LetterNotSpace(c: char)
    requires c in SPACES
    ensures !IsLetterOrDigit(c)
  {
  }

  /** The scan finds exactly an introducer that a quote follows within the first 80 characters, and all of it. */
  lemma IntroducerExactly(text: string, n: nat)
    ensures n > 0 && Introducer(text) == n <==> 0 < n < 80 && n < |text| && text[n] == QUOTE && IsIntroducer(text[..n])
  {
    hide SPACES;
    if Introducer(text) > 0 {
      IntroducerIsOne(text);
    }
    if 0 < n < 80 && n < |text| && text[n] == QUOTE && IsIntroducer(text[..n]) {
      var w := text[..n];
      var j :| 2 <= j <= |w| && NameThenSpaces(w, j);
      assert forall k :: 0 <= k < n ==> w[k] == text[k];
      if j < n {
        LetterNotSpace(text[j]);
      }
      NameRunIs(text, 1, j);
      PlainSpaces(QUOTE);
      SpaceRunIs(text, j, n);
    }
  }

  lemma KeepsChar(c: char, text: string, out: string, quotes: nat)
    requires Erased(text, out, if c == QUOTE then quotes + 1 else quotes)
    ensures Erased([c] + text, [c] + out, quotes)
  {
    hide IsIntroducer;
    var more, kept := [c] + text, [c] + out;
    assert more[1..] == text && kept[1..] == out;
  }

  lemma {:induction false} OutsideErases(text: string, last: string, quotes: nat)
    requires quotes % 2 == 0
    ensures Erased(text, Outside(text, last), quotes)
    decreases |text|, 0
  {
    hide Introducer, IsIntroducer, AfterWord, Erased;
    if text == "" {
      NothingErased(quotes);
    } else if text[0] == QUOTE {
      InsideErases(text[1..], quotes + 1);
      KeepsChar(QUOTE, text[1..], Inside(text[1..]), quotes);
      assert [QUOTE] + text[1..] == text;
    } else if text[0] == '_' && !AfterWord(last) && Introducer(text) > 0 {
      IntroducerLength(text);
      OutsideErases(text[Introducer(text)..], last, quotes);
      IntroducerIsOne(text);
      DropsOne(text, Outside(text[Introducer(text)..], last), quotes, Introducer(text));
    } else {
      OutsideErases(text[1..], [text[0]], quotes);
      KeepsChar(text[0], text[1..], Outside(text[1..], [text[0]]), quotes);
      assert [text[0]] + text[1..] == text;
    }
  }

  lemma NothingErased(quotes: nat)
    ensures Erased("", "", quotes)
  {
  }

  lemma DropsOne(text: string, out: string, quotes: nat, n: nat)
    requires quotes % 2 == 0 && 0 < n < |text| && IsIntroducer(text[..n]) && text[n] == QUOTE && Erased(text[n..], out, quotes)
    ensures Erased(text, out, quotes)
  {
    hide IsIntroducer;
  }

  lemma {:induction false} InsideErases(text: string, quotes: nat)
    requires quotes % 2 == 1
    ensures Erased(text, Inside(text), quotes)
    decreases |text|, 1
  {
    hide Introducer, IsIntroducer, AfterWord, Erased, Outside;
    if text == "" {
      NothingErased(quotes);
    } else if text[0] != QUOTE {
      InsideErases(text[1..], quotes);
      KeepsChar(text[0], text[1..], Inside(text[1..]), quotes);
      assert [text[0]] + text[1..] == text;
    } else if |text| > 1 && text[1] == QUOTE {
      InsideErases(text[2..], quotes + 2);
      KeepsChar(QUOTE, text[2..], Inside(text[2..]), quotes + 1);
      assert [QUOTE] + text[2..] == text[1..];
      KeepsChar(QUOTE, text[1..], [QUOTE] + Inside(text[2..]), quotes);
      assert [QUOTE] + text[1..] == text && [QUOTE] + ([QUOTE] + Inside(text[2..])) == [QUOTE, QUOTE] + Inside(text[2..]);
    } else {
      OutsideErases(text[1..], [QUOTE], quotes + 1);
      KeepsChar(QUOTE, text[1..], Outside(text[1..], [QUOTE]), quotes);
      assert [QUOTE] + text[1..] == text;
    }
  }

  /** Normalizing drops introducers outside literals, each right before a literal, and nothing else. */
  lemma OnlyIntroducersDropped(clause: string)
    ensures Erased(Unescaped(clause), Normalized(clause), 0)
  {
    hide Erased, Outside;
    OutsideErases(Unescaped(clause), "", 0);
  }

  // ---- concrete clauses ---------------------------------------------------

  lemma {:induction false} NameRunIs(s: string, i: nat, j: nat)
    requires i <= j <= |s| && (j == |s| || !IsLetterOrDigit(s[j])) && forall k :: i <= k < j ==> IsLetterOrDigit(s[k])
    ensures NameRun(s, i) == j
    decreases j - i
  {
    if i < j {
      NameRunIs(s, i + 1, j);
    }
  }

  lemma {:induction false} SpaceRunIs(s: string, i: nat, j: nat)
    requires i <= j <= |s| && (j == |s| || s[j] !in SPACES) && forall k :: i <= k < j ==> s[k] in SPACES
    ensures SpaceRun(s, i) == j
    decreases j - i
  {
    if i < j {
      SpaceRunIs(s, i + 1, j);
    }
  }

  lemma PlainSpaces(c: char)
    requires IsWord(c) || c == QUOTE || c == '(' || c == ')' || c == ',' || c == '$'
    ensures c !in SPACES
  {
  }

  /** `_b'` and whatever follows: an introducer of two. */
  lemma ShortIntroducer(rest: string)
    ensures Introducer("_b'" + rest) == 2
  {
    hide SPACES;
    var s := "_b'" + rest;
    PlainSpaces(QUOTE);
    NameRunIs(s, 1, 2);
    SpaceRunIs(s, 2, 2);
  }

  lemma LiteralAlone(c: char, last: string)
    requires c != QUOTE
    ensures Outside([QUOTE, c, QUOTE], last) == [QUOTE, c, QUOTE] && GluedIn([c, QUOTE]) == 0
  {
    hide Introducer;
    var three, two, one: string := [QUOTE, c, QUOTE], [c, QUOTE], [QUOTE];
    assert three[1..] == two && two[1..] == one && one[1..] == "";
    assert Outside("", [QUOTE]) == "" && Glued("", [QUOTE]) == 0;
    assert Inside(one) == one && GluedIn(one) == 0;
    assert Inside(two) == two && GluedIn(two) == 0;
  }

  lemma ShortIntroducerDropped(last: string)
    requires !AfterWord(last)
    ensures Outside("_b'x'", last) == "'x'"
  {
    hide Introducer, AfterWord;
    assert "_b'x'" == "_b'" + "x'";
    ShortIntroducer("x'");
    assert "_b'x'"[2..] == ['\'', 'x', '\''];
    LiteralAlone('x', last);
  }

  lemma ShortIntroducerGlued()
    ensures Glued("_b'c'", [QUOTE]) == 1
  {
    hide Introducer;
    assert "_b'c'" == "_b'" + "c'";
    ShortIntroducer("c'");
    assert "_b'c'"[2..] == ['\'', 'c', '\''] && ['\'', 'c', '\''][1..] == ['c', '\''];
    LiteralAlone('c', "");
  }

  // ---- one character at a time --------------------------------------------

  lemma InsideDoubled(more: string)
    ensures Inside("''" + more) == "''" + Inside(more)
  {
    hide Outside;
    assert ("''" + more)[2..] == more;
  }

  lemma InsideOther(c: char, more: string)
    requires c != QUOTE
    ensures Inside([c] + more) == [c] + Inside(more)
  {
    hide Outside;
    assert ([c] + more)[1..] == more;
  }

  lemma QuoteOpens(rest: string, last: string)
    ensures Outside("'" + rest, last) == "'" + Inside(rest)
  {
    hide Inside, Introducer;
    assert ("'" + rest)[1..] == rest;
  }

  lemma InsideCloses(rest: string)
    requires rest == "" || rest[0] != QUOTE
    ensures Inside([QUOTE] + rest) == [QUOTE] + Outside(rest, [QUOTE])
  {
    hide Outside;
    assert ([QUOTE] + rest)[1..] == rest;
  }

  lemma LiteralChar(c: char, rest: string, so_far: string)
    requires c != QUOTE
    ensures LiteralsIn([c] + rest, so_far) == LiteralsIn(rest, so_far + [c])
  {
    hide Literals;
    assert ([c] + rest)[1..] == rest;
  }

  lemma GluedOutside()
    ensures Outside("'a'_b'c'", "") == "'a''c'"
  {
    hide Introducer, AfterWord, Outside, Inside;
    QuoteOpens("a'_b'c'", "");
    InsideOther('a', "'_b'c'");
    InsideCloses("_b'c'");
    ShortIntroducerDroppedHere();
    assert "'" + "a'_b'c'" == "'a'_b'c'" && ['a'] + "'_b'c'" == "a'_b'c'" && [QUOTE] + "_b'c'" == "'_b'c'";
  }

  lemma AfterQuote()
    ensures !AfterWord([QUOTE])
  {
  }

  lemma ShortIntroducerDroppedHere()
    ensures Outside("_b'c'", [QUOTE]) == "'c'"
  {
    hide Introducer, AfterWord;
    AfterQuote();
    assert "_b'c'" == "_b'" + "c'";
    ShortIntroducer("c'");
    assert "_b'c'"[2..] == ['\'', 'c', '\''];
    LiteralAlone('c', [QUOTE]);
  }

  lemma LastLiteral(so_far: string)
    ensures LiteralsIn("c'", so_far) == [so_far + "c"]
  {
    hide LiteralsIn;
    LiteralChar('c', "'", so_far);
    assert ['c'] + "'" == "c'" && [QUOTE] + "" == "'" && so_far + ['c'] == so_far + "c";
    Closes(so_far + "c", "");
    assert Literals("") == [];
  }

  lemma TwoLiterals()
    ensures Literals("'a'_b'c'") == ["a", "c"]
  {
    hide Literals, LiteralsIn;
    FromQuote("a'_b'c'");
    LiteralChar('a', "'_b'c'", "");
    Closes("a", "_b'c'");
    AfterChar('_', "b'c'");
    AfterChar('b', "'c'");
    FromQuote("c'");
    LastLiteral("");
    assert [QUOTE] + "a'_b'c'" == "'a'_b'c'" && ['a'] + "'_b'c'" == "a'_b'c'" && [QUOTE] + "_b'c'" == "'_b'c'";
    assert ['_'] + "b'c'" == "_b'c'" && ['b'] + "'c'" == "b'c'" && [QUOTE] + "c'" == "'c'" && "" + ['a'] == "a" && "" + "c" == "c";
  }

  lemma OneLiteral()
    ensures Literals("'a''c'") == ["a''c"]
  {
    hide Literals, LiteralsIn;
    FromQuote("a''c'");
    LiteralChar('a', "''c'", "");
    Doubles("a", "c'");
    LastLiteral("a''");
    assert [QUOTE] + "a''c'" == "'a''c'" && ['a'] + "''c'" == "a''c'" && [QUOTE, QUOTE] + "c'" == "''c'";
    assert "" + ['a'] == "a" && "a" + [QUOTE, QUOTE] == "a''" && "a''" + "c" == "a''c";
  }

  /** Two literals run into one: the second's introducer stands right after the first. */
  lemma GluedLiterals()
    ensures Glued("'a'_b'c'", "") == 1
    ensures Outside("'a'_b'c'", "") == "'a''c'"
    ensures Literals("'a'_b'c'") == ["a", "c"] && Literals("'a''c'") == ["a''c"]
  {
    hide Introducer, AfterWord, Outside, Literals;
    ShortIntroducerGlued();
    assert "'a'_b'c'"[1..] == "a'_b'c'" && "a'_b'c'"[1..] == "'_b'c'" && "'_b'c'"[1..] == "_b'c'";
    GluedOutside();
    TwoLiterals();
    OneLiteral();
  }

  lemma SpacedIntroducers()
    ensures Introducer("_a _b'x'") == 0 && Introducer("_a 'x'") == 3
  {
    hide SPACES;
    assert ' ' in SPACES by { Blank(); }
    PlainSpaces('_');
    PlainSpaces(QUOTE);
    NameRunIs("_a _b'x'", 1, 2);
    SpaceRunIs("_a _b'x'", 2, 3);
    NameRunIs("_a 'x'", 1, 2);
    SpaceRunIs("_a 'x'", 2, 3);
  }

  lemma Blank()
    ensures ' ' in SPACES
  {
  }

  lemma SpacedDropped()
    ensures Outside("_a 'x'", "") == "'x'"
  {
    hide Introducer, SPACES;
    SpacedIntroducers();
    assert "_a 'x'"[3..] == ['\'', 'x', '\''];
    LiteralAlone('x', "");
  }

  lemma OtherChar(c: char, rest: string, last: string)
    requires c != QUOTE && c != '_'
    ensures Outside([c] + rest, last) == [c] + Outside(rest, [c])
  {
    hide Inside, Introducer;
    assert ([c] + rest)[1..] == rest;
  }

  lemma AfterBlank()
    ensures Outside("a _b'x'", "_") == "a 'x'"
  {
    hide Outside, Introducer, SPACES;
    assert !AfterWord(" ");
    ShortIntroducerDropped(" ");
    OtherChar(' ', "_b'x'", "a");
    OtherChar('a', " _b'x'", "_");
    assert [' '] + "_b'x'" == " _b'x'" && ['a'] + " _b'x'" == "a _b'x'";
  }

  /** An introducer before another: it is kept, and comes to stand before the literal. */
  lemma StackedIntroducers()
    ensures Outside("_a _b'x'", "") == "_a 'x'" && Outside("_a 'x'", "") == "'x'"
  {
    hide Introducer, SPACES;
    SpacedDropped();
    SpacedIntroducers();
    AfterBlank();
    assert "_a _b'x'"[1..] == "a _b'x'";
  }
}
