/** introspect.ts of the MySQL adapter: when normalizing a clause twice is normalizing it once. */
module CheckTwice {
  import opened Texts
  import opened CheckClause
  import EnumValues

  predicate EndsBackslash(s: string) {
    s != "" && s[|s| - 1] == '\\'
  }

  /** The end of the name and the white space after an underscore. */
  function RunEnd(text: string): (n: nat)
    requires text != ""
    ensures 1 <= n <= |text|
  {
    SpaceRun(text, NameRun(text, 1))
  }

  /** An underscore, a name, white space, and then an introducer that is dropped: what is left before the quote is introducer-shaped. */
  predicate Stacked(text: string) {
    && |text| >= 2 && text[0] == '_' && IsLetter(text[1])
    && var n := RunEnd(text);
       n < |text| && n < WINDOW && text[n] == '_' && !AfterWord(text[..n]) && Introducer(text[n..]) > 0
  }

  /**
   * Nothing is left to do to what is written: outside literals no introducer is stacked on another that is dropped, and no
   * quote that is kept comes to stand after a backslash. `last` is the last character written.
   */
  predicate Settled(text: string, last: string)
    decreases |text|
  {
    if text == "" then true
    else if text[0] == QUOTE then !EndsBackslash(last) && SettledIn(text[1..], [QUOTE])
    else if text[0] == '_' && !AfterWord(last) && Introducer(text) > 0 then Settled(text[Introducer(text)..], last)
    else !(!AfterWord(last) && Stacked(text)) && Settled(text[1..], [text[0]])
  }

  /** The same inside a literal. */
  predicate SettledIn(text: string, last: string)
    decreases |text|
  {
    if text == "" then true
    else if text[0] != QUOTE then SettledIn(text[1..], [text[0]])
    else if |text| > 1 && text[1] == QUOTE then !EndsBackslash(last) && SettledIn(text[2..], [QUOTE])
    else !EndsBackslash(last) && Settled(text[1..], [QUOTE])
  }

  /** No quote of `out`, written after `last`, follows a backslash. */
  predicate Quiet(out: string, last: string)
    decreases |out|
  {
    out != "" ==> !(EndsBackslash(last) && out[0] == QUOTE) && Quiet(out[1..], [out[0]])
  }

  // ---- unescaping ---------------------------------------------------------

  lemma {:induction false} UnescapedShorter(s: string)
    ensures |ReplaceAll(s, "\\'", "'")| <= |s|
    decreases |s|
  {
    if s != "" {
      if |s| >= 2 && s[..2] == "\\'" {
        UnescapedShorter(s[2..]);
      } else {
        UnescapedShorter(s[1..]);
      }
    }
  }

  lemma QuietAfter(s: string, a: string, b: string)
    requires s == "" || s[0] != QUOTE
    ensures Quiet(s, a) == Quiet(s, b)
  {
  }

  /** Unescaping changes nothing exactly when no quote follows a backslash, and shortens the text otherwise. */
  lemma {:induction false} UnescapedQuiet(s: string, last: string)
    requires !EndsBackslash(last)
    ensures Quiet(s, last) ==> ReplaceAll(s, "\\'", "'") == s
    ensures !Quiet(s, last) ==> |ReplaceAll(s, "\\'", "'")| < |s|
    decreases |s|
  {
    if s != "" {
      assert |s| >= 2 ==> s[..2] == [s[0], s[1]];
      if |s| >= 2 && s[..2] == "\\'" {
        assert s[0] == s[..2][0] == '\\' && s[1..][0] == s[..2][1] == QUOTE;
        assert !Quiet(s[1..], [s[0]]);
        UnescapedShorter(s[2..]);
      } else {
        assert s == [s[0]] + s[1..];
        if s[0] == '\\' {
          QuietAfter(s[1..], [s[0]], "");
          UnescapedQuiet(s[1..], "");
        } else {
          UnescapedQuiet(s[1..], [s[0]]);
        }
      }
    }
  }

  // ---- what is stacked ----------------------------------------------------

  /** Letters, digits and white space outside literals are written as they are. */
  lemma {:induction false} RunKept(text: string, m: nat, last: string)
    requires m <= |text| && forall k :: 0 <= k < m ==> text[k] != QUOTE && text[k] != '_'
    ensures Outside(text, last) == text[..m] + Outside(text[m..], if m == 0 then last else [text[m - 1]])
    decreases m
  {
    hide Outside;
    if m == 0 {
      assert text[..0] == "" && text[0..] == text;
    } else {
      var rest := text[1..];
      OtherChar(text[0], rest, last);
      assert [text[0]] + rest == text;
      RunKept(rest, m - 1, [text[0]]);
      assert rest[m - 1..] == text[m..] && [text[0]] + rest[..m - 1] == text[..m];
    }
  }

  lemma SpaceIsPlain(c: char)
    requires c in SPACES
    ensures c != QUOTE && c != '_'
  {
  }

  lemma RunIsPlain(text: string)
    requires text != ""
    ensures forall k :: 1 <= k < RunEnd(text) ==> text[k] != QUOTE && text[k] != '_'
  {
    hide SPACES;
    forall k | 1 <= k < RunEnd(text)
      ensures text[k] != QUOTE && text[k] != '_'
    {
      if k >= NameRun(text, 1) {
        SpaceIsPlain(text[k]);
      }
    }
  }

  /** What comes right after the run, once it is written. */
  lemma AfterRun(text: string, n: nat)
    requires 1 <= n <= |text|
    ensures var z := Outside(text[n..], [text[n - 1]]);
            && (n == |text| ==> z == "")
            && (n < |text| && text[n] == '_' && !AfterWord([text[n - 1]]) && Introducer(text[n..]) > 0 ==> z != "" && z[0] == QUOTE)
            && (n < |text| && !(text[n] == '_' && !AfterWord([text[n - 1]]) && Introducer(text[n..]) > 0) ==> z != "" && z[0] == text[n])
  {
    hide Introducer, AfterWord, Inside;
    var rest := text[n..];
    if n < |text| {
      assert rest[0] == text[n];
      if rest[0] == '_' && !AfterWord([text[n - 1]]) && Introducer(rest) > 0 {
        Dropped(rest, [text[n - 1]]);
        var tail := rest[Introducer(rest)..];
        assert tail[0] == QUOTE;
      }
    }
  }

  lemma Dropped(text: string, last: string)
    requires text != "" && text[0] == '_' && !AfterWord(last) && Introducer(text) > 0
    ensures Introducer(text) < |text| && text[Introducer(text)] == QUOTE && Outside(text, last) == Outside(text[Introducer(text)..], last)
  {
    hide AfterWord, Inside;
  }

  lemma LastOf(text: string, n: nat)
    requires 1 <= n <= |text|
    ensures AfterWord(text[..n]) == AfterWord([text[n - 1]])
  {
    hide IsWord;
    assert text[..n][n - 1] == text[n - 1];
  }

  /** An underscore that is kept, with what is written after it, is introducer-shaped exactly when it was stacked on one dropped. */
  lemma KeptIsIntroducer(text: string)
    requires text != "" && text[0] == '_' && Introducer(text) == 0
    ensures Introducer(['_'] + Outside(text[1..], ['_'])) > 0 <==> Stacked(text)
  {
    hide SPACES, Outside, Introducer, AfterWord;
    var o := ['_'] + Outside(text[1..], ['_']);
    if |text| >= 2 && IsLetter(text[1]) {
      var j, n := NameRun(text, 1), RunEnd(text);
      RunIsPlain(text);
      RunKept(text[1..], n - 1, ['_']);
      assert text[1..][n - 1..] == text[n..] && text[1..][n - 2] == text[n - 1];
      assert ['_'] + text[1..][..n - 1] == text[..n];
      var z := Outside(text[n..], [text[n - 1]]);
      assert o == text[..n] + z;
      AfterRun(text, n);
      LastOf(text, n);
      PlainSpaces(QUOTE);
      PlainSpaces('_');
      NameRunIs(o, 1, j);
      SpaceRunIs(o, j, n);
      IntroducerIs(o, n);
      IntroducerIs(text, n);
    } else {
      NoName(text);
    }
  }

  /** The introducer test, once the run after the underscore is known. */
  lemma IntroducerIs(s: string, n: nat)
    requires |s| >= 2 && s[0] == '_' && IsLetter(s[1]) && n == RunEnd(s)
    ensures Introducer(s) > 0 <==> n < |s| && n < WINDOW && s[n] == QUOTE
  {
    hide SPACES;
  }

  lemma NoName(text: string)
    requires text != "" && text[0] == '_' && !(|text| >= 2 && IsLetter(text[1]))
    ensures Introducer(['_'] + Outside(text[1..], ['_'])) == 0
  {
    hide SPACES, Inside, NameRun, SpaceRun;
    var rest := text[1..];
    assert AfterWord(['_']);
    if rest != "" {
      assert rest[0] == text[1] && Outside(rest, ['_']) != "" && Outside(rest, ['_'])[0] == rest[0];
    }
  }

  // ---- what stands before an introducer -----------------------------------

  lemma QuoteWhatever(rest: string, last: string, other: string)
    requires rest != "" && rest[0] == QUOTE
    ensures Outside(rest, last) == Outside(rest, other)
  {
    hide Inside;
  }

  /** Nothing after its underscore is an underscore or a quote. */
  lemma IntroducerPlain(w: string)
    requires IsIntroducer(w)
    ensures forall k :: 1 <= k < |w| ==> w[k] != QUOTE && w[k] != '_'
  {
    hide SPACES;
    var j :| 2 <= j <= |w| && NameThenSpaces(w, j);
    forall k | 1 <= k < |w|
      ensures w[k] != QUOTE && w[k] != '_'
    {
      if k >= j {
        SpaceIsPlain(w[k]);
      }
    }
  }

  /** An introducer right before a literal is dropped, unless a letter, a digit or `$` stands before it: then it is part of a name. */
  lemma DroppedUnlessAfterWord(c: char, w: string, rest: string, last: string)
    requires c != QUOTE && c != '_' && IsIntroducer(w) && |w| < 80 && rest != "" && rest[0] == QUOTE
    ensures Outside([c] + (w + rest), last) == [c] + ((if IsLetterOrDigit(c) || c == '$' then w else "") + Outside(rest, ""))
  {
    hide Outside, IsIntroducer, Introducer, SPACES;
    var text := w + rest;
    assert text[..|w|] == w && text[|w|..] == rest && text[|w|] == QUOTE;
    StartsUnderscore(w);
    IntroducerExactly(text, |w|);
    OtherChar(c, text, last);
    if IsLetterOrDigit(c) || c == '$' {
      IntroducerPlain(w);
      KeptAfterWord(c, text);
      var after := text[1..];
      RunKept(after, |w| - 1, ['_']);
      assert after[..|w| - 1] == w[1..] && after[|w| - 1..] == rest;
      assert w == ['_'] + w[1..];
      QuoteWhatever(rest, if |w| == 1 then ['_'] else [after[|w| - 2]], "");
      assert ['_'] + (w[1..] + Outside(rest, "")) == w + Outside(rest, "");
    } else {
      Dropped(text, [c]);
      QuoteWhatever(rest, [c], "");
      assert "" + Outside(rest, "") == Outside(rest, "");
    }
  }

  lemma StartsUnderscore(w: string)
    requires IsIntroducer(w)
    ensures |w| >= 2 && w[0] == '_'
  {
  }

  lemma KeptAfterWord(c: char, text: string)
    requires (IsLetterOrDigit(c) || c == '$') && text != "" && text[0] == '_'
    ensures Outside(text, [c]) == ['_'] + Outside(text[1..], ['_'])
  {
    hide Inside, Introducer;
  }

  // ---- normalizing what is normalized -------------------------------------

  lemma {:induction false} OutsideShorter(text: string, last: string)
    ensures |Outside(text, last)| <= |text|
    decreases |text|, 0
  {
    hide Introducer, AfterWord, Inside;
    if text == "" {
    } else if text[0] == QUOTE {
      InsideShorter(text[1..]);
    } else if text[0] == '_' && !AfterWord(last) && Introducer(text) > 0 {
      IntroducerLength(text);
      OutsideShorter(text[Introducer(text)..], last);
    } else {
      OutsideShorter(text[1..], [text[0]]);
    }
  }

  lemma {:induction false} InsideShorter(text: string)
    ensures |Inside(text)| <= |text|
    decreases |text|, 1
  {
    hide Outside;
    if text == "" {
    } else if text[0] != QUOTE {
      InsideShorter(text[1..]);
    } else if |text| > 1 && text[1] == QUOTE {
      InsideShorter(text[2..]);
    } else {
      OutsideShorter(text[1..], [QUOTE]);
    }
  }

  /** Normalizing `out`, in its state, changes nothing, and no quote of it follows a backslash. */
  predicate Fixed(out: string, last: string) {
    Quiet(out, last) && Outside(out, last) == out
  }

  predicate FixedIn(out: string, last: string) {
    Quiet(out, last) && Inside(out) == out
  }

  lemma QuietChar(c: char, rest: string, last: string)
    ensures Quiet([c] + rest, last) <==> !(EndsBackslash(last) && c == QUOTE) && Quiet(rest, [c])
  {
    hide EndsBackslash;
    assert ([c] + rest)[1..] == rest;
  }

  /** A quote that opens a literal. */
  lemma FixedQuote(rest: string, last: string)
    ensures Fixed([QUOTE] + rest, last) <==> !EndsBackslash(last) && FixedIn(rest, [QUOTE])
  {
    hide Quiet, Outside, Inside, EndsBackslash;
    QuietChar(QUOTE, rest, last);
    QuoteOpens(rest, last);
    SameTail([QUOTE], Inside(rest), rest);
  }

  lemma SameTail(a: string, x: string, y: string)
    ensures a + x == a + y <==> x == y
  {
    if a + x == a + y {
      assert (a + x)[|a|..] == x && (a + y)[|a|..] == y;
    }
  }

  /** Any other character that is kept. */
  lemma FixedChar(c: char, rest: string, last: string)
    requires c != QUOTE && !(c == '_' && !AfterWord(last) && Introducer([c] + rest) > 0)
    ensures Fixed([c] + rest, last) <==> Fixed(rest, [c])
  {
    hide Quiet, Outside, Inside, EndsBackslash, Introducer, AfterWord;
    QuietChar(c, rest, last);
    KeptChar(c, rest, last);
    SameTail([c], Outside(rest, [c]), rest);
  }

  lemma KeptChar(c: char, rest: string, last: string)
    requires c != QUOTE && !(c == '_' && !AfterWord(last) && Introducer([c] + rest) > 0)
    ensures Outside([c] + rest, last) == [c] + Outside(rest, [c])
  {
    hide Inside, Introducer, AfterWord;
    assert ([c] + rest)[1..] == rest;
  }

  /** An underscore that would be dropped. */
  lemma NotFixed(rest: string, last: string)
    requires !AfterWord(last) && Introducer(['_'] + rest) > 0
    ensures !Fixed(['_'] + rest, last)
  {
    hide Quiet, Outside, Inside, EndsBackslash, Introducer, AfterWord;
    var out := ['_'] + rest;
    Dropped(out, last);
    OutsideShorter(out[Introducer(out)..], last);
  }

  lemma {:induction false} OutsideSettles(text: string, last: string)
    ensures Fixed(Outside(text, last), last) <==> Settled(text, last)
    decreases |text|, 0
  {
    hide Fixed, FixedIn, Introducer, AfterWord, Inside, Stacked, SettledIn, EndsBackslash, Quiet;
    if text == "" {
      NothingFixed(last);
    } else if text[0] == QUOTE {
      InsideSettles(text[1..], [QUOTE]);
      FixedQuote(Inside(text[1..]), last);
    } else if text[0] == '_' && !AfterWord(last) && Introducer(text) > 0 {
      Dropped(text, last);
      OutsideSettles(text[Introducer(text)..], last);
    } else {
      OutsideSettles(text[1..], [text[0]]);
      KeptSettles(text, last);
    }
  }

  lemma NothingFixed(last: string)
    ensures Fixed("", last) && FixedIn("", last)
  {
  }

  lemma KeptSettles(text: string, last: string)
    requires text != "" && text[0] != QUOTE && !(text[0] == '_' && !AfterWord(last) && Introducer(text) > 0)
    ensures Fixed([text[0]] + Outside(text[1..], [text[0]]), last) <==>
            !(!AfterWord(last) && Stacked(text)) && Fixed(Outside(text[1..], [text[0]]), [text[0]])
  {
    hide Fixed, Outside, Introducer, AfterWord, RunEnd;
    var z := Outside(text[1..], [text[0]]);
    if text[0] == '_' && !AfterWord(last) {
      KeptIsIntroducer(text);
      if Stacked(text) {
        NotFixed(z, last);
      } else {
        FixedChar(text[0], z, last);
      }
    } else {
      FixedChar(text[0], z, last);
    }
  }

  lemma {:induction false} InsideSettles(text: string, last: string)
    ensures FixedIn(Inside(text), last) <==> SettledIn(text, last)
    decreases |text|, 1
  {
    hide Fixed, FixedIn, Outside, Settled, EndsBackslash, Quiet;
    if text == "" {
      NothingFixed(last);
    } else if text[0] != QUOTE {
      InsideSettles(text[1..], [text[0]]);
      FixedInChar(text[0], Inside(text[1..]), last);
    } else if |text| > 1 && text[1] == QUOTE {
      InsideSettles(text[2..], [QUOTE]);
      FixedDoubled(Inside(text[2..]), last);
    } else {
      OutsideSettles(text[1..], [QUOTE]);
      FixedClosing(Outside(text[1..], [QUOTE]), last);
    }
  }

  lemma FixedInChar(c: char, rest: string, last: string)
    requires c != QUOTE
    ensures FixedIn([c] + rest, last) <==> FixedIn(rest, [c])
  {
    hide Quiet, Inside, EndsBackslash;
    QuietChar(c, rest, last);
    InsideOther(c, rest);
    SameTail([c], Inside(rest), rest);
  }

  lemma FixedDoubled(rest: string, last: string)
    ensures FixedIn([QUOTE, QUOTE] + rest, last) <==> !EndsBackslash(last) && FixedIn(rest, [QUOTE])
  {
    hide Quiet, Inside;
    assert [QUOTE, QUOTE] + rest == [QUOTE] + ([QUOTE] + rest);
    QuietChar(QUOTE, [QUOTE] + rest, last);
    QuietChar(QUOTE, rest, [QUOTE]);
    InsideDoubled(rest);
    assert "''" == [QUOTE, QUOTE];
    SameTail([QUOTE, QUOTE], Inside(rest), rest);
  }

  /** The end of a literal; if a quote was brought right after it, the two are read as one inside the literal, to the same end. */
  lemma FixedClosing(z: string, last: string)
    ensures FixedIn([QUOTE] + z, last) <==> !EndsBackslash(last) && Fixed(z, [QUOTE])
  {
    hide Quiet, Inside, Outside, EndsBackslash;
    QuietChar(QUOTE, z, last);
    if z == "" || z[0] != QUOTE {
      InsideCloses(z);
      SameTail([QUOTE], Outside(z, [QUOTE]), z);
    } else {
      var r := z[1..];
      assert z == [QUOTE] + r && [QUOTE] + z == [QUOTE, QUOTE] + r && "''" == [QUOTE, QUOTE];
      InsideDoubled(r);
      QuoteOpens(r, [QUOTE]);
      SameTail([QUOTE, QUOTE], Inside(r), r);
      SameTail([QUOTE], Inside(r), r);
    }
  }

  /**
   * Normalizing twice is normalizing once if and only if, once the clause is unescaped, no introducer that is kept is stacked on
   * one that is dropped, and no quote comes to stand after a backslash.
   */
  lemma IdempotentExactlyWhenSettled(clause: string)
    ensures Normalized(Normalized(clause)) == Normalized(clause) <==> Settled(Unescaped(clause), "")
  {
    hide Outside, Settled, Quiet, ReplaceAll;
    var out := Normalized(clause);
    OutsideSettles(Unescaped(clause), "");
    UnescapedQuiet(out, "");
    if !Quiet(out, "") {
      OutsideShorter(Unescaped(out), "");
    }
  }

  // ---- the two causes ------------------------------------------------------

  /** An introducer kept before one that is dropped: the second pass drops it. */
  lemma StackedNotSettled()
    ensures Normalized("_a _b'x'") == "_a 'x'" && Normalized("_a 'x'") == "'x'" && !Settled("_a _b'x'", "")
  {
    hide Outside, Settled, ReplaceAll;
    EnumValues.NothingEscaped("_a _b'x'");
    EnumValues.NothingEscaped("_a 'x'");
    StackedIntroducers();
    IdempotentExactlyWhenSettled("_a _b'x'");
  }

  /** Two backslashes before a quote: each pass takes one off. */
  lemma EscapedNotSettled()
    ensures Normalized("\\\\'") == "\\'" && Normalized("\\'") == "'" && !Settled("\\'", "")
  {
    hide Settled;
    var three, two: string, one: string := "\\\\'", "\\'", "'";
    assert three[..2][1] == '\\' && two[1] == QUOTE;
    assert three[..2] != two && three[1..] == two && two[..2] == two && two[2..] == "" && two[1..] == one && one[1..] == "";
    assert ReplaceAll(two, two, one) == one && ReplaceAll(three, two, one) == [three[0]] + ReplaceAll(two, two, one);
    assert [three[0]] + one == two;
    assert Outside(one, "") == one && Outside(one, ['\\']) == one && Outside(two, "") == two;
    IdempotentExactlyWhenSettled(three);
  }
}
