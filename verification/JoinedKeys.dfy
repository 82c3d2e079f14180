/** `[...names].sort().join(separator)`: a text that stands for a set of column names, and when it does. */
module JoinedKeys {

  // ---- the default order of strings ---------------------------------------

  /** Character by character, a prefix first. Nothing here depends on which order of characters it is, only that it is one. */
  predicate Leq(a: string, b: string) {
    a == "" || (b != "" && (a[0] < b[0] || (a[0] == b[0] && Leq(a[1..], b[1..]))))
  }

  lemma {:induction false} LeqTotal(a: string, b: string)
    ensures Leq(a, b) || Leq(b, a)
  {
    if a != "" && b != "" && a[0] == b[0] {
      LeqTotal(a[1..], b[1..]);
    }
  }

  lemma {:induction false} LeqAntisymmetric(a: string, b: string)
    requires Leq(a, b) && Leq(b, a)
    ensures a == b
  {
    if a != "" {
      LeqAntisymmetric(a[1..], b[1..]);
      assert a == [a[0]] + a[1..] && b == [b[0]] + b[1..];
    }
  }

  lemma {:induction false} LeqTransitive(a: string, b: string, c: string)
    requires Leq(a, b) && Leq(b, c)
    ensures Leq(a, c)
  {
    if a != "" && a[0] == b[0] && b[0] == c[0] {
      LeqTransitive(a[1..], b[1..], c[1..]);
    }
  }

  // ---- sorting ------------------------------------------------------------

  function Insert(name: string, sorted: seq<string>): seq<string> {
    if sorted == [] || Leq(name, sorted[0]) then [name] + sorted else [sorted[0]] + Insert(name, sorted[1..])
  }

  /** `[...names].sort()`. */
  function Sorted(names: seq<string>): seq<string> {
    if names == [] then [] else Insert(names[0], Sorted(names[1..]))
  }

  predicate InOrder(names: seq<string>) {
    forall i, j :: 0 <= i < j < |names| ==> Leq(names[i], names[j])
  }

  lemma {:induction false} InsertCounts(name: string, sorted: seq<string>)
    ensures multiset(Insert(name, sorted)) == multiset([name] + sorted)
  {
    hide Leq;
    if sorted != [] && !Leq(name, sorted[0]) {
      InsertCounts(name, sorted[1..]);
      assert sorted == [sorted[0]] + sorted[1..];
    }
  }

  /** What is inserted into is what was there and the name. */
  lemma InsertHas(name: string, sorted: seq<string>, j: nat)
    requires j < |Insert(name, sorted)|
    ensures Insert(name, sorted)[j] == name || Insert(name, sorted)[j] in sorted
  {
    hide Insert;
    InsertCounts(name, sorted);
    assert Insert(name, sorted)[j] in multiset(Insert(name, sorted));
    assert Insert(name, sorted)[j] in multiset([name] + sorted);
  }

  lemma {:induction false} InsertOrders(name: string, sorted: seq<string>)
    requires InOrder(sorted)
    ensures InOrder(Insert(name, sorted))
  {
    hide Leq;
    if sorted != [] {
      var first, rest := sorted[0], sorted[1..];
      if Leq(name, first) {
        forall j | 0 <= j < |sorted|
          ensures Leq(name, sorted[j])
        {
          if j > 0 {
            LeqTransitive(name, first, sorted[j]);
          }
        }
      } else {
        LeqTotal(name, first);
        InsertOrders(name, rest);
        var after := Insert(name, rest);
        forall j | 0 <= j < |after|
          ensures Leq(first, after[j])
        {
          InsertHas(name, rest, j);
        }
      }
    }
  }

  /** Sorting gives the same names, in order. */
  lemma {:induction false} SortedKeeps(names: seq<string>)
    ensures InOrder(Sorted(names)) && multiset(Sorted(names)) == multiset(names) && |Sorted(names)| == |names|
  {
    if names != [] {
      SortedKeeps(names[1..]);
      InsertOrders(names[0], Sorted(names[1..]));
      InsertCounts(names[0], Sorted(names[1..]));
      assert names == [names[0]] + names[1..];
      assert multiset([names[0]] + Sorted(names[1..])) == multiset([names[0]]) + multiset(Sorted(names[1..]));
    }
    assert |multiset(Sorted(names))| == |multiset(names)|;
  }

  /** There is one ordered list of the same names. */
  lemma {:induction false} OrderedUnique(a: seq<string>, b: seq<string>)
    requires InOrder(a) && InOrder(b) && multiset(a) == multiset(b)
    ensures a == b
    decreases |a|
  {
    hide Leq, InOrder;
    assert |multiset(a)| == |multiset(b)|;
    if a != [] {
      SmallestFirst(a, b);
      SmallestFirst(b, a);
      LeqAntisymmetric(a[0], b[0]);
      WithoutFirst(a);
      WithoutFirst(b);
      OrderedUnique(a[1..], b[1..]);
    }
  }

  lemma WithoutFirst(a: seq<string>)
    requires a != [] && InOrder(a)
    ensures a == [a[0]] + a[1..] && multiset(a[1..]) == multiset(a) - multiset{a[0]} && InOrder(a[1..])
  {
    hide Leq;
    assert a == [a[0]] + a[1..];
  }

  lemma SmallestFirst(a: seq<string>, b: seq<string>)
    requires a != [] && b != [] && InOrder(a) && multiset(a) == multiset(b)
    ensures Leq(a[0], b[0])
  {
    assert b[0] in multiset(b);
    assert b[0] in multiset(a);
    var i :| 0 <= i < |a| && a[i] == b[0];
    if i == 0 {
      LeqTotal(a[0], a[0]);
    }
  }

  /** Two lists sort to the same list exactly when they hold the same names as often. */
  lemma SortedCanonical(a: seq<string>, b: seq<string>)
    ensures Sorted(a) == Sorted(b) <==> multiset(a) == multiset(b)
  {
    SortedKeeps(a);
    SortedKeeps(b);
    if multiset(a) == multiset(b) {
      OrderedUnique(Sorted(a), Sorted(b));
    }
  }

  // ---- joining ------------------------------------------------------------

  function Joined(names: seq<string>, separator: char): string {
    if names == [] then ""
    else if |names| == 1 then names[0]
    else names[0] + [separator] + Joined(names[1..], separator)
  }

  /** No name holds the separator. */
  predicate Free(names: seq<string>, separator: char) {
    forall i :: 0 <= i < |names| ==> separator !in names[i]
  }

  /** Where a name ends that is followed by the separator or by nothing. */
  lemma SameHead(a: string, x: string, b: string, y: string, separator: char)
    requires separator !in a && separator !in b && a + x == b + y
    requires (x == "" || x[0] == separator) && (y == "" || y[0] == separator)
    ensures a == b && x == y
  {
    if |a| < |b| {
      NextChar(a, x, b, y);
    } else if |b| < |a| {
      NextChar(b, y, a, x);
    } else {
      var s := a + x;
      assert a == s[..|a|] && b == s[..|b|] && x == s[|a|..] && y == s[|b|..];
    }
  }

  lemma NextChar(a: string, x: string, b: string, y: string)
    requires a + x == b + y && |a| < |b|
    ensures x != "" && x[0] in b
  {
    assert (a + x)[|a|] == (b + y)[|a|];
    assert x != "" && x[0] == b[|a|];
  }

  function Tail(names: seq<string>, separator: char): string {
    if |names| <= 1 then "" else [separator] + Joined(names[1..], separator)
  }

  lemma JoinedParts(names: seq<string>, separator: char)
    requires names != []
    ensures Joined(names, separator) == names[0] + Tail(names, separator)
  {
  }

  /** Names without the separator can be read back from their joined text, but for no name at all and one empty name. */
  lemma {:induction false} JoinedInjective(a: seq<string>, b: seq<string>, separator: char)
    requires a != [] && b != [] && Free(a, separator) && Free(b, separator) && Joined(a, separator) == Joined(b, separator)
    ensures a == b
    decreases |a|
  {
    JoinedParts(a, separator);
    JoinedParts(b, separator);
    SameHead(a[0], Tail(a, separator), b[0], Tail(b, separator), separator);
    assert a == [a[0]] + a[1..] && b == [b[0]] + b[1..];
    if |a| > 1 {
      assert Joined(a[1..], separator) == Tail(a, separator)[1..] == Tail(b, separator)[1..] == Joined(b[1..], separator);
      JoinedInjective(a[1..], b[1..], separator);
    }
  }

  lemma JoinedEmpty(names: seq<string>, separator: char)
    ensures Joined(names, separator) == "" <==> names == [] || names == [""]
  {
    if |names| == 1 {
      assert names == [names[0]];
    }
  }

  // ---- keys ---------------------------------------------------------------

  function KeyOf(names: seq<string>, separator: char): string {
    Joined(Sorted(names), separator)
  }

  /** One of the two lists that a joined text cannot tell apart. */
  predicate Blank(names: seq<string>) {
    names == [] || names == [""]
  }

  lemma SortedBlank(names: seq<string>)
    ensures Sorted(names) == [] <==> names == []
    ensures Sorted(names) == [""] <==> names == [""]
  {
    SortedKeeps(names);
    if |names| == 1 {
      assert names == [names[0]] && names[1..] == [];
      assert Sorted(names) == Insert(names[0], []) == [names[0]];
    }
  }

  /** For names without the separator, two keys are equal exactly when the same names are in both, as often; or both are blank. */
  lemma KeyCanonical(a: seq<string>, b: seq<string>, separator: char)
    requires Free(a, separator) && Free(b, separator)
    ensures KeyOf(a, separator) == KeyOf(b, separator) <==> multiset(a) == multiset(b) || (Blank(a) && Blank(b))
  {
    hide Sorted, Joined;
    SortedCanonical(a, b);
    SortedFree(a, separator);
    SortedFree(b, separator);
    SortedBlank(a);
    SortedBlank(b);
    JoinedEmpty(Sorted(a), separator);
    JoinedEmpty(Sorted(b), separator);
    if KeyOf(a, separator) == KeyOf(b, separator) && a != [] && b != [] {
      JoinedInjective(Sorted(a), Sorted(b), separator);
    }
  }

  lemma SortedFree(names: seq<string>, separator: char)
    requires Free(names, separator)
    ensures Free(Sorted(names), separator)
  {
    SortedKeeps(names);
    forall i | 0 <= i < |Sorted(names)|
      ensures separator !in Sorted(names)[i]
    {
      assert Sorted(names)[i] in multiset(Sorted(names));
      assert Sorted(names)[i] in multiset(names);
    }
  }

  // ---- names that hold the separator --------------------------------------

  lemma SameNamesFree(a: seq<string>, b: seq<string>, separator: char)
    requires multiset(a) == multiset(b)
    ensures Free(b, separator) ==> Free(a, separator)
    ensures a == [""] ==> b == [""]
  {
    forall n | 0 <= n < |a|
      ensures a[n] in b
    {
      assert a[n] in multiset(a);
      assert a[n] in multiset(b);
    }
    assert |multiset(a)| == |multiset(b)|;
  }

  lemma KeyEmpty(names: seq<string>, separator: char)
    ensures KeyOf(names, separator) == "" <==> Blank(names)
  {
    hide Sorted, Joined;
    SortedBlank(names);
    JoinedEmpty(Sorted(names), separator);
  }

  /** What shares the key of names without the separator is the same names if and only if none of it holds the separator. */
  lemma SameExactlyWhenFree(a: seq<string>, b: seq<string>, separator: char)
    requires Free(b, separator) && !Blank(b) && KeyOf(a, separator) == KeyOf(b, separator)
    ensures multiset(a) == multiset(b) <==> Free(a, separator)
  {
    hide KeyOf, Free;
    KeyEmpty(a, separator);
    KeyEmpty(b, separator);
    if Free(a, separator) {
      KeyCanonical(a, b, separator);
    }
    if multiset(a) == multiset(b) {
      SameNamesFree(a, b, separator);
    }
  }

  lemma KeyOfOne(name: string, separator: char)
    ensures KeyOf([name], separator) == name
  {
    assert [name][1..] == [] && Sorted([]) == [] && Sorted([name]) == [name];
  }

  /** Every two names or more share their key with one other name, which joins them; a name may hold MySQL's and SQLite's blank. */
  lemma SharedKey(names: seq<string>, separator: char)
    requires |names| >= 2
    ensures KeyOf([KeyOf(names, separator)], separator) == KeyOf(names, separator)
    ensures multiset([KeyOf(names, separator)]) != multiset(names)
  {
    hide KeyOf;
    KeyOfOne(KeyOf(names, separator), separator);
    assert |multiset([KeyOf(names, separator)])| == 1 && |multiset(names)| == |names|;
  }

  // ---- one-to-one ---------------------------------------------------------

  /** How a relation is taken for one-to-one: a unique set that is not empty has the key of its columns. */
  predicate Covers(sets: seq<seq<string>>, names: seq<string>, separator: char) {
    exists k :: 0 <= k < |sets| && sets[k] != [] && KeyOf(sets[k], separator) == KeyOf(names, separator)
  }

  /** The same columns, in any order, as a unique set that is not empty. */
  ghost predicate OnOneOf(sets: seq<seq<string>>, names: seq<string>) {
    exists k :: 0 <= k < |sets| && sets[k] != [] && multiset(sets[k]) == multiset(names)
  }

  predicate AllFree(sets: seq<seq<string>>, separator: char) {
    forall k :: 0 <= k < |sets| ==> Free(sets[k], separator)
  }

  /** A unique column whose name joins two or more others passes for a unique set of them. */
  lemma SharedKeyCovers(names: seq<string>, separator: char)
    requires |names| >= 2
    ensures Covers([[KeyOf(names, separator)]], names, separator) && !OnOneOf([[KeyOf(names, separator)]], names)
  {
    hide KeyOf;
    SharedKey(names, separator);
    assert [[KeyOf(names, separator)]][0] == [KeyOf(names, separator)];
  }

  /** Of one set that is not empty: the same columns have the same key, and hold the separator or not alike; without it the key tells. */
  lemma SameSet(names: seq<string>, other: seq<string>, separator: char)
    requires names != [] && other != []
    ensures multiset(other) == multiset(names) ==> KeyOf(other, separator) == KeyOf(names, separator) && (Free(other, separator) <==> Free(names, separator))
    ensures KeyOf(other, separator) == KeyOf(names, separator) && Free(other, separator) && Free(names, separator) ==> multiset(other) == multiset(names)
  {
    hide Free, Sorted, Joined;
    SortedCanonical(other, names);
    if multiset(other) == multiset(names) {
      SameNamesFree(other, names, separator);
      SameNamesFree(names, other, separator);
    } else if Free(other, separator) && Free(names, separator) {
      KeyCanonical(other, names, separator);
    }
  }

  /** Under unique sets without the separator, a relation taken for one-to-one is one exactly when its own columns have none. */
  lemma RightExactlyWhenColumnsFree(sets: seq<seq<string>>, names: seq<string>, separator: char)
    requires AllFree(sets, separator) && names != []
    ensures OnOneOf(sets, names) <==> Covers(sets, names, separator) && Free(names, separator)
  {
    hide Free, KeyOf;
    forall k | 0 <= k < |sets| && sets[k] != []
      ensures multiset(sets[k]) == multiset(names) <==> KeyOf(sets[k], separator) == KeyOf(names, separator) && Free(names, separator)
    {
      SameSet(names, sets[k], separator);
    }
  }

  /** Whatever the unique sets, a relation whose columns are free of the separator is one-to-one exactly when a set that covers it is free too. */
  lemma RightExactlyWhenSetFree(sets: seq<seq<string>>, names: seq<string>, separator: char)
    requires Free(names, separator) && names != []
    ensures OnOneOf(sets, names) <==>
            exists k :: 0 <= k < |sets| && sets[k] != [] && KeyOf(sets[k], separator) == KeyOf(names, separator) && Free(sets[k], separator)
  {
    hide Free, KeyOf;
    forall k | 0 <= k < |sets| && sets[k] != []
      ensures multiset(sets[k]) == multiset(names) <==> KeyOf(sets[k], separator) == KeyOf(names, separator) && Free(sets[k], separator)
    {
      SameSet(names, sets[k], separator);
    }
  }
}
