/**
 * Backtracking regular expressions, as section 22.2.2 of ECMA-262 defines them.
 *
 * A pattern is tried in order: `Ends` lists every way it can match from a position, the one a matcher would find first
 * at the head. Greedy repetition, its empty check and the clearing of captures inside it are as the standard has them.
 */
module Regex {
  import opened Wrappers

  datatype Pattern =
    | Class(negated: bool, chars: set<char>)
    | Then(first: Pattern, second: Pattern)
    | Or(left: Pattern, right: Pattern)
    | Star(body: Pattern)
    | Group(index: nat, body: Pattern)
    | AtStart
    | AtEnd
    | Nothing

  /** A way to match: where it ends, and what each group captured, as a range. */
  datatype Found = Found(end: nat, groups: map<nat, (nat, nat)>)

  function Lit(c: char): Pattern {
    Class(false, {c})
  }

  /** `p?` */
  function Optional(p: Pattern): Pattern {
    Or(p, Nothing)
  }

  /** `p+` */
  function Plus(p: Pattern): Pattern {
    Then(p, Star(p))
  }

  /** `p{0,n}`, for a pattern that never matches the empty text. */
  function UpTo(p: Pattern, n: nat): Pattern {
    if n == 0 then Nothing else Optional(Then(p, UpTo(p, n - 1)))
  }

  predicate Accepts(p: Pattern, c: char)
    requires p.Class?
  {
    p.negated != (c in p.chars)
  }

  function GroupsOf(p: Pattern): set<nat> {
    match p
    case Then(a, b) => GroupsOf(a) + GroupsOf(b)
    case Or(a, b) => GroupsOf(a) + GroupsOf(b)
    case Star(body) => GroupsOf(body)
    case Group(index, body) => {index} + GroupsOf(body)
    case _ => {}
  }

  /** What was captured inside a repetition is forgotten when it starts over. */
  function Cleared(x: Found, body: Pattern): (y: Found)
    ensures y.end == x.end
  {
    x.(groups := x.groups - GroupsOf(body))
  }

  predicate Within(xs: seq<Found>, from: int, to: nat) {
    forall k :: 0 <= k < |xs| ==> from <= xs[k].end <= to
  }

  /** Every way `p` matches `s` from `x`, first choice first. */
  function Ends(p: Pattern, s: string, x: Found): (ends: seq<Found>)
    requires x.end <= |s|
    ensures Within(ends, x.end, |s|)
    decreases p, |s| - x.end, 1, 0
  {
    match p
    case Class(_, _) => if x.end < |s| && Accepts(p, s[x.end]) then [x.(end := x.end + 1)] else []
    case Then(a, b) => EndsOfEach(b, s, Ends(a, s, x), x.end)
    case Or(a, b) => Ends(a, s, x) + Ends(b, s, x)
    case Star(_) => EndsOfStar(p, s, x)
    case Group(index, body) => Captured(Ends(body, s, x), index, x.end, |s|)
    case AtStart => if x.end == 0 then [x] else []
    case AtEnd => if x.end == |s| then [x] else []
    case Nothing => [x]
  }

  /** Greedy: one more iteration and whatever follows it, before stopping here. */
  function EndsOfStar(p: Pattern, s: string, x: Found): (ends: seq<Found>)
    requires p.Star? && x.end <= |s|
    ensures Within(ends, x.end, |s|)
    decreases p, |s| - x.end, 0, 0
  {
    EndsOfEach(p, s, Moved(Ends(p.body, s, Cleared(x, p.body)), x.end, |s|), x.end + 1) + [x]
  }

  function EndsOfEach(p: Pattern, s: string, xs: seq<Found>, from: int): (ends: seq<Found>)
    requires Within(xs, from, |s|)
    ensures Within(ends, from, |s|)
    decreases p, |s| - from, 2, |xs|
  {
    if xs == [] then []
    else
      assert Within(xs[1..], from, |s|);
      Ends(p, s, xs[0]) + EndsOfEach(p, s, xs[1..], from)
  }

  /** An iteration that matched nothing is not one. */
  function Moved(xs: seq<Found>, from: nat, to: nat): (ys: seq<Found>)
    requires Within(xs, from, to)
    ensures Within(ys, from + 1, to)
  {
    if xs == [] then []
    else
      assert Within(xs[1..], from, to);
      (if xs[0].end > from then [xs[0]] else []) + Moved(xs[1..], from, to)
  }

  function Captured(xs: seq<Found>, index: nat, from: nat, to: nat): (ys: seq<Found>)
    requires Within(xs, from, to)
    ensures Within(ys, from, to) && |ys| == |xs|
    ensures forall k :: 0 <= k < |ys| ==> ys[k] == xs[k].(groups := xs[k].groups[index := (from, xs[k].end)])
  {
    if xs == [] then []
    else
      assert Within(xs[1..], from, to);
      [xs[0].(groups := xs[0].groups[index := (from, xs[0].end)])] + Captured(xs[1..], index, from, to)
  }

  /** A match of `p` that starts at `start`. */
  function MatchAt(p: Pattern, s: string, start: nat): (m: Option<Found>)
    requires start <= |s|
    ensures m.Some? ==> start <= m.value.end <= |s|
  {
    var ends := Ends(p, s, Found(start, map[]));
    if ends == [] then None else Some(ends[0])
  }

  /** The first place, from `from` on, where `p` matches. */
  function Search(p: Pattern, s: string, from: nat): (at: Option<nat>)
    ensures at.Some? ==> from <= at.value <= |s| && MatchAt(p, s, at.value).Some?
    ensures forall k :: from <= k <= |s| && (at.None? || k < at.value) ==> MatchAt(p, s, k).None?
    decreases |s| + 1 - from
  {
    if from > |s| then None
    else if MatchAt(p, s, from).Some? then Some(from)
    else Search(p, s, from + 1)
  }

  /** `s.matchAll(p)` from `from` on, where `p` never matches the empty text at an odd place: an empty match moves on by one. */
  function MatchAll(p: Pattern, s: string, from: nat): seq<Found>
    decreases |s| + 1 - from
  {
    match Search(p, s, from)
    case None => []
    case Some(at) =>
      var m := MatchAt(p, s, at).value;
      [m] + MatchAll(p, s, if m.end == at then at + 1 else m.end)
  }

  /** `s.replace(p, '')`, without the global flag. */
  function RemoveFirst(p: Pattern, s: string): string {
    match Search(p, s, 0)
    case None => s
    case Some(at) => s[..at] + s[MatchAt(p, s, at).value.end..]
  }

  /** Places where nothing matches may be skipped. */
  lemma {:induction false} SkipUnmatched(p: Pattern, s: string, from: nat, to: nat)
    requires from <= to <= |s| + 1
    requires forall k :: from <= k < to ==> MatchAt(p, s, k).None?
    ensures Search(p, s, from) == Search(p, s, to)
    decreases |s| + 1 - from
  {
    hide MatchAt;
    if from < to {
      SkipUnmatched(p, s, from + 1, to);
    }
  }

  lemma MatchAllSkips(p: Pattern, s: string, from: nat, to: nat)
    requires from <= to <= |s| + 1
    requires forall k :: from <= k < to ==> MatchAt(p, s, k).None?
    ensures MatchAll(p, s, from) == MatchAll(p, s, to)
  {
    hide MatchAt, Search;
    SkipUnmatched(p, s, from, to);
  }

  // ---- repetition without groups ------------------------------------------

  lemma StarUnfolds(body: Pattern, s: string, x: Found)
    requires x.end <= |s| && GroupsOf(body) == {}
    ensures Ends(Star(body), s, x) == EndsOfEach(Star(body), s, Moved(Ends(body, s, x), x.end, |s|), x.end + 1) + [x]
  {
    hide Ends, EndsOfStar, GroupsOf, Cleared, EndsOfEach, Moved, Within;
    NothingCleared(x, body);
    StarEnds(Star(body), s, x);
    StarIs(Star(body), s, x);
  }

  lemma ThenEnds(a: Pattern, b: Pattern, s: string, x: Found)
    requires x.end <= |s|
    ensures Ends(Then(a, b), s, x) == EndsOfEach(b, s, Ends(a, s, x), x.end)
  {
    hide EndsOfStar, EndsOfEach, Moved, Captured;
  }

  lemma OrEnds(a: Pattern, b: Pattern, s: string, x: Found)
    requires x.end <= |s|
    ensures Ends(Or(a, b), s, x) == Ends(a, s, x) + Ends(b, s, x)
  {
    hide EndsOfStar, EndsOfEach, Moved, Captured;
  }

  lemma GroupEnds(index: nat, body: Pattern, s: string, x: Found)
    requires x.end <= |s|
    ensures Ends(Group(index, body), s, x) == Captured(Ends(body, s, x), index, x.end, |s|)
  {
    hide EndsOfStar, EndsOfEach, Moved, Captured;
  }

  lemma StarIs(p: Pattern, s: string, x: Found)
    requires p.Star? && x.end <= |s|
    ensures EndsOfStar(p, s, x) == EndsOfEach(p, s, Moved(Ends(p.body, s, Cleared(x, p.body)), x.end, |s|), x.end + 1) + [x]
  {
    hide Ends, GroupsOf, Cleared, EndsOfEach, Moved, Within;
  }

  lemma StarEnds(p: Pattern, s: string, x: Found)
    requires p.Star? && x.end <= |s|
    ensures Ends(p, s, x) == EndsOfStar(p, s, x)
  {
    hide EndsOfStar, EndsOfEach, Moved, Captured;
  }

  lemma NothingCleared(x: Found, body: Pattern)
    requires GroupsOf(body) == {}
    ensures Cleared(x, body) == x
  {
  }

  /** One way to go on: an iteration first, then stopping here. */
  lemma StarGoesOn(body: Pattern, s: string, x: Found, y: Found)
    requires x.end <= |s| && GroupsOf(body) == {} && Ends(body, s, x) == [y] && y.end > x.end
    ensures y.end <= |s| && Ends(Star(body), s, x) == Ends(Star(body), s, y) + [x]
  {
    hide Ends;
    StarUnfolds(body, s, x);
    assert Moved([y], x.end, |s|) == [y];
    EndsOfOne(Star(body), s, y, x.end + 1);
  }

  lemma StarStops(body: Pattern, s: string, x: Found)
    requires x.end <= |s| && GroupsOf(body) == {} && Ends(body, s, x) == []
    ensures Ends(Star(body), s, x) == [x]
  {
    hide Ends;
    StarUnfolds(body, s, x);
  }

  lemma EndsOfOne(p: Pattern, s: string, x: Found, from: int)
    requires from <= x.end <= |s|
    ensures EndsOfEach(p, s, [x], from) == Ends(p, s, x)
  {
    hide Ends;
    assert [x][1..] == [];
  }

  /** One class, repeated: every run of accepted characters, the longest first. */
  lemma {:induction false} EndsOfRun(p: Pattern, s: string, x: Found, n: nat)
    requires p.Class? && x.end + n <= |s|
    requires forall k :: x.end <= k < x.end + n ==> Accepts(p, s[k])
    requires x.end + n == |s| || !Accepts(p, s[x.end + n])
    ensures |Ends(Star(p), s, x)| == n + 1
    ensures forall k :: 0 <= k <= n ==> Ends(Star(p), s, x)[k] == x.(end := x.end + n - k)
    decreases n
  {
    hide Ends, Accepts, EndsOfEach;
    EndsOfClass(p, s, x);
    if n > 0 {
      var y := x.(end := x.end + 1);
      EndsOfRun(p, s, y, n - 1);
      StarGoesOn(p, s, x, y);
    } else {
      StarStops(p, s, x);
    }
  }

  lemma WithinJoined(xs: seq<Found>, y: Found, from: int, to: nat)
    requires Within(xs, from, to) && from <= y.end <= to
    ensures Within(xs + [y], from, to)
    ensures xs != [] ==> Within(xs[1..], from, to) && (xs + [y])[1..] == xs[1..] + [y]
  {
  }

  lemma {:induction false} EndsOfJoined(p: Pattern, s: string, xs: seq<Found>, y: Found, from: int)
    requires Within(xs, from, |s|) && from <= y.end <= |s|
    ensures Within(xs + [y], from, |s|)
    ensures EndsOfEach(p, s, xs + [y], from) == EndsOfEach(p, s, xs, from) + Ends(p, s, y)
  {
    hide Ends, Within;
    WithinJoined(xs, y, from, |s|);
    if xs == [] {
      assert xs + [y] == [y];
      EndsOfOne(p, s, y, from);
    } else {
      EndsOfJoined(p, s, xs[1..], y, from);
    }
  }

  /** Choices that cannot go on are passed over. */
  lemma {:induction false} FirstThatGoesOn(p: Pattern, s: string, xs: seq<Found>, from: int, k: nat)
    requires Within(xs, from, |s|) && k < |xs| && Ends(p, s, xs[k]) != []
    requires forall j :: 0 <= j < k ==> Ends(p, s, xs[j]) == []
    ensures EndsOfEach(p, s, xs, from) != [] && EndsOfEach(p, s, xs, from)[0] == Ends(p, s, xs[k])[0]
    decreases |xs|
  {
    hide Ends;
    if k > 0 {
      FirstThatGoesOn(p, s, xs[1..], from, k - 1);
    }
  }

  lemma {:induction false} NoneGoesOn(p: Pattern, s: string, xs: seq<Found>, from: int)
    requires Within(xs, from, |s|)
    requires forall j :: 0 <= j < |xs| ==> Ends(p, s, xs[j]) == []
    ensures EndsOfEach(p, s, xs, from) == []
    decreases |xs|
  {
    hide Ends;
    if xs != [] {
      NoneGoesOn(p, s, xs[1..], from);
    }
  }

  lemma OnlyFirst(p: Pattern, s: string, xs: seq<Found>, from: int)
    requires Within(xs, from, |s|) && xs != []
    requires forall j :: 1 <= j < |xs| ==> Ends(p, s, xs[j]) == []
    ensures EndsOfEach(p, s, xs, from) == Ends(p, s, xs[0])
  {
    hide Ends;
    NoneGoesOn(p, s, xs[1..], from);
  }

  /** One way through the first of two: the second goes on from there. */
  lemma ThenOne(a: Pattern, b: Pattern, s: string, x: Found, y: Found)
    requires x.end <= |s| && Ends(a, s, x) == [y]
    ensures y.end <= |s| && Ends(Then(a, b), s, x) == Ends(b, s, y)
  {
    hide Ends;
    ThenEnds(a, b, s, x);
    EndsOfOne(b, s, y, x.end);
  }

  lemma ThenNone(a: Pattern, b: Pattern, s: string, x: Found)
    requires x.end <= |s| && Ends(a, s, x) == []
    ensures Ends(Then(a, b), s, x) == []
  {
    hide Ends;
    ThenEnds(a, b, s, x);
  }

  /** The lower bound of `EndsOfEach` is only for termination. */
  lemma {:induction false} AnyBound(p: Pattern, s: string, xs: seq<Found>, from: int, other: int)
    requires Within(xs, from, |s|) && Within(xs, other, |s|)
    ensures EndsOfEach(p, s, xs, from) == EndsOfEach(p, s, xs, other)
    decreases |xs|
  {
    hide Ends;
    if xs != [] {
      AnyBound(p, s, xs[1..], from, other);
    }
  }

  lemma EndsOfClass(p: Pattern, s: string, x: Found)
    requires p.Class? && x.end <= |s|
    ensures Ends(p, s, x) == if x.end < |s| && Accepts(p, s[x.end]) then [x.(end := x.end + 1)] else []
    ensures GroupsOf(p) == {}
  {
  }

  // ---- patterns that always consume ---------------------------------------

  /** Every match takes a character at least. */
  predicate Consumes(p: Pattern) {
    match p
    case Class(_, _) => true
    case Then(a, b) => Consumes(a) || Consumes(b)
    case Or(a, b) => Consumes(a) && Consumes(b)
    case Group(_, body) => Consumes(body)
    case _ => false
  }

  lemma {:induction false} ConsumesMoves(p: Pattern, s: string, x: Found)
    requires x.end <= |s| && Consumes(p)
    ensures Within(Ends(p, s, x), x.end + 1, |s|)
    decreases p, 0
  {
    hide Ends, EndsOfEach, Captured, Accepts;
    match p
    case Class(_, _) => EndsOfClass(p, s, x);
    case Then(a, b) =>
      ThenEnds(a, b, s, x);
      if Consumes(a) {
        ConsumesMoves(a, s, x);
        AnyBound(b, s, Ends(a, s, x), x.end, x.end + 1);
      } else {
        EachMoves(b, s, Ends(a, s, x), x.end);
      }
    case Or(a, b) =>
      OrEnds(a, b, s, x);
      ConsumesMoves(a, s, x);
      ConsumesMoves(b, s, x);
    case Group(index, body) =>
      GroupEnds(index, body, s, x);
      ConsumesMoves(body, s, x);
  }

  lemma {:induction false} EachMoves(p: Pattern, s: string, xs: seq<Found>, from: nat)
    requires Within(xs, from, |s|) && Consumes(p)
    ensures Within(EndsOfEach(p, s, xs, from), from + 1, |s|)
    decreases p, 1, |xs|
  {
    hide Ends, Consumes;
    if xs != [] {
      ConsumesMoves(p, s, xs[0]);
      EachMoves(p, s, xs[1..], from);
    }
  }

  // ---- an optional class that is not there, and a bounded run --------------

  /** An optional class where it does not apply. */
  lemma OptionalAbsent(p: Pattern, s: string, x: Found)
    requires p.Class? && x.end < |s| && !Accepts(p, s[x.end])
    ensures Ends(Optional(p), s, x) == [x]
  {
    hide Ends, Accepts;
    OrEnds(p, Nothing, s, x);
    EndsOfClass(p, s, x);
    EndsOfNothing(s, x);
  }

  lemma EndsOfNothing(s: string, x: Found)
    requires x.end <= |s|
    ensures Ends(Nothing, s, x) == [x]
  {
  }

  /** A bounded repetition of a class takes the whole of a run that fits first. */
  lemma {:induction false} UpToRun(p: Pattern, n: nat, s: string, x: Found, k: nat)
    requires p.Class? && x.end + k < |s| && k <= n
    requires forall i :: x.end <= i < x.end + k ==> Accepts(p, s[i])
    requires !Accepts(p, s[x.end + k])
    ensures Ends(UpTo(p, n), s, x) != [] && Ends(UpTo(p, n), s, x)[0] == x.(end := x.end + k)
    decreases n
  {
    hide Ends, Accepts;
    EndsOfNothing(s, x);
    if n > 0 {
      var more := Then(p, UpTo(p, n - 1));
      OrEnds(more, Nothing, s, x);
      EndsOfClass(p, s, x);
      if k > 0 {
        var y := x.(end := x.end + 1);
        UpToRun(p, n - 1, s, y, k - 1);
        ThenOne(p, UpTo(p, n - 1), s, x, y);
      } else {
        ThenNone(p, UpTo(p, n - 1), s, x);
      }
    }
  }

  /** The first way through the first of two that the second can go on from at once. */
  lemma ThenFirst(a: Pattern, b: Pattern, s: string, x: Found)
    requires x.end <= |s| && Ends(a, s, x) != [] && Ends(b, s, Ends(a, s, x)[0]) != []
    ensures Ends(Then(a, b), s, x) != [] && Ends(Then(a, b), s, x)[0] == Ends(b, s, Ends(a, s, x)[0])[0]
  {
    hide Ends;
    ThenEnds(a, b, s, x);
    FirstThatGoesOn(b, s, Ends(a, s, x), x.end, 0);
  }
}
