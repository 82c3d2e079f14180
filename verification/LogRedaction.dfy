/**
 * log-redaction.ts: name-based redaction of a graph of objects, with sharing and cycles.
 *
 * The heap is a finite map from ids to plain containers; everything else a field may hold is a leaf. Every copy the walk
 * makes is referenced from one place, so what it returns is a tree whose ends are references into the original heap.
 */
module LogRedaction {
  import opened Wrappers

  type Id = nat

  /** A value that is a container is one in the heap; a class instance, like a primitive, is not. */
  datatype Value = Leaf(text: string) | Ref(id: Id)

  /** An enumerable getter may throw. */
  datatype Slot = Throws | Holds(value: Value)

  datatype Field = Field(key: string, slot: Slot)

  datatype Node = Node(isArray: bool, fields: seq<Field>)

  /** `secret` is `SECRET_FIELD_NAMES.has(key.toLowerCase())`. */
  datatype World = World(heap: map<Id, Node>, secret: string -> bool)

  datatype Marker = Redacted | Circular | TooDeep | Unreadable

  /** What the walk returns: the value itself, a copy, or a marker in its place. */
  datatype Out = Same(value: Value) | Copy(isArray: bool, fields: seq<OutField>) | Marked(marker: Marker)

  datatype OutField = OutField(key: string, out: Out)

  const MAX_DEPTH := 12

  predicate Container(w: World, v: Value) {
    v.Ref? && v.id in w.heap
  }

  // ---- the walk -----------------------------------------------------------

  datatype Walked = Walked(out: Out, seen: set<Id>)

  datatype WalkedFields = WalkedFields(outs: seq<OutField>, changed: bool, seen: set<Id>)

  function Walk(w: World, n: Id, depth: nat, seen: set<Id>): (r: Walked)
    requires n in w.heap && depth <= MAX_DEPTH
    decreases MAX_DEPTH - depth, 1, 0
  {
    if n in seen then Walked(Marked(Circular), seen)
    else
      var r := WalkFields(w, w.heap[n].isArray, w.heap[n].fields, depth, seen + {n});
      Walked(if r.changed then Copy(w.heap[n].isArray, r.outs) else Same(Ref(n)), r.seen)
  }

  function WalkFields(w: World, isArray: bool, fields: seq<Field>, depth: nat, seen: set<Id>): (r: WalkedFields)
    requires depth <= MAX_DEPTH
    decreases MAX_DEPTH - depth, 0, |fields|
  {
    if fields == [] then WalkedFields([], false, seen)
    else
      var first := WalkField(w, isArray, fields[0], depth, seen);
      var rest := WalkFields(w, isArray, fields[1..], depth, first.seen);
      WalkedFields([OutField(fields[0].key, first.out)] + rest.outs, Changes(fields[0], first.out) || rest.changed, rest.seen)
  }

  /** A field counts as changed unless its own value came back. */
  predicate Changes(f: Field, out: Out) {
    !(f.slot.Holds? && out == Same(f.slot.value))
  }

  function WalkField(w: World, isArray: bool, f: Field, depth: nat, seen: set<Id>): (r: Walked)
    requires depth <= MAX_DEPTH
    decreases MAX_DEPTH - depth, 0, 0
  {
    if f.slot.Throws? then Walked(Marked(Unreadable), seen)
    else if !isArray && w.secret(f.key) then Walked(Marked(Redacted), seen)
    else if Container(w, f.slot.value) then
      if depth >= MAX_DEPTH then Walked(Marked(TooDeep), seen) else Walk(w, f.slot.value.id, depth + 1, seen)
    else Walked(Same(f.slot.value), seen)
  }

  function ScrubSecretFields(w: World, v: Value): Out {
    if Container(w, v) && !w.heap[v.id].isArray then Walk(w, v.id, 0, {}).out else Same(v)
  }

  // ---- the graph ----------------------------------------------------------

  /** The container a path of field places leads to. */
  function Follow(w: World, n: Id, path: seq<nat>): (m: Option<Id>)
    requires n in w.heap
    ensures m.Some? ==> m.value in w.heap
    decreases |path|
  {
    if path == [] then Some(n)
    else
      var fields := w.heap[n].fields;
      if path[0] < |fields| && fields[path[0]].slot.Holds? && Container(w, fields[path[0]].slot.value)
      then Follow(w, fields[path[0]].slot.value.id, path[1..]) else None
  }

  /** No field of it is secret-named (an array's never are). */
  predicate NoSecrets(w: World, m: Id)
    requires m in w.heap
  {
    w.heap[m].isArray || forall i :: 0 <= i < |w.heap[m].fields| ==> !w.secret(w.heap[m].fields[i].key)
  }

  predicate Readable(w: World, m: Id)
    requires m in w.heap
  {
    forall i :: 0 <= i < |w.heap[m].fields| ==> w.heap[m].fields[i].slot.Holds?
  }

  /** Nothing that can be reached through plain containers has a secret-named field. */
  ghost predicate CleanFrom(w: World, n: Id)
    requires n in w.heap
  {
    forall path :: Follow(w, n, path).Some? ==> NoSecrets(w, Follow(w, n, path).value)
  }

  /** Every container is reached along one path only, none longer than `levels`. */
  ghost predicate TreeFrom(w: World, n: Id, levels: int)
    requires n in w.heap
  {
    && (forall path :: Follow(w, n, path).Some? ==> |path| <= levels)
    && (forall p, q :: Follow(w, n, p).Some? && Follow(w, n, p) == Follow(w, n, q) ==> p == q)
  }

  ghost predicate ReadableFrom(w: World, n: Id)
    requires n in w.heap
  {
    forall path :: Follow(w, n, path).Some? ==> Readable(w, Follow(w, n, path).value)
  }

  // ---- safety -------------------------------------------------------------

  /**
   * In everything reachable from a result through plain containers, a secret-named field of an object holds the marker that
   * it was redacted, or that it could not be read.
   */
  ghost predicate Safe(w: World, out: Out) {
    match out
    case Same(v) => Container(w, v) ==> CleanFrom(w, v.id)
    case Copy(isArray, fields) =>
      forall i :: 0 <= i < |fields| ==> Safe(w, fields[i].out) && (!isArray && w.secret(fields[i].key) ==> (fields[i].out == Marked(Redacted) || fields[i].out == Marked(Unreadable)))
    case Marked(_) => true
  }

  ghost predicate SafeFields(w: World, isArray: bool, outs: seq<OutField>) {
    forall i :: 0 <= i < |outs| ==>
      Safe(w, outs[i].out) && (!isArray && w.secret(outs[i].key) ==> outs[i].out == Marked(Redacted) || outs[i].out == Marked(Unreadable))
  }

  /** No field is secret, and every container among their values is clean. */
  ghost predicate CleanFields(w: World, isArray: bool, fields: seq<Field>) {
    forall i :: 0 <= i < |fields| ==>
      && (!isArray ==> !w.secret(fields[i].key))
      && (fields[i].slot.Holds? && Container(w, fields[i].slot.value) ==> CleanFrom(w, fields[i].slot.value.id))
  }

  lemma CleanFieldsClean(w: World, n: Id)
    requires n in w.heap && CleanFields(w, w.heap[n].isArray, w.heap[n].fields)
    ensures CleanFrom(w, n)
  {
    forall path | Follow(w, n, path).Some?
      ensures NoSecrets(w, Follow(w, n, path).value)
    {
      if path != [] {
        var child := w.heap[n].fields[path[0]].slot.value.id;
        assert CleanFrom(w, child);
        assert Follow(w, child, path[1..]).Some?;
      }
    }
  }

  lemma {:induction false} WalkSafe(w: World, n: Id, depth: nat, seen: set<Id>)
    requires n in w.heap && depth <= MAX_DEPTH
    ensures Safe(w, Walk(w, n, depth, seen).out)
    decreases MAX_DEPTH - depth, 1, 0
  {
    hide CleanFrom;
    if n !in seen {
      WalkFieldsSafe(w, w.heap[n].isArray, w.heap[n].fields, depth, seen + {n});
      if !WalkFields(w, w.heap[n].isArray, w.heap[n].fields, depth, seen + {n}).changed {
        CleanFieldsClean(w, n);
      }
    }
  }

  lemma {:induction false} WalkFieldsSafe(w: World, isArray: bool, fields: seq<Field>, depth: nat, seen: set<Id>)
    requires depth <= MAX_DEPTH
    ensures var r := WalkFields(w, isArray, fields, depth, seen);
            SafeFields(w, isArray, r.outs) && (!r.changed ==> CleanFields(w, isArray, fields))
    decreases MAX_DEPTH - depth, 0, |fields|
  {
    hide Walk, CleanFrom;
    if fields != [] {
      var f := fields[0];
      var first := WalkField(w, isArray, f, depth, seen);
      if f.slot.Holds? && Container(w, f.slot.value) && depth < MAX_DEPTH {
        WalkSafe(w, f.slot.value.id, depth + 1, seen);
      }
      WalkFieldsSafe(w, isArray, fields[1..], depth, first.seen);
    }
  }

  /**
   * What is logged never shows a secret-named field, whatever the graph, unless the value given is itself an array that
   * leads to one: an array at the top is handed back as it is.
   */
  lemma ScrubIsSafe(w: World, v: Value)
    ensures Safe(w, ScrubSecretFields(w, v)) <==> !(Container(w, v) && w.heap[v.id].isArray && !CleanFrom(w, v.id))
  {
    if Container(w, v) && !w.heap[v.id].isArray {
      WalkSafe(w, v.id, 0, {});
    }
  }

  /** An array of one object with a password, and the object. */
  const LISTED := World(map[0 := Node(true, [Field("0", Holds(Ref(1)))]), 1 := Node(false, [Field("password", Holds(Leaf("hunter2")))])],
                        key => key == "password")

  lemma ListedShowsItsSecret()
    ensures ScrubSecretFields(LISTED, Ref(0)) == Same(Ref(0)) && !Safe(LISTED, Same(Ref(0)))
    ensures ScrubSecretFields(LISTED, Ref(1)) == Copy(false, [OutField("password", Marked(Redacted))])
  {
    var w, path := LISTED, [0];
    assert path[1..] == [] && Follow(w, 0, path) == Some(1);
    assert !NoSecrets(w, 1) by {
      assert w.heap[1].fields[0].key == "password";
    }
    var fields := w.heap[1].fields;
    assert fields[1..] == [] && WalkField(w, false, fields[0], 0, {1}) == Walked(Marked(Redacted), {1});
    assert WalkFields(w, false, fields[1..], 0, {1}) == WalkedFields([], false, {1});
  }

  // ---- when the value itself comes back -----------------------------------

  /** The containers under `n`, itself among them, down to `levels` below it. */
  ghost function Under(w: World, n: Id, levels: nat): set<Id>
    requires n in w.heap
    decreases levels, 1, 0
  {
    {n} + UnderFields(w, w.heap[n].fields, levels)
  }

  ghost function UnderFields(w: World, fields: seq<Field>, levels: nat): set<Id>
    decreases levels, 0, |fields|
  {
    if fields == [] then {} else UnderField(w, fields[0], levels) + UnderFields(w, fields[1..], levels)
  }

  ghost function UnderField(w: World, f: Field, levels: nat): set<Id>
    decreases levels, 0, 0
  {
    if f.slot.Holds? && Container(w, f.slot.value) && levels > 0 then Under(w, f.slot.value.id, levels - 1) else {}
  }

  /** A tree of clean and readable containers, level by level. */
  ghost predicate Tidy(w: World, n: Id, levels: nat)
    requires n in w.heap
    decreases levels, 1, 0
  {
    TidyFields(w, w.heap[n].isArray, w.heap[n].fields, levels) && n !in UnderFields(w, w.heap[n].fields, levels)
  }

  ghost predicate TidyFields(w: World, isArray: bool, fields: seq<Field>, levels: nat)
    decreases levels, 0, |fields|
  {
    fields != [] ==>
      && TidyField(w, isArray, fields[0], levels)
      && UnderField(w, fields[0], levels) !! UnderFields(w, fields[1..], levels)
      && TidyFields(w, isArray, fields[1..], levels)
  }

  ghost predicate TidyField(w: World, isArray: bool, f: Field, levels: nat)
    decreases levels, 0, 0
  {
    && f.slot.Holds?
    && (isArray || !w.secret(f.key))
    && (Container(w, f.slot.value) ==> levels > 0 && Tidy(w, f.slot.value.id, levels - 1))
  }

  /** A walk gives its own node back exactly over a tidy tree none of which was met before; then it has met that tree. */
  lemma {:induction false} WalkSame(w: World, n: Id, depth: nat, seen: set<Id>)
    requires n in w.heap && depth <= MAX_DEPTH
    ensures var r, levels := Walk(w, n, depth, seen), MAX_DEPTH - depth;
            && (r.out == Same(Ref(n)) <==> Tidy(w, n, levels) && Under(w, n, levels) !! seen)
            && (r.out == Same(Ref(n)) ==> r.seen == seen + Under(w, n, levels))
    decreases MAX_DEPTH - depth, 1, 0
  {
    if n !in seen {
      WalkFieldsSame(w, w.heap[n].isArray, w.heap[n].fields, depth, seen + {n});
    }
  }

  lemma {:induction false} WalkFieldsSame(w: World, isArray: bool, fields: seq<Field>, depth: nat, seen: set<Id>)
    requires depth <= MAX_DEPTH
    ensures var r, levels := WalkFields(w, isArray, fields, depth, seen), MAX_DEPTH - depth;
            && (!r.changed <==> TidyFields(w, isArray, fields, levels) && UnderFields(w, fields, levels) !! seen)
            && (!r.changed ==> r.seen == seen + UnderFields(w, fields, levels))
    decreases MAX_DEPTH - depth, 0, |fields|
  {
    hide Walk, Tidy, Under;
    if fields != [] {
      var first := WalkField(w, isArray, fields[0], depth, seen);
      WalkFieldSame(w, isArray, fields[0], depth, seen);
      WalkFieldsSame(w, isArray, fields[1..], depth, first.seen);
    }
  }

  lemma {:induction false} WalkFieldSame(w: World, isArray: bool, f: Field, depth: nat, seen: set<Id>)
    requires depth <= MAX_DEPTH
    ensures var r, levels := WalkField(w, isArray, f, depth, seen), MAX_DEPTH - depth;
            && (!Changes(f, r.out) <==> TidyField(w, isArray, f, levels) && UnderField(w, f, levels) !! seen)
            && (!Changes(f, r.out) ==> r.seen == seen + UnderField(w, f, levels))
    decreases MAX_DEPTH - depth, 0, 0
  {
    hide Walk, Tidy, Under;
    if f.slot.Holds? && Container(w, f.slot.value) && depth < MAX_DEPTH {
      WalkSame(w, f.slot.value.id, depth + 1, seen);
    }
  }

  // ---- tidy trees, by their paths -----------------------------------------

  /** The container in the field at `i`. */
  predicate HasChild(w: World, n: Id, i: nat)
    requires n in w.heap
  {
    i < |w.heap[n].fields| && w.heap[n].fields[i].slot.Holds? && Container(w, w.heap[n].fields[i].slot.value)
  }

  function Child(w: World, n: Id, i: nat): (m: Id)
    requires n in w.heap && HasChild(w, n, i)
    ensures m in w.heap
  {
    w.heap[n].fields[i].slot.value.id
  }

  lemma {:induction false} FieldInList(w: World, isArray: bool, fields: seq<Field>, levels: nat, i: nat)
    requires TidyFields(w, isArray, fields, levels) && i < |fields|
    ensures TidyField(w, isArray, fields[i], levels) && UnderField(w, fields[i], levels) <= UnderFields(w, fields, levels)
    decreases |fields|
  {
    hide TidyField, UnderField;
    if i > 0 {
      FieldInList(w, isArray, fields[1..], levels, i - 1);
    }
  }

  lemma {:induction false} FieldsApart(w: World, isArray: bool, fields: seq<Field>, levels: nat, i: nat, j: nat)
    requires TidyFields(w, isArray, fields, levels) && i < j < |fields|
    ensures UnderField(w, fields[i], levels) !! UnderField(w, fields[j], levels)
    decreases |fields|
  {
    hide TidyField, UnderField;
    if i > 0 {
      FieldsApart(w, isArray, fields[1..], levels, i - 1, j - 1);
    } else {
      FieldInList(w, isArray, fields[1..], levels, j - 1);
    }
  }

  lemma TidyChild(w: World, n: Id, levels: nat, i: nat)
    requires n in w.heap && Tidy(w, n, levels) && HasChild(w, n, i)
    ensures levels > 0 && Tidy(w, Child(w, n, i), levels - 1)
    ensures Under(w, Child(w, n, i), levels - 1) <= Under(w, n, levels) && n !in Under(w, Child(w, n, i), levels - 1)
  {
    FieldInList(w, w.heap[n].isArray, w.heap[n].fields, levels, i);
  }

  lemma TidyNode(w: World, n: Id, levels: nat)
    requires n in w.heap && Tidy(w, n, levels)
    ensures NoSecrets(w, n) && Readable(w, n)
  {
    forall i | 0 <= i < |w.heap[n].fields|
      ensures w.heap[n].fields[i].slot.Holds? && (w.heap[n].isArray || !w.secret(w.heap[n].fields[i].key))
    {
      FieldInList(w, w.heap[n].isArray, w.heap[n].fields, levels, i);
    }
  }

  /** Every path in a tidy tree stays in it, and leads to a clean and readable container. */
  lemma {:induction false} PathInTidy(w: World, n: Id, levels: nat, path: seq<nat>)
    requires n in w.heap && Tidy(w, n, levels) && Follow(w, n, path).Some?
    ensures |path| <= levels && Follow(w, n, path).value in Under(w, n, levels)
    ensures NoSecrets(w, Follow(w, n, path).value) && Readable(w, Follow(w, n, path).value)
    decreases |path|
  {
    hide Tidy, NoSecrets, Readable;
    if path == [] {
      TidyNode(w, n, levels);
    } else {
      assert HasChild(w, n, path[0]);
      TidyChild(w, n, levels, path[0]);
      PathInTidy(w, Child(w, n, path[0]), levels - 1, path[1..]);
    }
  }

  lemma {:induction false} OnePath(w: World, n: Id, levels: nat, p: seq<nat>, q: seq<nat>)
    requires n in w.heap && Tidy(w, n, levels) && Follow(w, n, p).Some? && Follow(w, n, p) == Follow(w, n, q)
    ensures p == q
    decreases |p|
  {
    hide Tidy, NoSecrets, Readable, Under;
    if p == [] || q == [] {
      if p != [] {
        NeverBack(w, n, levels, p);
      }
      if q != [] {
        NeverBack(w, n, levels, q);
      }
    } else {
      TidyChild(w, n, levels, p[0]);
      TidyChild(w, n, levels, q[0]);
      PathInTidy(w, Child(w, n, p[0]), levels - 1, p[1..]);
      PathInTidy(w, Child(w, n, q[0]), levels - 1, q[1..]);
      if p[0] != q[0] {
        ChildrenApart(w, n, levels, p[0], q[0]);
      }
      OnePath(w, Child(w, n, p[0]), levels - 1, p[1..], q[1..]);
    }
  }

  lemma NeverBack(w: World, n: Id, levels: nat, path: seq<nat>)
    requires n in w.heap && Tidy(w, n, levels) && path != []
    ensures Follow(w, n, path) != Some(n)
  {
    hide Tidy, NoSecrets, Readable, Under;
    if Follow(w, n, path).Some? {
      TidyChild(w, n, levels, path[0]);
      PathInTidy(w, Child(w, n, path[0]), levels - 1, path[1..]);
    }
  }

  lemma ChildrenApart(w: World, n: Id, levels: nat, i: nat, j: nat)
    requires n in w.heap && levels > 0 && Tidy(w, n, levels) && HasChild(w, n, i) && HasChild(w, n, j) && i != j
    ensures Under(w, Child(w, n, i), levels - 1) !! Under(w, Child(w, n, j), levels - 1)
  {
    if i < j {
      FieldsApart(w, w.heap[n].isArray, w.heap[n].fields, levels, i, j);
    } else {
      FieldsApart(w, w.heap[n].isArray, w.heap[n].fields, levels, j, i);
    }
  }

  /** Whatever is under a container lies at the end of a path. */
  lemma {:induction false} PathTo(w: World, n: Id, levels: nat, m: Id) returns (path: seq<nat>)
    requires n in w.heap && m in Under(w, n, levels)
    ensures Follow(w, n, path) == Some(m)
    decreases levels
  {
    if m == n {
      path := [];
    } else {
      var i := PlaceOf(w, w.heap[n].fields, levels, m);
      var rest := PathTo(w, Child(w, n, i), levels - 1, m);
      path := [i] + rest;
    }
  }

  lemma {:induction false} PlaceOf(w: World, fields: seq<Field>, levels: nat, m: Id) returns (i: nat)
    requires m in UnderFields(w, fields, levels)
    ensures i < |fields| && m in UnderField(w, fields[i], levels)
    decreases |fields|
  {
    if m in UnderField(w, fields[0], levels) {
      i := 0;
    } else {
      var j := PlaceOf(w, fields[1..], levels, m);
      i := j + 1;
    }
  }

  ghost predicate TidyByPaths(w: World, n: Id, levels: int)
    requires n in w.heap
  {
    CleanFrom(w, n) && ReadableFrom(w, n) && TreeFrom(w, n, levels)
  }

  lemma FollowChild(w: World, n: Id, i: nat, path: seq<nat>)
    requires n in w.heap && HasChild(w, n, i)
    ensures Follow(w, n, [i] + path) == Follow(w, Child(w, n, i), path)
  {
    assert ([i] + path)[1..] == path;
  }

  lemma ChildByPaths(w: World, n: Id, levels: int, i: nat)
    requires n in w.heap && TidyByPaths(w, n, levels) && HasChild(w, n, i)
    ensures levels > 0 && TidyByPaths(w, Child(w, n, i), levels - 1)
  {
    hide Follow, NoSecrets, Readable, HasChild, Child;
    var m := Child(w, n, i);
    forall path
      ensures Follow(w, m, path) == Follow(w, n, [i] + path)
    {
      FollowChild(w, n, i, path);
    }
    forall p, q | Follow(w, m, p).Some? && Follow(w, m, p) == Follow(w, m, q)
      ensures p == q
    {
      assert [i] + p == [i] + q;
      assert p == ([i] + p)[1..] && q == ([i] + q)[1..];
    }
    StartsAt(w, n, i);
    assert |[i]| <= levels;
  }

  lemma StartsAt(w: World, n: Id, i: nat)
    requires n in w.heap && HasChild(w, n, i)
    ensures Follow(w, n, [i]).Some?
  {
    FollowChild(w, n, i, []);
  }

  /** A path through one of the fields from `k` on. */
  lemma PathVia(w: World, n: Id, levels: nat, k: nat, x: Id) returns (path: seq<nat>)
    requires n in w.heap && k <= |w.heap[n].fields| && x in UnderFields(w, w.heap[n].fields[k..], levels)
    ensures path != [] && path[0] >= k && Follow(w, n, path) == Some(x)
  {
    var j := PlaceOf(w, w.heap[n].fields[k..], levels, x);
    path := PathThrough(w, n, levels, k + j, x);
  }

  lemma PathThrough(w: World, n: Id, levels: nat, i: nat, x: Id) returns (path: seq<nat>)
    requires n in w.heap && i < |w.heap[n].fields| && x in UnderField(w, w.heap[n].fields[i], levels)
    ensures path != [] && path[0] == i && Follow(w, n, path) == Some(x)
  {
    var rest := PathTo(w, Child(w, n, i), levels - 1, x);
    FollowChild(w, n, i, rest);
    path := [i] + rest;
  }

  lemma SamePath(w: World, n: Id, levels: nat, p: seq<nat>, q: seq<nat>)
    requires n in w.heap && TreeFrom(w, n, levels) && Follow(w, n, p).Some? && Follow(w, n, p) == Follow(w, n, q)
    ensures p == q
  {
  }

  lemma FieldsApartByPaths(w: World, n: Id, levels: nat, k: nat)
    requires n in w.heap && TreeFrom(w, n, levels) && k < |w.heap[n].fields|
    ensures UnderField(w, w.heap[n].fields[k], levels) !! UnderFields(w, w.heap[n].fields[k + 1..], levels)
  {
    hide Follow, TreeFrom, UnderField, UnderFields;
    var here, later := UnderField(w, w.heap[n].fields[k], levels), UnderFields(w, w.heap[n].fields[k + 1..], levels);
    if exists x :: x in here && x in later {
      var x :| x in here && x in later;
      var p := PathThrough(w, n, levels, k, x);
      var q := PathVia(w, n, levels, k + 1, x);
      SamePath(w, n, levels, p, q);
    }
  }

  lemma {:induction false} TidyFieldsByPaths(w: World, n: Id, levels: nat, k: nat)
    requires n in w.heap && TidyByPaths(w, n, levels) && k <= |w.heap[n].fields|
    ensures TidyFields(w, w.heap[n].isArray, w.heap[n].fields[k..], levels)
    decreases levels, 0, |w.heap[n].fields| - k
  {
    hide Follow, Tidy, Under, TreeFrom, CleanFrom, ReadableFrom;
    if k == |w.heap[n].fields| {
      assert w.heap[n].fields[k..] == [];
    } else {
      CleanHere(w, n, levels);
      if HasChild(w, n, k) {
        ChildByPaths(w, n, levels, k);
        TidyOfPaths(w, Child(w, n, k), levels - 1);
      }
      FieldsApartByPaths(w, n, levels, k);
      TidyFieldsByPaths(w, n, levels, k + 1);
      var rest := w.heap[n].fields[k..];
      assert rest[0] == w.heap[n].fields[k] && rest[1..] == w.heap[n].fields[k + 1..];
    }
  }

  lemma CleanHere(w: World, n: Id, levels: nat)
    requires n in w.heap && TidyByPaths(w, n, levels)
    ensures NoSecrets(w, n) && Readable(w, n)
  {
    assert Follow(w, n, []) == Some(n);
  }

  lemma {:induction false} TidyOfPaths(w: World, n: Id, levels: nat)
    requires n in w.heap && TidyByPaths(w, n, levels)
    ensures Tidy(w, n, levels)
    decreases levels, 1, 0
  {
    hide TidyFields, UnderFields, TreeFrom, CleanFrom, ReadableFrom;
    TidyFieldsByPaths(w, n, levels, 0);
    assert w.heap[n].fields[0..] == w.heap[n].fields;
    if n in UnderFields(w, w.heap[n].fields, levels) {
      var p := PathVia(w, n, levels, 0, n);
      SamePath(w, n, levels, p, []);
    }
  }

  lemma PathsOfTidy(w: World, n: Id, levels: nat)
    requires n in w.heap && Tidy(w, n, levels)
    ensures TidyByPaths(w, n, levels)
  {
    hide Tidy, Follow, NoSecrets, Readable;
    forall path | Follow(w, n, path).Some?
      ensures |path| <= levels && NoSecrets(w, Follow(w, n, path).value) && Readable(w, Follow(w, n, path).value)
    {
      PathInTidy(w, n, levels, path);
    }
    forall p, q | Follow(w, n, p).Some? && Follow(w, n, p) == Follow(w, n, q)
      ensures p == q
    {
      OnePath(w, n, levels, p, q);
    }
  }

  /**
   * The value itself comes back exactly when what it leads to through plain containers is a tree, no deeper than the cap,
   * with no secret-named and no unreadable field; or when it is no plain object to start with.
   */
  lemma SameExactlyWhenTidy(w: World, v: Value)
    ensures ScrubSecretFields(w, v) == Same(v) <==>
            (Container(w, v) && !w.heap[v.id].isArray ==> CleanFrom(w, v.id) && ReadableFrom(w, v.id) && TreeFrom(w, v.id, 12))
  {
    hide TreeFrom, CleanFrom, ReadableFrom, Tidy, Walk, Under;
    if Container(w, v) && !w.heap[v.id].isArray {
      WalkSame(w, v.id, 0, {});
      if Tidy(w, v.id, MAX_DEPTH) {
        PathsOfTidy(w, v.id, MAX_DEPTH);
      }
      if TidyByPaths(w, v.id, MAX_DEPTH) {
        TidyOfPaths(w, v.id, MAX_DEPTH);
      }
    }
  }

  // ---- what is kept -------------------------------------------------------

  /** `out` stands for `v`: itself, a copy field by field, or the marker of a container met before. */
  ghost predicate Mirrors(w: World, v: Value, out: Out, depth: nat)
    decreases out, 1
  {
    match out
    case Same(u) => u == v
    case Copy(isArray, outs) =>
      && Container(w, v) && isArray == w.heap[v.id].isArray && |outs| == |w.heap[v.id].fields|
      && forall i :: 0 <= i < |outs| ==>
           outs[i].key == w.heap[v.id].fields[i].key && MirrorsField(w, isArray, w.heap[v.id].fields[i], outs[i].out, depth)
    case Marked(m) => m == Circular && Container(w, v)
  }

  /** When each marker stands, and otherwise the field's own value does. */
  ghost predicate MirrorsField(w: World, isArray: bool, f: Field, out: Out, depth: nat)
    decreases out, 2
  {
    var shown := f.slot.Holds? && (isArray || !w.secret(f.key));
    var cut := shown && Container(w, f.slot.value) && depth == MAX_DEPTH;
    && (out == Marked(Unreadable) <==> f.slot.Throws?)
    && (out == Marked(Redacted) <==> f.slot.Holds? && !shown)
    && (out == Marked(TooDeep) <==> cut)
    && (shown && !cut ==> Mirrors(w, f.slot.value, out, depth + 1))
  }

  /** Nothing is lost, reordered or altered but where a marker says so, and each marker stands where its reason holds. */
  lemma {:induction false} WalkMirrors(w: World, n: Id, depth: nat, seen: set<Id>)
    requires n in w.heap && depth <= MAX_DEPTH
    ensures Mirrors(w, Ref(n), Walk(w, n, depth, seen).out, depth)
    decreases MAX_DEPTH - depth, 1, 0
  {
    hide WalkFields, MirrorsField;
    if n !in seen {
      WalkFieldsMirror(w, w.heap[n].isArray, w.heap[n].fields, depth, seen + {n});
    }
  }

  lemma {:induction false} WalkFieldsMirror(w: World, isArray: bool, fields: seq<Field>, depth: nat, seen: set<Id>)
    requires depth <= MAX_DEPTH
    ensures var outs := WalkFields(w, isArray, fields, depth, seen).outs;
            && |outs| == |fields|
            && forall i :: 0 <= i < |fields| ==> outs[i].key == fields[i].key && MirrorsField(w, isArray, fields[i], outs[i].out, depth)
    decreases MAX_DEPTH - depth, 0, |fields|
  {
    hide Walk, Mirrors;
    if fields != [] {
      var f := fields[0];
      var first := WalkField(w, isArray, f, depth, seen);
      if f.slot.Holds? && Container(w, f.slot.value) && depth < MAX_DEPTH {
        WalkMirrors(w, f.slot.value.id, depth + 1, seen);
        WalkNeverRedacted(w, f.slot.value.id, depth + 1, seen);
      }
      if f.slot.Holds? {
        LeafMirrors(w, f, depth);
      }
      WalkFieldsMirror(w, isArray, fields[1..], depth, first.seen);
    }
  }

  lemma LeafMirrors(w: World, f: Field, depth: nat)
    requires f.slot.Holds?
    ensures Mirrors(w, f.slot.value, Same(f.slot.value), depth + 1)
  {
  }

  lemma WalkNeverRedacted(w: World, n: Id, depth: nat, seen: set<Id>)
    requires n in w.heap && depth <= MAX_DEPTH
    ensures Walk(w, n, depth, seen).out.Marked? ==> Walk(w, n, depth, seen).out == Marked(Circular)
  {
  }

  lemma ScrubMirrors(w: World, v: Value)
    ensures Mirrors(w, v, ScrubSecretFields(w, v), 0) && !ScrubSecretFields(w, v).Marked?
  {
    if Container(w, v) && !w.heap[v.id].isArray {
      WalkMirrors(w, v.id, 0, {});
    }
  }

  // ---- the walk as the source runs it -------------------------------------

  class Scrubber {
    const w: World
    var seen: set<Id>

    constructor (w: World)
      ensures this.w == w && seen == {}
    {
      this.w := w;
      seen := {};
    }

    method WalkNode(n: Id, depth: nat) returns (out: Out)
      requires n in w.heap && depth <= MAX_DEPTH
      modifies this
      ensures Walked(out, seen) == Walk(w, n, depth, old(seen))
      decreases MAX_DEPTH - depth, 1
    {
      hide Walk, WalkFields, WalkField;
      WalkUnfolds(w, n, depth, seen);
      if n in seen {
        return Marked(Circular);
      }
      seen := seen + {n};
      var isArray, fields := w.heap[n].isArray, w.heap[n].fields;
      var outs: seq<OutField>, changed := [], false;
      ghost var all := WalkFields(w, isArray, fields, depth, seen);
      var i := 0;
      assert fields[0..] == fields;
      while i < |fields|
        invariant i <= |fields|
        invariant all == Onto(outs, changed, WalkFields(w, isArray, fields[i..], depth, seen))
      {
        FieldsUnfold(w, isArray, fields, i, depth, seen, outs, changed);
        var value := WalkSlot(isArray, fields[i], depth);
        if Changes(fields[i], value) {
          changed := true;
        }
        outs := outs + [OutField(fields[i].key, value)];
        i := i + 1;
      }
      AllWalked(w, isArray, fields, depth, seen, outs, changed);
      return if changed then Copy(isArray, outs) else Same(Ref(n));
    }

    /** What is put in the place of one field. */
    method WalkSlot(isArray: bool, f: Field, depth: nat) returns (value: Out)
      requires depth <= MAX_DEPTH
      modifies this
      ensures Walked(value, seen) == WalkField(w, isArray, f, depth, old(seen))
      decreases MAX_DEPTH - depth, 0
    {
      hide Walk;
      if f.slot.Throws? {
        return Marked(Unreadable);
      }
      if !isArray && w.secret(f.key) {
        return Marked(Redacted);
      }
      if Container(w, f.slot.value) {
        if depth >= MAX_DEPTH {
          return Marked(TooDeep);
        }
        value := WalkNode(f.slot.value.id, depth + 1);
      } else {
        value := Same(f.slot.value);
      }
    }
  }

  /** What is walked already, before the rest. */
  ghost function Onto(outs: seq<OutField>, changed: bool, rest: WalkedFields): WalkedFields {
    WalkedFields(outs + rest.outs, changed || rest.changed, rest.seen)
  }

  lemma FieldsUnfold(w: World, isArray: bool, fields: seq<Field>, i: nat, depth: nat, seen: set<Id>, outs: seq<OutField>, changed: bool)
    requires depth <= MAX_DEPTH && i < |fields|
    ensures var first := WalkField(w, isArray, fields[i], depth, seen);
            Onto(outs, changed, WalkFields(w, isArray, fields[i..], depth, seen)) ==
            Onto(outs + [OutField(fields[i].key, first.out)], changed || Changes(fields[i], first.out),
                 WalkFields(w, isArray, fields[i + 1..], depth, first.seen))
  {
    hide WalkField;
    assert fields[i..][0] == fields[i] && fields[i..][1..] == fields[i + 1..];
  }

  lemma AllWalked(w: World, isArray: bool, fields: seq<Field>, depth: nat, seen: set<Id>, outs: seq<OutField>, changed: bool)
    requires depth <= MAX_DEPTH
    ensures Onto(outs, changed, WalkFields(w, isArray, fields[|fields|..], depth, seen)) == WalkedFields(outs, changed, seen)
  {
  }

  lemma WalkUnfolds(w: World, n: Id, depth: nat, seen: set<Id>)
    requires n in w.heap && depth <= MAX_DEPTH
    ensures n in seen ==> Walk(w, n, depth, seen) == Walked(Marked(Circular), seen)
    ensures n !in seen ==>
              var r := WalkFields(w, w.heap[n].isArray, w.heap[n].fields, depth, seen + {n});
              Walk(w, n, depth, seen) == Walked(if r.changed then Copy(w.heap[n].isArray, r.outs) else Same(Ref(n)), r.seen)
  {
  }

  method Scrub(w: World, v: Value) returns (out: Out)
    ensures out == ScrubSecretFields(w, v)
  {
    if Container(w, v) && !w.heap[v.id].isArray {
      var scrubber := new Scrubber(w);
      out := scrubber.WalkNode(v.id, 0);
    } else {
      out := Same(v);
    }
  }
}
