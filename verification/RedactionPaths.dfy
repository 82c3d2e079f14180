/** log-redaction.ts: where the marker of a container met before stands, by the paths that lead to the container. */
module RedactionPaths {
  import opened Wrappers
  import opened LogRedaction

  /** What stands at the end of a path of field places in a result. */
  function OutAt(out: Out, path: seq<nat>): Option<Out>
    decreases |path|
  {
    if path == [] then Some(out)
    else if out.Copy? && path[0] < |out.fields| then OutAt(out.fields[path[0]].out, path[1..])
    else None
  }

  /** The order the walk goes in: a container before what is in it, one field before the next. */
  predicate Earlier(q: seq<nat>, p: seq<nat>)
    decreases |p|
  {
    p != [] && (q == [] || q[0] < p[0] || (q[0] == p[0] && Earlier(q[1..], p[1..])))
  }

  lemma {:induction false} NeverBeforeItself(p: seq<nat>)
    ensures !Earlier(p, p)
    decreases |p|
  {
    if p != [] {
      NeverBeforeItself(p[1..]);
    }
  }

  ghost predicate Reaches(w: World, n: Id, m: Id)
    requires n in w.heap
  {
    exists path :: Follow(w, n, path) == Some(m)
  }

  /** The container in a field leads to `m`. */
  ghost predicate FieldReaches(w: World, f: Field, m: Id) {
    f.slot.Holds? && Container(w, f.slot.value) && Reaches(w, f.slot.value.id, m)
  }

  lemma ReachesThrough(w: World, n: Id, i: nat, m: Id)
    requires n in w.heap && i < |w.heap[n].fields| && FieldReaches(w, w.heap[n].fields[i], m)
    ensures Reaches(w, n, m)
  {
    var path :| Follow(w, Child(w, n, i), path) == Some(m);
    FollowChild(w, n, i, path);
  }

  // ---- what the walk has met ----------------------------------------------

  /** Whatever a walk meets lies under the container it walks. */
  lemma {:induction false} WalkMeets(w: World, n: Id, depth: nat, seen: set<Id>, m: Id)
    requires n in w.heap && depth <= MAX_DEPTH && m in Walk(w, n, depth, seen).seen
    ensures m in seen || Reaches(w, n, m)
    decreases MAX_DEPTH - depth, 1, 0
  {
    hide WalkFields, FieldReaches;
    if n !in seen {
      if m == n {
        assert Follow(w, n, []) == Some(n);
      } else {
        var i := FieldsMeet(w, w.heap[n].isArray, w.heap[n].fields, depth, seen + {n}, m);
        if i < |w.heap[n].fields| {
          ReachesThrough(w, n, i, m);
        }
      }
    }
  }

  /** The field it was met in, or none when it was met before. */
  lemma {:induction false} FieldsMeet(w: World, isArray: bool, fields: seq<Field>, depth: nat, seen: set<Id>, m: Id) returns (i: nat)
    requires depth <= MAX_DEPTH && m in WalkFields(w, isArray, fields, depth, seen).seen
    ensures i <= |fields| && (i == |fields| ==> m in seen) && (i < |fields| ==> FieldReaches(w, fields[i], m))
    decreases MAX_DEPTH - depth, 0, |fields|
  {
    hide Walk, WalkField, FieldReaches;
    if fields == [] || m in seen {
      i := |fields|;
    } else {
      var first := WalkField(w, isArray, fields[0], depth, seen);
      var j := FieldsMeet(w, isArray, fields[1..], depth, first.seen, m);
      if j < |fields[1..]| {
        i := j + 1;
      } else {
        FieldMeets(w, isArray, fields[0], depth, seen, m);
        i := 0;
      }
    }
  }

  lemma {:induction false} FieldMeets(w: World, isArray: bool, f: Field, depth: nat, seen: set<Id>, m: Id)
    requires depth <= MAX_DEPTH && m in WalkField(w, isArray, f, depth, seen).seen
    ensures m in seen || FieldReaches(w, f, m)
    decreases MAX_DEPTH - depth, 0, 0
  {
    hide Walk, Reaches;
    if f.slot.Holds? && Container(w, f.slot.value) && depth < MAX_DEPTH && (isArray || !w.secret(f.key)) {
      WalkMeets(w, f.slot.value.id, depth + 1, seen, m);
    }
  }

  /** What stands for one field is what its walk gives, after everything the fields before it led to was met. */
  lemma {:induction false} FieldWalked(w: World, isArray: bool, fields: seq<Field>, depth: nat, seen: set<Id>, i: nat) returns (before: set<Id>)
    requires depth <= MAX_DEPTH && i < |fields|
    ensures var outs := WalkFields(w, isArray, fields, depth, seen).outs;
            i < |outs| && outs[i].out == WalkField(w, isArray, fields[i], depth, before).out
    ensures forall m :: m in before ==> m in seen || exists j :: 0 <= j < i && FieldReaches(w, fields[j], m)
    decreases |fields|
  {
    hide WalkField, FieldReaches;
    if i == 0 {
      before := seen;
    } else {
      var first := WalkField(w, isArray, fields[0], depth, seen);
      before := FieldWalked(w, isArray, fields[1..], depth, first.seen, i - 1);
      forall m | m in before && m !in seen
        ensures exists j :: 0 <= j < i && FieldReaches(w, fields[j], m)
      {
        if m in first.seen {
          FieldMeets(w, isArray, fields[0], depth, seen, m);
          assert FieldReaches(w, fields[0], m);
        } else {
          var j :| 0 <= j < i - 1 && FieldReaches(w, fields[1..][j], m);
          assert fields[1..][j] == fields[j + 1];
        }
      }
    }
  }

  // ---- where the marker stands --------------------------------------------

  /** `m` was met before the walk began, or on a path before `p`. */
  ghost predicate Met(w: World, n: Id, seen: set<Id>, p: seq<nat>, m: Id)
    requires n in w.heap
  {
    m in seen || exists q :: Earlier(q, p) && Follow(w, n, q) == Some(m)
  }

  lemma {:induction false} CircularMeansMet(w: World, n: Id, depth: nat, seen: set<Id>, p: seq<nat>)
    requires n in w.heap && depth <= MAX_DEPTH && OutAt(Walk(w, n, depth, seen).out, p) == Some(Marked(Circular))
    ensures Follow(w, n, p).Some? && Met(w, n, seen, p, Follow(w, n, p).value)
    decreases MAX_DEPTH - depth
  {
    hide WalkFields, WalkField, Met;
    if n in seen {
      MetAtOnce(w, n, seen);
    } else {
      var isArray, fields := w.heap[n].isArray, w.heap[n].fields;
      var i := p[0];
      FieldCount(w, isArray, fields, depth, seen + {n});
      var before := FieldWalked(w, isArray, fields, depth, seen + {n}, i);
      CircularIsWalked(w, isArray, fields[i], depth, before, p[1..]);
      var child := Child(w, n, i);
      CircularMeansMet(w, child, depth + 1, before, p[1..]);
      FollowChild(w, n, i, p[1..]);
      assert [i] + p[1..] == p;
      MetInField(w, n, seen, before, i, p[1..], Follow(w, child, p[1..]).value);
    }
  }

  lemma MetAtOnce(w: World, n: Id, seen: set<Id>)
    requires n in w.heap && n in seen
    ensures Follow(w, n, []) == Some(n) && Met(w, n, seen, [], n)
  {
  }

  lemma {:induction false} FieldCount(w: World, isArray: bool, fields: seq<Field>, depth: nat, seen: set<Id>)
    requires depth <= MAX_DEPTH
    ensures |WalkFields(w, isArray, fields, depth, seen).outs| == |fields|
    decreases |fields|
  {
    hide WalkField;
    if fields != [] {
      FieldCount(w, isArray, fields[1..], depth, WalkField(w, isArray, fields[0], depth, seen).seen);
    }
  }

  /** Inside what stands for a field the marker can only come from walking the container in it. */
  lemma CircularIsWalked(w: World, isArray: bool, f: Field, depth: nat, before: set<Id>, p: seq<nat>)
    requires depth <= MAX_DEPTH && OutAt(WalkField(w, isArray, f, depth, before).out, p) == Some(Marked(Circular))
    ensures f.slot.Holds? && Container(w, f.slot.value) && depth < MAX_DEPTH
    ensures WalkField(w, isArray, f, depth, before) == Walk(w, f.slot.value.id, depth + 1, before)
  {
    hide Walk;
  }

  lemma MetInField(w: World, n: Id, seen: set<Id>, before: set<Id>, i: nat, p: seq<nat>, m: Id)
    requires n in w.heap && HasChild(w, n, i) && Met(w, Child(w, n, i), before, p, m)
    requires forall x :: x in before ==> x in seen + {n} || exists j :: 0 <= j < i && FieldReaches(w, w.heap[n].fields[j], x)
    ensures Met(w, n, seen, [i] + p, m)
  {
    hide FieldReaches, Child;
    if m in before {
      if m == n {
        assert Earlier([], [i] + p) && Follow(w, n, []) == Some(n);
      } else if m !in seen {
        var j :| 0 <= j < i && FieldReaches(w, w.heap[n].fields[j], m);
        MetBefore(w, n, j, i, p, m);
      }
    } else {
      var q :| Earlier(q, p) && Follow(w, Child(w, n, i), q) == Some(m);
      FollowChild(w, n, i, q);
      assert ([i] + q)[1..] == q && ([i] + p)[1..] == p;
      assert Earlier([i] + q, [i] + p);
    }
  }

  lemma MetBefore(w: World, n: Id, j: nat, i: nat, p: seq<nat>, m: Id)
    requires n in w.heap && j < i && j < |w.heap[n].fields| && FieldReaches(w, w.heap[n].fields[j], m)
    ensures exists q :: Earlier(q, [i] + p) && Follow(w, n, q) == Some(m)
  {
    var q :| Follow(w, Child(w, n, j), q) == Some(m);
    FollowChild(w, n, j, q);
    assert Earlier([j] + q, [i] + p);
  }

  /** A container is marked as met before only where an earlier path leads to the same one. */
  lemma CircularWasMet(w: World, v: Value, p: seq<nat>)
    requires OutAt(ScrubSecretFields(w, v), p) == Some(Marked(Circular))
    ensures Container(w, v) && Follow(w, v.id, p).Some? && exists q :: Earlier(q, p) && Follow(w, v.id, q) == Follow(w, v.id, p)
  {
    hide Walk, Earlier;
    if Container(w, v) && !w.heap[v.id].isArray {
      CircularMeansMet(w, v.id, 0, {}, p);
    }
  }

  /** Where every container is reached along one path, none is marked so. */
  lemma NoneMetTwice(w: World, v: Value, p: seq<nat>)
    requires Container(w, v) ==> forall q, r :: Follow(w, v.id, q).Some? && Follow(w, v.id, q) == Follow(w, v.id, r) ==> q == r
    ensures OutAt(ScrubSecretFields(w, v), p) != Some(Marked(Circular))
  {
    hide ScrubSecretFields;
    if OutAt(ScrubSecretFields(w, v), p) == Some(Marked(Circular)) {
      CircularWasMet(w, v, p);
      NeverBeforeItself(p);
    }
  }
}
