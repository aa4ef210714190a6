/** JavaScript values as a program sees them: scalars, and references into a heap that may share or be cyclic. */
module JsHeap {
  import opened Events
  import opened Json

  /** `Num` carries the printed text of a finite number; `Opaque` is a function, symbol, bigint or undefined. */
  datatype Value = Null | Bool(value: bool) | Str(text: string) | Num(text: string) | NotFinite | Opaque | Ref(id: nat)

  datatype Field = Field(key: string, value: Value)

  datatype Object = Arr(items: seq<Value>) | Rec(fields: seq<Field>) | Date

  type Heap = map<nat, Object>

  /** What Object.values returns. */
  function Children(o: Object): seq<Value> {
    match o
    case Arr(items) => items
    case Rec(fields) => seq(|fields|, i requires 0 <= i < |fields| => fields[i].value)
    case Date => []
  }

  ghost predicate InHeap(h: Heap, v: Value) { v.Ref? ==> v.id in h }

  /** Every reference leads to an object. */
  ghost predicate Closed(h: Heap) {
    forall o :: o in h ==> forall i :: 0 <= i < |Children(h[o])| ==> InHeap(h, Children(h[o])[i])
  }

  type Path = seq<nat>

  /** Where a path of child positions leads. */
  function Walk(h: Heap, root: Value, path: Path): Option<Value> {
    if path == [] then Some(root)
    else
      var n := |path| - 1;
      var parent := Walk(h, root, path[..n]);
      if parent.Some? && parent.value.Ref? && parent.value.id in h && path[n] < |Children(h[parent.value.id])|
      then Some(Children(h[parent.value.id])[path[n]]) else None
  }

  ghost predicate Reaches(h: Heap, root: Value, path: Path, o: nat) {
    Walk(h, root, path) == Some(Ref(o)) && o in h
  }

  /** Every object is reached by at most one path: no cycle and no sharing. */
  ghost predicate SinglePath(h: Heap, root: Value) {
    forall p, q, o :: Reaches(h, root, p, o) && Reaches(h, root, q, o) ==> p == q
  }

  /** No object at the depth limit or beyond has children. */
  ghost predicate WithinLimit(h: Heap, root: Value, maxDepth: nat, depth: nat) {
    forall p, o :: Reaches(h, root, p, o) && depth + |p| >= maxDepth ==> Children(h[o]) == []
  }

  /** The heap value is a copy of this tree (which it may share parts of). */
  ghost predicate Represents(h: Heap, v: Value, j: Json)
    decreases j
  {
    match j
    case JNull => v == Null
    case JBool(b) => v == Bool(b)
    case JNumber(t) => v == Num(t)
    case JString(s) => v == Str(s)
    case JArray(items) =>
      v.Ref? && v.id in h && h[v.id].Arr? && |h[v.id].items| == |items|
      && forall i :: 0 <= i < |items| ==> Represents(h, h[v.id].items[i], items[i])
    case JObject(entries) =>
      v.Ref? && v.id in h && h[v.id].Rec? && |h[v.id].fields| == |entries|
      && forall i :: 0 <= i < |entries| ==>
           h[v.id].fields[i].key == entries[i].key && Represents(h, h[v.id].fields[i].value, entries[i].value)
  }

  function TreeChildren(j: Json): seq<Json> {
    match j
    case JArray(items) => items
    case JObject(entries) => seq(|entries|, i requires 0 <= i < |entries| => entries[i].value)
    case _ => []
  }

  /** The recursive reading of the depth limit, on trees. */
  ghost predicate TreeWithin(j: Json, maxDepth: nat, depth: nat)
    decreases j
  {
    match j
    case JArray(items) => (depth >= maxDepth ==> items == []) && forall x :: x in items ==> TreeWithin(x, maxDepth, depth + 1)
    case JObject(entries) =>
      (depth >= maxDepth ==> entries == []) && forall e :: e in entries ==> TreeWithin(e.value, maxDepth, depth + 1)
    case _ => true
  }

  // ----- Paths -----------------------------------------------------------------------------------

  lemma WalkStep(h: Heap, root: Value, p: Path, i: nat)
    ensures Walk(h, root, p + [i])
            == var parent := Walk(h, root, p);
               if parent.Some? && parent.value.Ref? && parent.value.id in h && i < |Children(h[parent.value.id])|
               then Some(Children(h[parent.value.id])[i]) else None
  {
    assert (p + [i])[..|p|] == p;
  }

  lemma {:induction false} WalkPrefix(h: Heap, root: Value, p: Path, q: Path)
    requires p <= q && Walk(h, root, q).Some?
    ensures Walk(h, root, p).Some?
    decreases |q|
  {
    if |p| < |q| { WalkPrefix(h, root, p, q[..|q| - 1]); } else { assert p == q; }
  }

  /** Walking from a child is walking from its parent with one more step in front. */
  lemma {:induction false} WalkFromChild(h: Heap, o: nat, i: nat, p: Path)
    requires o in h && i < |Children(h[o])|
    ensures Walk(h, Ref(o), [i] + p) == Walk(h, Children(h[o])[i], p)
  {
    if p == [] {
      assert [i] + p == [] + [i];
      WalkStep(h, Ref(o), [], i);
    } else {
      var n := |p| - 1;
      WalkFromChild(h, o, i, p[..n]);
      assert [i] + p == ([i] + p[..n]) + [p[n]];
      assert p == p[..n] + [p[n]];
      WalkStep(h, Ref(o), [i] + p[..n], p[n]);
    }
  }

  /** A path that goes on from an object goes through one of its children. */
  lemma PathThroughChild(h: Heap, root: Value, p: Path, q: Path, o: nat)
    requires Reaches(h, root, p, o) && p < q && Walk(h, root, q).Some?
    ensures q[|p|] < |Children(h[o])| && p + [q[|p|]] <= q
  {
    assert q[..|p|] == p;
    WalkPrefix(h, root, q[..|p| + 1], q);
    assert q[..|p| + 1] == p + [q[|p|]];
    WalkStep(h, root, p, q[|p|]);
  }

  /** A path through a scalar goes no further. */
  lemma ScalarEndsPath(h: Heap, root: Value, p: Path, q: Path)
    requires p <= q && Walk(h, root, p).Some? && (Walk(h, root, p).value.Ref? ==> Walk(h, root, p).value.id !in h)
    requires Walk(h, root, q).Some?
    ensures p == q
  {
    if p != q {
      assert q[..|p|] == p;
      WalkPrefix(h, root, q[..|p| + 1], q);
      assert q[..|p| + 1] == p + [q[|p|]];
      WalkStep(h, root, p, q[|p|]);
    }
  }

  // ----- Depth on trees --------------------------------------------------------------------------

  lemma WithinLimitSplits(h: Heap, o: nat, maxDepth: nat, depth: nat)
    requires o in h
    ensures WithinLimit(h, Ref(o), maxDepth, depth)
            <==> (depth >= maxDepth ==> Children(h[o]) == [])
                 && forall i :: 0 <= i < |Children(h[o])| ==> WithinLimit(h, Children(h[o])[i], maxDepth, depth + 1)
  {
    var c := Children(h[o]);
    if WithinLimit(h, Ref(o), maxDepth, depth) {
      assert Reaches(h, Ref(o), [], o);
      forall i, p, x | 0 <= i < |c| && Reaches(h, c[i], p, x) && depth + 1 + |p| >= maxDepth ensures Children(h[x]) == [] {
        WalkFromChild(h, o, i, p);
        assert Reaches(h, Ref(o), [i] + p, x);
      }
    }
    if (depth >= maxDepth ==> c == []) && forall i :: 0 <= i < |c| ==> WithinLimit(h, c[i], maxDepth, depth + 1) {
      forall p, x | Reaches(h, Ref(o), p, x) && depth + |p| >= maxDepth ensures Children(h[x]) == [] {
        if p != [] {
          assert Reaches(h, Ref(o), [], o);
          PathThroughChild(h, Ref(o), [], p, o);
          assert [p[0]] + p[1..] == p;
          WalkFromChild(h, o, p[0], p[1..]);
          assert Reaches(h, c[p[0]], p[1..], x);
        }
      }
    }
  }

  lemma ScalarWithinLimit(h: Heap, v: Value, maxDepth: nat, depth: nat)
    requires !v.Ref?
    ensures WithinLimit(h, v, maxDepth, depth)
  {
    forall p, o | Reaches(h, v, p, o) ensures false {
      assert Walk(h, v, []) == Some(v);
      ScalarEndsPath(h, v, [], p);
    }
  }

  /** On a heap value that copies a tree, the path reading of the limit is the recursive one. */
  lemma {:induction false} LimitOnTrees(h: Heap, v: Value, j: Json, maxDepth: nat, depth: nat)
    requires Represents(h, v, j)
    ensures WithinLimit(h, v, maxDepth, depth) <==> TreeWithin(j, maxDepth, depth)
    decreases j
  {
    if j.JArray? || j.JObject? {
      var t := TreeChildren(j);
      forall i | 0 <= i < |t|
        ensures WithinLimit(h, Children(h[v.id])[i], maxDepth, depth + 1) <==> TreeWithin(t[i], maxDepth, depth + 1)
      {
        LimitOnTrees(h, Children(h[v.id])[i], t[i], maxDepth, depth + 1);
      }
      WithinLimitSplits(h, v.id, maxDepth, depth);
      TreeWithinSplits(j, maxDepth, depth);
    } else {
      ScalarWithinLimit(h, v, maxDepth, depth);
    }
  }

  lemma TreeWithinSplits(j: Json, maxDepth: nat, depth: nat)
    requires j.JArray? || j.JObject?
    ensures TreeWithin(j, maxDepth, depth)
            <==> (depth >= maxDepth ==> TreeChildren(j) == [])
                 && forall i :: 0 <= i < |TreeChildren(j)| ==> TreeWithin(TreeChildren(j)[i], maxDepth, depth + 1)
  {
    var t := TreeChildren(j);
    if j.JArray? {
      assert forall i :: 0 <= i < |t| ==> t[i] in j.items;
      if forall i :: 0 <= i < |t| ==> TreeWithin(t[i], maxDepth, depth + 1) {
        forall x | x in j.items ensures TreeWithin(x, maxDepth, depth + 1) {
          var i :| 0 <= i < |t| && t[i] == x;
          assert TreeWithin(t[i], maxDepth, depth + 1);
        }
      }
    } else {
      assert |t| == |j.entries|;
      assert forall i :: 0 <= i < |t| ==> j.entries[i] in j.entries && t[i] == j.entries[i].value;
      assert (forall e :: e in j.entries ==> TreeWithin(e.value, maxDepth, depth + 1))
          <==> forall i :: 0 <= i < |t| ==> TreeWithin(t[i], maxDepth, depth + 1);
    }
  }

  /** A heap value copies at most one tree. */
  lemma {:induction false} RepresentsOne(h: Heap, v: Value, a: Json, b: Json)
    requires Represents(h, v, a) && Represents(h, v, b)
    ensures a == b
    decreases a
  {
    match a
    case JArray(items) =>
      forall i | 0 <= i < |items| ensures items[i] == b.items[i] {
        RepresentsOne(h, h[v.id].items[i], items[i], b.items[i]);
      }
      assert items == b.items;
    case JObject(entries) =>
      forall i | 0 <= i < |entries| ensures entries[i] == b.entries[i] {
        RepresentsOne(h, h[v.id].fields[i].value, entries[i].value, b.entries[i].value);
      }
      assert entries == b.entries;
    case _ =>
  }
}
