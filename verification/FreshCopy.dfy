/** Laying a tree out in the heap the way code that builds it afresh does: a new object for every container. */
module FreshCopies {
  import opened Json
  import opened JsHeap

  datatype Copy = Copy(heap: Heap, value: Value, next: nat)
  datatype Copies = Copies(heap: Heap, values: seq<Value>, next: nat)

  /** Copy `j` into objects numbered from `n` on. */
  function FreshCopy(j: Json, n: nat): Copy
    decreases j, |TreeChildren(j)| + 1
  {
    match j
    case JNull => Copy(map[], Null, n)
    case JBool(b) => Copy(map[], Bool(b), n)
    case JNumber(t) => Copy(map[], Num(t), n)
    case JString(s) => Copy(map[], Str(s), n)
    case JArray(items) =>
      var c := CopyChildren(j, |items|, n + 1);
      Copy(c.heap[n := Arr(c.values)], Ref(n), c.next)
    case JObject(entries) =>
      var c := CopyChildren(j, |entries|, n + 1);
      Copy(c.heap[n := Rec(seq(|entries|, i requires 0 <= i < |entries| => Field(entries[i].key, c.values[i])))], Ref(n), c.next)
  }

  function CopyChildren(j: Json, k: nat, n: nat): (c: Copies)
    requires k <= |TreeChildren(j)|
    ensures |c.values| == k
    decreases j, k
  {
    if k == 0 then Copies(map[], [], n)
    else
      var before := CopyChildren(j, k - 1, n);
      ChildIsSmaller(j, k - 1);
      var last := FreshCopy(TreeChildren(j)[k - 1], before.next);
      Copies(before.heap + last.heap, before.values + [last.value], last.next)
  }

  lemma ChildIsSmaller(j: Json, i: nat)
    requires i < |TreeChildren(j)|
    ensures TreeChildren(j)[i] < j
  {
    match j
    case JArray(items) => assert items[i] in items;
    case JObject(entries) => assert entries[i] in entries;
  }

  /** Object `a` refers to object `o` at its `i`-th child. */
  ghost predicate Slot(h: Heap, a: nat, i: nat, o: nat) {
    a in h && i < |Children(h[a])| && Children(h[a])[i] == Ref(o)
  }

  /** No object is referred to from two places. */
  ghost predicate Unshared(h: Heap) {
    forall a, i, b, k, o :: Slot(h, a, i, o) && Slot(h, b, k, o) ==> a == b && i == k
  }

  ghost predicate Untargeted(h: Heap, v: Value) {
    v.Ref? ==> forall a, i :: !Slot(h, a, i, v.id)
  }

  ghost predicate Within(h: Heap, n: nat, m: nat) { forall a :: a in h ==> n <= a < m }

  /** If no object is referred to twice and the root not at all, every object is reached by one path. */
  lemma UnsharedIsSinglePath(h: Heap, root: Value)
    requires Unshared(h) && Untargeted(h, root)
    ensures SinglePath(h, root)
  {
    forall p, q, o | Reaches(h, root, p, o) && Reaches(h, root, q, o) ensures p == q {
      OnePath(h, root, p, q, o);
    }
  }

  lemma {:induction false} OnePath(h: Heap, root: Value, p: Path, q: Path, o: nat)
    requires Unshared(h) && Untargeted(h, root)
    requires Reaches(h, root, p, o) && Reaches(h, root, q, o)
    ensures p == q
    decreases |p|
  {
    if p != [] && q != [] {
      var m, n := |p| - 1, |q| - 1;
      var a, b := Walk(h, root, p[..m]).value.id, Walk(h, root, q[..n]).value.id;
      assert Slot(h, a, p[m], o) && Slot(h, b, q[n], o);
      OnePath(h, root, p[..m], q[..n], a);
      assert p == p[..m] + [p[m]] && q == q[..n] + [q[n]];
    } else if p != [] {
      assert Slot(h, Walk(h, root, p[..|p| - 1]).value.id, p[|p| - 1], o);
    } else if q != [] {
      assert Slot(h, Walk(h, root, q[..|q| - 1]).value.id, q[|q| - 1], o);
    }
  }

  /** A copy of a tree stays one when the heap grows. */
  lemma {:induction false} RepresentsMore(h: Heap, more: Heap, v: Value, j: Json)
    requires Represents(h, v, j)
    requires forall a :: a in h ==> a in more && more[a] == h[a]
    ensures Represents(more, v, j)
    decreases j
  {
    match j
    case JArray(items) =>
      forall i | 0 <= i < |items| ensures Represents(more, more[v.id].items[i], items[i]) {
        RepresentsMore(h, more, h[v.id].items[i], items[i]);
      }
    case JObject(entries) =>
      forall i | 0 <= i < |entries| ensures Represents(more, more[v.id].fields[i].value, entries[i].value) {
        RepresentsMore(h, more, h[v.id].fields[i].value, entries[i].value);
      }
    case _ =>
  }

  ghost predicate CopyOk(h: Heap, n: nat, m: nat) { n <= m && Within(h, n, m) && Closed(h) && Unshared(h) }

  ghost predicate RootsOk(h: Heap, values: seq<Value>) {
    && (forall i :: 0 <= i < |values| ==> InHeap(h, values[i]) && Untargeted(h, values[i]))
    && forall i, k :: 0 <= i < k < |values| && values[i].Ref? ==> values[i] != values[k]
  }

  /** Two copies side by side, in disjoint ranges, do not refer to one another. */
  lemma SideBySide(a: Heap, b: Heap, n: nat, m: nat, l: nat, values: seq<Value>, v: Value)
    requires CopyOk(a, n, m) && CopyOk(b, m, l) && RootsOk(a, values) && InHeap(b, v) && Untargeted(b, v)
    ensures CopyOk(a + b, n, l) && RootsOk(a + b, values + [v])
  {
    var h := a + b;
    assert forall x: nat, i: nat, o: nat :: Slot(a, x, i, o) ==> o in a by {
      forall x: nat, i: nat, o: nat | Slot(a, x, i, o) ensures o in a { assert InHeap(a, Children(a[x])[i]); }
    }
    assert forall x: nat, i: nat, o: nat :: Slot(b, x, i, o) ==> o in b by {
      forall x: nat, i: nat, o: nat | Slot(b, x, i, o) ensures o in b { assert InHeap(b, Children(b[x])[i]); }
    }
    assert forall x: nat, i: nat, o: nat :: Slot(h, x, i, o) ==> if x in b then Slot(b, x, i, o) else Slot(a, x, i, o);
  }

  /** A new object over copies side by side. */
  lemma OnTop(h: Heap, n: nat, m: nat, top: Object)
    requires CopyOk(h, n + 1, m) && RootsOk(h, Children(top))
    ensures CopyOk(h[n := top], n, m) && Untargeted(h[n := top], Ref(n))
  {
    var more := h[n := top];
    forall x: nat, i: nat, o: nat | Slot(more, x, i, o) ensures o in h && (x != n ==> Slot(h, x, i, o)) {
      if x == n { assert InHeap(h, Children(top)[i]); } else { assert InHeap(h, Children(h[x])[i]); }
    }
    forall x | x in more ensures forall i :: 0 <= i < |Children(more[x])| ==> InHeap(more, Children(more[x])[i]) {
      if x != n { assert forall i :: 0 <= i < |Children(h[x])| ==> InHeap(h, Children(h[x])[i]); }
    }
  }

  /** A fresh copy copies the tree, shares nothing, and refers to nothing else. */
  lemma {:induction false} FreshCopyMeaning(j: Json, n: nat)
    ensures var c := FreshCopy(j, n);
            && CopyOk(c.heap, n, c.next) && InHeap(c.heap, c.value) && Untargeted(c.heap, c.value)
            && Represents(c.heap, c.value, j)
    decreases j, |TreeChildren(j)| + 1
  {
    if j.JArray? || j.JObject? {
      var k := |TreeChildren(j)|;
      CopyChildrenMeaning(j, k, n + 1);
      var c := CopyChildren(j, k, n + 1);
      var h := FreshCopy(j, n).heap;
      assert Children(h[n]) == c.values;
      OnTop(c.heap, n, c.next, h[n]);
      forall i | 0 <= i < k ensures Represents(h, c.values[i], TreeChildren(j)[i]) {
        RepresentsMore(c.heap, h, c.values[i], TreeChildren(j)[i]);
      }
    }
  }

  lemma {:induction false} CopyChildrenMeaning(j: Json, k: nat, n: nat)
    requires k <= |TreeChildren(j)|
    ensures var c := CopyChildren(j, k, n);
            && CopyOk(c.heap, n, c.next) && RootsOk(c.heap, c.values)
            && forall i :: 0 <= i < k ==> Represents(c.heap, c.values[i], TreeChildren(j)[i])
    decreases j, k
  {
    if k > 0 {
      CopyChildrenMeaning(j, k - 1, n);
      var before := CopyChildren(j, k - 1, n);
      ChildIsSmaller(j, k - 1);
      FreshCopyMeaning(TreeChildren(j)[k - 1], before.next);
      var last := FreshCopy(TreeChildren(j)[k - 1], before.next);
      SideBySide(before.heap, last.heap, n, before.next, last.next, before.values, last.value);
      BothRepresent(before.heap, last.heap, before.values, last.value, TreeChildren(j)[..k]);
    }
  }

  lemma BothRepresent(a: Heap, b: Heap, values: seq<Value>, v: Value, trees: seq<Json>)
    requires a.Keys !! b.Keys && |trees| == |values| + 1 && Represents(b, v, trees[|values|])
    requires forall i :: 0 <= i < |values| ==> Represents(a, values[i], trees[i])
    ensures forall i :: 0 <= i < |trees| ==> Represents(a + b, (values + [v])[i], trees[i])
  {
    forall i | 0 <= i < |trees| ensures Represents(a + b, (values + [v])[i], trees[i]) {
      if i < |values| {
        RepresentsMore(a, a + b, values[i], trees[i]);
      } else {
        RepresentsMore(b, a + b, v, trees[i]);
      }
    }
  }
}
