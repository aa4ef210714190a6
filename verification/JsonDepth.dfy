/** The iterative depth check that every event passes, on any object graph. */
module JsonDepth {
  import opened Events
  import opened Json
  import opened JsHeap
  import opened FreshCopies

  const MAX_JSON_DEPTH: nat := 5

  datatype Pending = Pending(depth: nat, value: Value)

  ghost predicate Apart(p: Path, q: Path) { !(p <= q) && !(q <= p) }

  /** A stack entry is what its path leads to, at the path's depth. */
  ghost predicate EntryOk(h: Heap, root: Value, depth: nat, entry: Pending, path: Path) {
    Walk(h, root, path) == Some(entry.value) && entry.depth == depth + |path| && InHeap(h, entry.value)
  }

  /** The stack entries with the paths they stand for. */
  ghost predicate StackOk(h: Heap, root: Value, depth: nat, pending: seq<Pending>, paths: seq<Path>) {
    && |paths| == |pending|
    && (forall k :: 0 <= k < |paths| ==> EntryOk(h, root, depth, pending[k], paths[k]))
    && (forall j, k :: 0 <= j < k < |paths| ==> Apart(paths[j], paths[k]))
  }

  /** The visited objects with the one path each was reached by, none of them below the stack. */
  ghost predicate VisitedOk(h: Heap, root: Value, maxDepth: nat, depth: nat, at: map<nat, Path>, paths: seq<Path>) {
    && (forall o :: o in at ==> Reaches(h, root, at[o], o) && (depth + |at[o]| >= maxDepth ==> Children(h[o]) == []))
    && (forall k, o :: 0 <= k < |paths| && o in at ==> !(paths[k] <= at[o]))
  }

  /** Every path to an object has been followed to it, or runs through the stack. */
  ghost predicate Covered(h: Heap, root: Value, at: map<nat, Path>, paths: seq<Path>) {
    forall p, o :: Reaches(h, root, p, o) ==> (o in at && at[o] == p) || exists k :: 0 <= k < |paths| && paths[k] <= p
  }

  lemma PopScalar(h: Heap, root: Value, at: map<nat, Path>, paths: seq<Path>)
    requires paths != [] && Covered(h, root, at, paths)
    requires var v := Walk(h, root, paths[|paths| - 1]); v.Some? && !v.value.Ref?
    ensures Covered(h, root, at, paths[..|paths| - 1])
  {
    var n := |paths| - 1;
    forall p, o | Reaches(h, root, p, o)
      ensures (o in at && at[o] == p) || exists k :: 0 <= k < n && paths[..n][k] <= p
    {
      if !(o in at && at[o] == p) {
        var k :| 0 <= k < |paths| && paths[k] <= p;
        if k == n { ScalarEndsPath(h, root, paths[n], p); }
        assert paths[..n][k] <= p;
      }
    }
  }

  function ChildPaths(p: Path, n: nat): seq<Path> { seq(n, i => p + [i]) }

  function ChildEntries(h: Heap, o: nat, depth: nat): seq<Pending>
    requires o in h
  {
    seq(|Children(h[o])|, i requires 0 <= i < |Children(h[o])| => Pending(depth + 1, Children(h[o])[i]))
  }

  lemma ApartBelow(a: Path, p: Path, i: nat)
    requires Apart(a, p)
    ensures Apart(a, p + [i])
  {
  }

  lemma ApartSiblings(p: Path, i: nat, j: nat)
    requires i != j
    ensures Apart(p + [i], p + [j])
  {
    assert (p + [i])[|p|] == i && (p + [j])[|p|] == j;
  }

  lemma ChildrenFound(h: Heap, root: Value, p: Path, o: nat)
    requires Reaches(h, root, p, o)
    ensures var more := ChildPaths(p, |Children(h[o])|);
            forall i :: 0 <= i < |more| ==> Walk(h, root, more[i]) == Some(Children(h[o])[i])
  {
    var more := ChildPaths(p, |Children(h[o])|);
    forall i | 0 <= i < |more| ensures Walk(h, root, more[i]) == Some(Children(h[o])[i]) {
      WalkStep(h, root, p, i);
    }
  }

  lemma ExpandApart(paths: seq<Path>, n: nat)
    requires paths != [] && forall j, k :: 0 <= j < k < |paths| ==> Apart(paths[j], paths[k])
    ensures var m := |paths| - 1; var next := paths[..m] + ChildPaths(paths[m], n);
            forall j, k :: 0 <= j < k < |next| ==> Apart(next[j], next[k])
  {
    var m := |paths| - 1;
    var next := paths[..m] + ChildPaths(paths[m], n);
    forall j, k | 0 <= j < k < |next| ensures Apart(next[j], next[k]) {
      if k >= m {
        if j < m { ApartBelow(paths[j], paths[m], k - m); } else { ApartSiblings(paths[m], j - m, k - m); }
      }
    }
  }

  lemma ExpandStack(h: Heap, root: Value, depth: nat, pending: seq<Pending>, paths: seq<Path>, o: nat)
    requires Closed(h) && pending != [] && StackOk(h, root, depth, pending, paths)
    requires pending[|pending| - 1].value == Ref(o)
    ensures var n := |pending| - 1;
            && o in h
            && StackOk(h, root, depth, pending[..n] + ChildEntries(h, o, pending[n].depth),
                       paths[..n] + ChildPaths(paths[n], |Children(h[o])|))
  {
    var n := |pending| - 1;
    assert o in h by { assert InHeap(h, pending[n].value); }
    ChildrenOk(h, root, depth, pending[n], paths[n], o);
    ExpandApart(paths, |Children(h[o])|);
    var entries, more := ChildEntries(h, o, pending[n].depth), ChildPaths(paths[n], |Children(h[o])|);
    assert |more| == |entries|;
    EntriesJoin(h, root, depth, pending[..n], paths[..n], entries, more);
  }

  lemma EntriesJoin(h: Heap, root: Value, depth: nat, a: seq<Pending>, p: seq<Path>, b: seq<Pending>, q: seq<Path>)
    requires |a| == |p| && |b| == |q|
    requires forall k :: 0 <= k < |p| ==> EntryOk(h, root, depth, a[k], p[k])
    requires forall k :: 0 <= k < |q| ==> EntryOk(h, root, depth, b[k], q[k])
    ensures forall k :: 0 <= k < |p + q| ==> EntryOk(h, root, depth, (a + b)[k], (p + q)[k])
  {
  }

  lemma ChildrenOk(h: Heap, root: Value, depth: nat, entry: Pending, path: Path, o: nat)
    requires Closed(h) && o in h && entry.value == Ref(o) && EntryOk(h, root, depth, entry, path)
    ensures var entries, more := ChildEntries(h, o, entry.depth), ChildPaths(path, |Children(h[o])|);
            forall i :: 0 <= i < |more| ==> EntryOk(h, root, depth, entries[i], more[i])
  {
    ChildrenFound(h, root, path, o);
  }

  lemma ExpandVisited(h: Heap, root: Value, maxDepth: nat, depth: nat, at: map<nat, Path>, paths: seq<Path>, o: nat)
    requires paths != [] && VisitedOk(h, root, maxDepth, depth, at, paths)
    requires forall j, k :: 0 <= j < k < |paths| ==> Apart(paths[j], paths[k])
    requires var p := paths[|paths| - 1]; Reaches(h, root, p, o) && o !in at && (depth + |p| >= maxDepth ==> Children(h[o]) == [])
    ensures var n := |paths| - 1;
            VisitedOk(h, root, maxDepth, depth, at[o := paths[n]], paths[..n] + ChildPaths(paths[n], |Children(h[o])|))
  {
    var n := |paths| - 1;
    var p := paths[n];
    var more := ChildPaths(p, |Children(h[o])|);
    var at' := at[o := p];
    forall i: nat, x | i < |more| && x in at' ensures !(more[i] <= at'[x]) {
      if x != o { NotBelow(p, at[x], i); }
    }
    assert forall j :: 0 <= j < n ==> Apart(paths[j], p);
  }

  lemma NotBelow(p: Path, q: Path, i: nat)
    requires !(p <= q)
    ensures !(p + [i] <= q)
  {
  }

  lemma ExpandCovers(h: Heap, root: Value, at: map<nat, Path>, paths: seq<Path>, o: nat)
    requires paths != [] && Covered(h, root, at, paths) && Reaches(h, root, paths[|paths| - 1], o) && o !in at
    ensures var n := |paths| - 1;
            Covered(h, root, at[o := paths[n]], paths[..n] + ChildPaths(paths[n], |Children(h[o])|))
  {
    var n := |paths| - 1;
    var p := paths[n];
    var next := paths[..n] + ChildPaths(p, |Children(h[o])|);
    var at' := at[o := p];
    forall q, x | Reaches(h, root, q, x)
      ensures (x in at' && at'[x] == q) || exists k :: 0 <= k < |next| && next[k] <= q
    {
      if !(x in at && at[x] == q) {
        var k :| 0 <= k < |paths| && paths[k] <= q;
        if k < n {
          assert next[k] <= q;
        } else if q != p {
          PathThroughChild(h, root, p, q, o);
          assert next[n + q[|p|]] == p + [q[|p|]];
          assert next[n + q[|p|]] <= q;
        }
      }
    }
  }

  lemma CoveredAtStart(h: Heap, root: Value)
    ensures Covered(h, root, map[], [[]])
  {
    forall p, o | Reaches(h, root, p, o) ensures exists k :: 0 <= k < 1 && [[]][k] <= p {
      assert [[]][0] <= p;
    }
  }

  lemma DoneIsRight(h: Heap, root: Value, maxDepth: nat, depth: nat, at: map<nat, Path>)
    requires VisitedOk(h, root, maxDepth, depth, at, []) && Covered(h, root, at, [])
    ensures SinglePath(h, root) && WithinLimit(h, root, maxDepth, depth)
  {
  }

  /** All the loop knows between two turns. */
  ghost predicate LoopOk(h: Heap, root: Value, maxDepth: nat, depth: nat, pending: seq<Pending>, paths: seq<Path>, at: map<nat, Path>) {
    && StackOk(h, root, depth, pending, paths)
    && VisitedOk(h, root, maxDepth, depth, at, paths)
    && Covered(h, root, at, paths)
    && at.Keys <= h.Keys
  }

  lemma SkipScalar(h: Heap, root: Value, maxDepth: nat, depth: nat, pending: seq<Pending>, paths: seq<Path>, at: map<nat, Path>)
    requires LoopOk(h, root, maxDepth, depth, pending, paths, at) && pending != [] && !pending[|pending| - 1].value.Ref?
    ensures LoopOk(h, root, maxDepth, depth, pending[..|pending| - 1], paths[..|pending| - 1], at)
  {
    PopScalar(h, root, at, paths);
  }

  lemma VisitObject(h: Heap, root: Value, maxDepth: nat, depth: nat, pending: seq<Pending>, paths: seq<Path>, at: map<nat, Path>, o: nat)
    requires Closed(h) && LoopOk(h, root, maxDepth, depth, pending, paths, at) && pending != []
    requires pending[|pending| - 1].value == Ref(o)
    ensures o in h
    ensures o in at ==> !SinglePath(h, root)
    ensures pending[|pending| - 1].depth >= maxDepth && Children(h[o]) != [] ==> !WithinLimit(h, root, maxDepth, depth)
    ensures var n := |pending| - 1;
            o !in at && (pending[n].depth >= maxDepth ==> Children(h[o]) == []) ==>
              LoopOk(h, root, maxDepth, depth, pending[..n] + ChildEntries(h, o, pending[n].depth),
                     paths[..n] + ChildPaths(paths[n], |Children(h[o])|), at[o := paths[n]])
  {
    var n := |pending| - 1;
    ExpandStack(h, root, depth, pending, paths, o);
    assert Reaches(h, root, paths[n], o);
    if o in at {
      assert Reaches(h, root, at[o], o) && !(paths[n] <= at[o]);
    } else if pending[n].depth >= maxDepth ==> Children(h[o]) == [] {
      ExpandVisited(h, root, maxDepth, depth, at, paths, o);
      ExpandCovers(h, root, at, paths, o);
    }
  }

  /**
   * True exactly when every reachable object is reached by one path and none at the depth limit has children.
   * The loop ends on any graph, cyclic ones included.
   */
  method IsJsonDepthWithin(h: Heap, value: Value, maxDepth: nat, depth: nat) returns (ok: bool)
    requires Closed(h) && InHeap(h, value)
    ensures ok <==> SinglePath(h, value) && WithinLimit(h, value, maxDepth, depth)
  {
    var pending := [Pending(depth, value)];
    var seen: set<nat> := {};
    ghost var paths: seq<Path> := [[]];
    ghost var at: map<nat, Path> := map[];
    CoveredAtStart(h, value);
    while |pending| > 0
      invariant seen == at.Keys
      invariant LoopOk(h, value, maxDepth, depth, pending, paths, at)
      decreases h.Keys - seen, |pending|
    {
      var n := |pending| - 1;
      var current := pending[n];
      if !current.value.Ref? {
        SkipScalar(h, value, maxDepth, depth, pending, paths, at);
        pending, paths := pending[..n], paths[..n];
        continue;
      }
      var o := current.value.id;
      VisitObject(h, value, maxDepth, depth, pending, paths, at, o);
      if o in seen {
        return false;
      }
      if current.depth >= maxDepth && |Children(h[o])| > 0 {
        return false;
      }
      seen := seen + {o};
      at, paths := at[o := paths[n]], paths[..n] + ChildPaths(paths[n], |Children(h[o])|);
      pending := pending[..n] + ChildEntries(h, o, current.depth);
    }
    DoneIsRight(h, value, maxDepth, depth, at);
    ok := true;
  }

  /** The parts of an event that may hold JSON of any shape; a missing one is `None`. */
  datatype Recursive = Recursive(traits: Option<Value>, properties: Option<Value>, attribution: Option<Value>)

  ghost predicate Bounded(h: Heap, field: Option<Value>) {
    field.Some? ==> SinglePath(h, field.value) && WithinLimit(h, field.value, MAX_JSON_DEPTH, 0)
  }

  /** An event passes exactly when each of its recursive parts that is there is an unshared tree at most five deep. */
  method RecursiveJsonFieldsAreBounded(h: Heap, e: Recursive) returns (ok: bool)
    requires Closed(h) && forall field :: field in {e.traits, e.properties, e.attribution} && field.Some? ==> InHeap(h, field.value)
    ensures ok <==> Bounded(h, e.traits) && Bounded(h, e.properties) && Bounded(h, e.attribution)
  {
    if e.traits.Some? {
      var within := IsJsonDepthWithin(h, e.traits.value, MAX_JSON_DEPTH, 0);
      if !within { return false; }
    }
    if e.properties.Some? {
      var within := IsJsonDepthWithin(h, e.properties.value, MAX_JSON_DEPTH, 0);
      if !within { return false; }
    }
    if e.attribution.Some? {
      var within := IsJsonDepthWithin(h, e.attribution.value, MAX_JSON_DEPTH, 0);
      if !within { return false; }
    }
    ok := true;
  }

  /** On a copy of a tree the check is the plain recursive depth test, provided the copy shares nothing. */
  lemma DepthCheckOnTrees(h: Heap, v: Value, j: Json, maxDepth: nat, depth: nat)
    requires Represents(h, v, j)
    ensures SinglePath(h, v) && WithinLimit(h, v, maxDepth, depth) <==> SinglePath(h, v) && TreeWithin(j, maxDepth, depth)
  {
    LimitOnTrees(h, v, j, maxDepth, depth);
  }

  /** So on every tree as a parser or a builder lays it out, the check is the recursive depth test. */
  lemma DepthCheckOnFreshCopies(j: Json, n: nat, maxDepth: nat, depth: nat)
    ensures var c := FreshCopy(j, n);
            && Closed(c.heap) && InHeap(c.heap, c.value) && Represents(c.heap, c.value, j)
            && (SinglePath(c.heap, c.value) && WithinLimit(c.heap, c.value, maxDepth, depth) <==> TreeWithin(j, maxDepth, depth))
  {
    var c := FreshCopy(j, n);
    FreshCopyMeaning(j, n);
    UnsharedIsSinglePath(c.heap, c.value);
    LimitOnTrees(c.heap, c.value, j, maxDepth, depth);
  }

  /** Sharing alone, without any cycle, is refused: an object that is a child at two places reachable from the root. */
  lemma SharingIsRefused(h: Heap, root: Value, p: Path, a: nat, i: nat, q: Path, b: nat, k: nat, o: nat)
    requires Reaches(h, root, p, a) && Slot(h, a, i, o) && Reaches(h, root, q, b) && Slot(h, b, k, o) && o in h
    requires a != b || i != k
    ensures !SinglePath(h, root)
  {
    WalkStep(h, root, p, i);
    WalkStep(h, root, q, k);
    assert Reaches(h, root, p + [i], o) && Reaches(h, root, q + [k], o);
    SameLastStep(p, i, q, k);
  }

  lemma SameLastStep(p: Path, i: nat, q: Path, k: nat)
    ensures p + [i] == q + [k] <==> p == q && i == k
  {
    assert (p + [i])[..|p|] == p && (q + [k])[..|q|] == q;
    assert (p + [i])[|p|] == i && (q + [k])[|q|] == k;
    assert |p + [i]| == |p| + 1 && |q + [k]| == |q| + 1;
  }

  /** A cycle is refused: an object that can be reached from itself has more than one path. */
  lemma CyclesAreRefused(h: Heap, root: Value, p: Path, q: Path, o: nat)
    requires Reaches(h, root, p, o) && Reaches(h, Ref(o), q, o) && q != []
    ensures !SinglePath(h, root)
  {
    WalkOn(h, root, p, q, o);
    assert Reaches(h, root, p + q, o) && |p + q| > |p|;
  }

  lemma {:induction false} WalkOn(h: Heap, root: Value, p: Path, q: Path, o: nat)
    requires Reaches(h, root, p, o)
    ensures Walk(h, root, p + q) == Walk(h, Ref(o), q)
  {
    if q == [] {
      assert p + q == p;
    } else {
      var n := |q| - 1;
      WalkOn(h, root, p, q[..n], o);
      assert p + q == (p + q[..n]) + [q[n]];
      assert q == q[..n] + [q[n]];
      WalkStep(h, root, p + q[..n], q[n]);
    }
  }
}
