/** What the expanded rows of a schema are, read off the documents and the set of open rows. */
module SchemaExpansion {
  import opened Events
  import opened SchemaPointer
  import opened SchemaRows

  // ----- Chains of references --------------------------------------------------------------------

  /** The node a chain of references has come to. */
  function NodeAt(targets: map<nat, Node>, start: Node, path: seq<nat>): Node
    requires path != [] ==> path[|path| - 1] in targets
  {
    if path == [] then start else targets[path[|path| - 1]]
  }

  /** A chain that can be followed: each the reference of the node before, known, not met further up, and none twice. */
  ghost predicate IsChain(targets: map<nat, Node>, start: Node, ancestors: set<nat>, path: seq<nat>) {
    path != [] ==>
      var front, r := path[..|path| - 1], path[|path| - 1];
      && |path| <= 16 && IsChain(targets, start, ancestors, front)
      && r in targets && r !in ancestors && r !in front && NodeAt(targets, start, front).reference == Some(r)
  }

  /** The fields of the start and of every target on the chain, in order. */
  ghost function FieldsAlong(targets: map<nat, Node>, start: Node, ancestors: set<nat>, path: seq<nat>): seq<Field>
    requires IsChain(targets, start, ancestors, path)
  {
    if path == [] then start.fields
    else FieldsAlong(targets, start, ancestors, path[..|path| - 1]) + targets[path[|path| - 1]].fields
  }

  /** Why a chain stops, and what it has gathered by then. */
  ghost predicate GatheredAlong(targets: map<nat, Node>, start: Node, ancestors: set<nat>, path: seq<nat>, c: Chain) {
    && IsChain(targets, start, ancestors, path)
    && c.children == FieldsAlong(targets, start, ancestors, path)
    && c.references == ancestors + (set r | r in path)
    && match NodeAt(targets, start, path).reference
       case None => c.note == None && c.last == (if path == [] then None else Some(path[|path| - 1]))
       case Some(r) =>
         && c.last == Some(r)
         && (c.note == Some(Unresolved) <==> r !in targets)
         && (c.note == Some(Recursive) <==> r in targets && (r in ancestors || r in path))
         && (c.note == Some(ReferenceLimit) <==> r in targets && r !in ancestors && r !in path && |path| == 16)
         && c.note.Some?
  }

  lemma ChainGrows(targets: map<nat, Node>, start: Node, ancestors: set<nat>, path: seq<nat>, r: nat)
    requires IsChain(targets, start, ancestors, path) && NodeAt(targets, start, path).reference == Some(r)
    requires r in targets && r !in ancestors && r !in path && |path| < 16
    ensures IsChain(targets, start, ancestors, path + [r])
    ensures FieldsAlong(targets, start, ancestors, path + [r]) == FieldsAlong(targets, start, ancestors, path) + targets[r].fields
  {
    assert (path + [r])[..|path|] == path;
  }

  lemma OneMoreMet(ancestors: set<nat>, path: seq<nat>, r: nat)
    ensures ancestors + (set x | x in path) + {r} == ancestors + (set x | x in path + [r])
  {
  }

  lemma {:induction false} FollowAlong(targets: map<nat, Node>, start: Node, ancestors: set<nat>, path: seq<nat>, gathered: Chain)
    returns (whole: seq<nat>)
    requires IsChain(targets, start, ancestors, path)
    requires gathered == Chain(FieldsAlong(targets, start, ancestors, path), ancestors + (set r | r in path),
                               if path == [] then None else Some(path[|path| - 1]), None)
    ensures GatheredAlong(targets, start, ancestors, whole, Follow(targets, NodeAt(targets, start, path), gathered, |path|))
    decreases 17 - |path|
  {
    var current := NodeAt(targets, start, path);
    if current.reference.Some? && current.reference.value in targets && current.reference.value !in gathered.references && |path| < 16 {
      var r := current.reference.value;
      ChainGrows(targets, start, ancestors, path, r);
      OneMoreMet(ancestors, path, r);
      assert NodeAt(targets, start, path + [r]) == targets[r];
      var next := Chain(gathered.children + targets[r].fields, gathered.references + {r}, Some(r), None);
      assert Follow(targets, current, gathered, |path|) == Follow(targets, targets[r], next, |path| + 1);
      whole := FollowAlong(targets, start, ancestors, path + [r], next);
    } else {
      whole := path;
      ChainStops(targets, start, ancestors, path, gathered);
    }
  }

  lemma ChainStops(targets: map<nat, Node>, start: Node, ancestors: set<nat>, path: seq<nat>, gathered: Chain)
    requires IsChain(targets, start, ancestors, path)
    requires gathered == Chain(FieldsAlong(targets, start, ancestors, path), ancestors + (set r | r in path),
                               if path == [] then None else Some(path[|path| - 1]), None)
    requires var next := NodeAt(targets, start, path).reference;
             next.None? || next.value !in targets || next.value in gathered.references || |path| == 16
    ensures GatheredAlong(targets, start, ancestors, path, Follow(targets, NodeAt(targets, start, path), gathered, |path|))
  {
  }

  /**
   * The children of a row are the field's own fields and those of every schema along its references, in order. The
   * chain of references stops at a schema without one, at an unknown, a repeated or a seventeenth, and the note says
   * at which.
   */
  lemma ChildrenAlongReferences(targets: map<nat, Node>, field: Field, ancestors: set<nat>) returns (path: seq<nat>)
    ensures GatheredAlong(targets, field.node, ancestors, path, Gather(targets, field, ancestors))
  {
    assert ancestors + (set r | r in []) == ancestors;
    path := FollowAlong(targets, field.node, ancestors, [], Chain(field.node.fields, ancestors, None, None));
  }

  // ----- Rows ------------------------------------------------------------------------------------

  /** The row of a field, in its own terms. */
  lemma RowMeaning(field: Field, parent: string, depth: nat, chain: Chain)
    ensures var row := RowOf(field, parent, depth, chain);
            && row.id == parent + "/" + EscapeToken(field.name) && row.name == field.name && row.depth == depth
            && row.reference == chain.last
            && (row.note == Some(DepthLimit) <==> (depth >= 12 && chain.children != []) || chain.note == Some(DepthLimit))
            && (row.note != Some(DepthLimit) ==> row.note == chain.note)
            && (row.expandable <==> chain.children != [] && row.note.None?)
  {
  }

  /** A row's place: its position among the fields, that of the row above it among its own, and so on from the top. */
  type Place = seq<nat>

  /** The row at a place, if every row above it is open. */
  function RowAt(targets: map<nat, Node>, expanded: set<string>, fields: seq<Field>,
    parent: string, depth: nat, ancestors: set<nat>, place: Place): Option<RowData>
    requires place != []
    decreases |place|
  {
    if place[0] >= |fields| then None
    else
      var field := fields[place[0]];
      var chain := Gather(targets, field, ancestors);
      var row := RowOf(field, parent, depth, chain);
      if |place| == 1 then Some(row)
      else if row.expandable && row.id in expanded then
        RowAt(targets, expanded, chain.children, row.id, depth + 1, chain.references, place[1..])
      else None
  }

  /** Reading order: a row before the rows below it, and those before the next row. */
  ghost predicate Before(p: Place, q: Place)
    decreases |p|
  {
    q != [] && (p == [] || p[0] < q[0] || (p[0] == q[0] && Before(p[1..], q[1..])))
  }

  ghost predicate InOrder(places: seq<Place>) { forall i, j :: 0 <= i < j < |places| ==> Before(places[i], places[j]) }

  ghost predicate RowIs(targets: map<nat, Node>, expanded: set<string>, fields: seq<Field>,
                        parent: string, depth: nat, ancestors: set<nat>, place: Place, row: RowData) {
    place != [] && RowAt(targets, expanded, fields, parent, depth, ancestors, place) == Some(row)
  }

  /** The rows are those at these places. */
  ghost predicate RowsAt(targets: map<nat, Node>, expanded: set<string>, fields: seq<Field>,
                         parent: string, depth: nat, ancestors: set<nat>, places: seq<Place>, rows: seq<RowData>) {
    && |rows| == |places|
    && forall k :: 0 <= k < |places| ==> RowIs(targets, expanded, fields, parent, depth, ancestors, places[k], rows[k])
  }

  ghost predicate AllPlaces(targets: map<nat, Node>, expanded: set<string>, fields: seq<Field>,
                            parent: string, depth: nat, ancestors: set<nat>, places: seq<Place>) {
    forall p: Place :: p != [] && RowAt(targets, expanded, fields, parent, depth, ancestors, p).Some? ==> p in places
  }

  function Below(i: nat, places: seq<Place>): seq<Place> { seq(|places|, k requires 0 <= k < |places| => [i] + places[k]) }

  lemma BelowInOrder(i: nat, places: seq<Place>)
    requires InOrder(places) && forall k :: 0 <= k < |places| ==> places[k] != []
    ensures InOrder([[i]] + Below(i, places))
  {
    var all := [[i]] + Below(i, places);
    forall j, k | 0 <= j < k < |all| ensures Before(all[j], all[k]) {
      assert all[k] == [i] + places[k - 1] && all[k][1..] == places[k - 1];
      if j > 0 { assert all[j] == [i] + places[j - 1] && all[j][1..] == places[j - 1]; }
    }
  }

  lemma BelowHasAll(i: nat, places: seq<Place>, p: Place)
    requires p != [] && p[0] == i && (p[1..] == [] || p[1..] in places)
    ensures p in [[i]] + Below(i, places)
  {
    var all := [[i]] + Below(i, places);
    assert p == [i] + p[1..];
    if p[1..] == [] {
      assert p == all[0];
    } else {
      var k :| 0 <= k < |places| && places[k] == p[1..];
      assert all[k + 1] == p;
    }
  }

  /** Places at one position and below it. */
  ghost predicate StartAt(places: seq<Place>, i: nat) { forall k :: 0 <= k < |places| ==> places[k] != [] && places[k][0] == i }

  /** The row of an open field and the rows of its children. */
  lemma OpenFieldRows(targets: map<nat, Node>, expanded: set<string>, fields: seq<Field>, i: nat,
    parent: string, depth: nat, ancestors: set<nat>, chain: Chain, row: RowData, below: seq<Place>, rows: seq<RowData>)
    requires i < |fields| && chain == Gather(targets, fields[i], ancestors) && row == RowOf(fields[i], parent, depth, chain)
    requires row.expandable && row.id in expanded
    requires RowsAt(targets, expanded, chain.children, row.id, depth + 1, chain.references, below, rows)
    ensures RowsAt(targets, expanded, fields, parent, depth, ancestors, [[i]] + Below(i, below), [row] + rows)
    ensures StartAt([[i]] + Below(i, below), i)
  {
    forall k | 0 <= k < |below|
      ensures RowIs(targets, expanded, fields, parent, depth, ancestors, [i] + below[k], rows[k])
    {
      RowBelow(targets, expanded, fields, i, parent, depth, ancestors, below[k], rows[k]);
    }
    assert RowIs(targets, expanded, fields, parent, depth, ancestors, [i], row);
    RowsShift(targets, expanded, fields, i, parent, depth, ancestors, row, below, rows);
  }

  lemma RowsShift(targets: map<nat, Node>, expanded: set<string>, fields: seq<Field>, i: nat,
    parent: string, depth: nat, ancestors: set<nat>, row: RowData, below: seq<Place>, rows: seq<RowData>)
    requires |rows| == |below| && RowIs(targets, expanded, fields, parent, depth, ancestors, [i], row)
    requires forall k :: 0 <= k < |below| ==> RowIs(targets, expanded, fields, parent, depth, ancestors, [i] + below[k], rows[k])
    ensures RowsAt(targets, expanded, fields, parent, depth, ancestors, [[i]] + Below(i, below), [row] + rows)
    ensures StartAt([[i]] + Below(i, below), i)
  {
    var places, all := [[i]] + Below(i, below), [row] + rows;
    forall k | 0 <= k < |places| ensures RowIs(targets, expanded, fields, parent, depth, ancestors, places[k], all[k]) && places[k][0] == i {
      if k > 0 { assert places[k] == [i] + below[k - 1] && all[k] == rows[k - 1]; }
    }
  }

  /** The row at a place below an open field's row. */
  lemma RowBelow(targets: map<nat, Node>, expanded: set<string>, fields: seq<Field>, i: nat,
    parent: string, depth: nat, ancestors: set<nat>, p: Place, below: RowData)
    requires i < |fields|
    requires var chain := Gather(targets, fields[i], ancestors); var row := RowOf(fields[i], parent, depth, chain);
             row.expandable && row.id in expanded
             && RowIs(targets, expanded, chain.children, row.id, depth + 1, chain.references, p, below)
    ensures RowIs(targets, expanded, fields, parent, depth, ancestors, [i] + p, below)
  {
    assert ([i] + p)[1..] == p;
  }

  /** Every row of one field is at its position or below. */
  ghost predicate FieldPlacesAll(targets: map<nat, Node>, expanded: set<string>, fields: seq<Field>, i: nat,
                                 parent: string, depth: nat, ancestors: set<nat>, places: seq<Place>) {
    forall p: Place :: p != [] && p[0] == i && RowAt(targets, expanded, fields, parent, depth, ancestors, p).Some? ==> p in places
  }

  lemma OpenFieldPlaces(targets: map<nat, Node>, expanded: set<string>, fields: seq<Field>, i: nat,
    parent: string, depth: nat, ancestors: set<nat>, chain: Chain, row: RowData, below: seq<Place>)
    requires i < |fields| && chain == Gather(targets, fields[i], ancestors) && row == RowOf(fields[i], parent, depth, chain)
    requires AllPlaces(targets, expanded, chain.children, row.id, depth + 1, chain.references, below)
    ensures FieldPlacesAll(targets, expanded, fields, i, parent, depth, ancestors, [[i]] + Below(i, below))
  {
    forall p: Place | p != [] && p[0] == i && RowAt(targets, expanded, fields, parent, depth, ancestors, p).Some?
      ensures p in [[i]] + Below(i, below)
    {
      BelowHasAll(i, below, p);
    }
  }

  lemma ClosedFieldPlaces(targets: map<nat, Node>, expanded: set<string>, fields: seq<Field>, i: nat,
    parent: string, depth: nat, ancestors: set<nat>, chain: Chain, row: RowData)
    requires i < |fields| && chain == Gather(targets, fields[i], ancestors) && row == RowOf(fields[i], parent, depth, chain)
    requires !(row.expandable && row.id in expanded)
    ensures RowsAt(targets, expanded, fields, parent, depth, ancestors, [[i]], [row])
    ensures FieldPlacesAll(targets, expanded, fields, i, parent, depth, ancestors, [[i]])
  {
    forall p: Place | p != [] && p[0] == i && RowAt(targets, expanded, fields, parent, depth, ancestors, p).Some? ensures p in [[i]] {
      assert p == [i];
    }
  }

  /** The rows of one field are at its position and below. */
  lemma {:induction false} FieldPlaces(targets: map<nat, Node>, expanded: set<string>, fields: seq<Field>, i: nat,
    parent: string, depth: nat, ancestors: set<nat>) returns (places: seq<Place>)
    requires depth <= MAX_DEPTH && i < |fields|
    ensures RowsAt(targets, expanded, fields, parent, depth, ancestors, places,
                   AllRows(targets, expanded, fields[i], parent, depth, ancestors))
    ensures InOrder(places) && StartAt(places, i)
    ensures FieldPlacesAll(targets, expanded, fields, i, parent, depth, ancestors, places)
    decreases MAX_DEPTH - depth, 0, 0
  {
    var chain := Gather(targets, fields[i], ancestors);
    var row := RowOf(fields[i], parent, depth, chain);
    if row.expandable && row.id in expanded {
      var below := EveryPlace(targets, expanded, chain.children, row.id, depth + 1, chain.references);
      places := [[i]] + Below(i, below);
      BelowInOrder(i, below);
      OpenFieldRows(targets, expanded, fields, i, parent, depth, ancestors, chain, row, below,
        AllRowsOf(targets, expanded, chain.children, row.id, depth + 1, chain.references));
      OpenFieldPlaces(targets, expanded, fields, i, parent, depth, ancestors, chain, row, below);
    } else {
      places := [[i]];
      ClosedFieldPlaces(targets, expanded, fields, i, parent, depth, ancestors, chain, row);
    }
  }

  /**
   * The unbounded expansion is the row at every place whose upper rows are all open, each once, in reading order.
   */
  lemma {:induction false} EveryPlace(targets: map<nat, Node>, expanded: set<string>, fields: seq<Field>,
    parent: string, depth: nat, ancestors: set<nat>) returns (places: seq<Place>)
    requires depth <= MAX_DEPTH
    ensures RowsAt(targets, expanded, fields, parent, depth, ancestors, places,
                   AllRowsOf(targets, expanded, fields, parent, depth, ancestors))
    ensures InOrder(places) && AllPlaces(targets, expanded, fields, parent, depth, ancestors, places)
    decreases MAX_DEPTH - depth, 1, |fields|
  {
    if fields == [] {
      places := [];
    } else {
      var n := |fields| - 1;
      var before := EveryPlace(targets, expanded, fields[..n], parent, depth, ancestors);
      var last := FieldPlaces(targets, expanded, fields, n, parent, depth, ancestors);
      places := before + last;
      JoinPlaces(targets, expanded, fields, parent, depth, ancestors, before, last,
        AllRowsOf(targets, expanded, fields[..n], parent, depth, ancestors), AllRows(targets, expanded, fields[n], parent, depth, ancestors));
    }
  }

  /** A row of the first fields is at the same place among more. */
  lemma SameRow(targets: map<nat, Node>, expanded: set<string>, fields: seq<Field>, n: nat,
                parent: string, depth: nat, ancestors: set<nat>, p: Place)
    requires n <= |fields| && p != []
    ensures RowAt(targets, expanded, fields[..n], parent, depth, ancestors, p)
            == if p[0] < n then RowAt(targets, expanded, fields, parent, depth, ancestors, p) else None
  {
  }

  lemma JoinPlaces(targets: map<nat, Node>, expanded: set<string>, fields: seq<Field>, parent: string, depth: nat, ancestors: set<nat>,
                   before: seq<Place>, last: seq<Place>, rows: seq<RowData>, more: seq<RowData>)
    requires fields != []
    requires RowsAt(targets, expanded, fields[..|fields| - 1], parent, depth, ancestors, before, rows)
    requires RowsAt(targets, expanded, fields, parent, depth, ancestors, last, more)
    requires AllPlaces(targets, expanded, fields[..|fields| - 1], parent, depth, ancestors, before)
    requires FieldPlacesAll(targets, expanded, fields, |fields| - 1, parent, depth, ancestors, last)
    requires InOrder(before) && InOrder(last) && StartAt(last, |fields| - 1)
    ensures RowsAt(targets, expanded, fields, parent, depth, ancestors, before + last, rows + more)
    ensures InOrder(before + last) && AllPlaces(targets, expanded, fields, parent, depth, ancestors, before + last)
  {
    RowsAtFront(targets, expanded, fields, |fields| - 1, parent, depth, ancestors, before, rows);
    JoinOrder(before, last, |fields| - 1);
    RowsJoin(targets, expanded, fields, parent, depth, ancestors, before, last, rows, more);
    forall p: Place | p != [] && RowAt(targets, expanded, fields, parent, depth, ancestors, p).Some? ensures p in before + last {
      PlaceJoined(targets, expanded, fields, parent, depth, ancestors, before, last, p);
    }
  }

  lemma PlaceJoined(targets: map<nat, Node>, expanded: set<string>, fields: seq<Field>, parent: string, depth: nat, ancestors: set<nat>,
                    before: seq<Place>, last: seq<Place>, p: Place)
    requires fields != [] && p != [] && RowAt(targets, expanded, fields, parent, depth, ancestors, p).Some?
    requires AllPlaces(targets, expanded, fields[..|fields| - 1], parent, depth, ancestors, before)
    requires FieldPlacesAll(targets, expanded, fields, |fields| - 1, parent, depth, ancestors, last)
    ensures p in before + last
  {
    SameRow(targets, expanded, fields, |fields| - 1, parent, depth, ancestors, p);
  }

  lemma RowsJoin(targets: map<nat, Node>, expanded: set<string>, fields: seq<Field>, parent: string, depth: nat, ancestors: set<nat>,
                 before: seq<Place>, last: seq<Place>, rows: seq<RowData>, more: seq<RowData>)
    requires RowsAt(targets, expanded, fields, parent, depth, ancestors, before, rows)
    requires RowsAt(targets, expanded, fields, parent, depth, ancestors, last, more)
    ensures RowsAt(targets, expanded, fields, parent, depth, ancestors, before + last, rows + more)
  {
  }

  ghost predicate StartBelow(places: seq<Place>, n: nat) { forall k :: 0 <= k < |places| ==> places[k] != [] && places[k][0] < n }

  lemma RowsAtFront(targets: map<nat, Node>, expanded: set<string>, fields: seq<Field>, n: nat, parent: string, depth: nat,
                    ancestors: set<nat>, before: seq<Place>, rows: seq<RowData>)
    requires n <= |fields| && RowsAt(targets, expanded, fields[..n], parent, depth, ancestors, before, rows)
    ensures RowsAt(targets, expanded, fields, parent, depth, ancestors, before, rows) && StartBelow(before, n)
  {
    forall i | 0 <= i < |before|
      ensures RowIs(targets, expanded, fields, parent, depth, ancestors, before[i], rows[i]) && before[i][0] < n
    {
      assert RowIs(targets, expanded, fields[..n], parent, depth, ancestors, before[i], rows[i]);
      SameRow(targets, expanded, fields, n, parent, depth, ancestors, before[i]);
    }
  }

  lemma JoinOrder(before: seq<Place>, last: seq<Place>, n: nat)
    requires InOrder(before) && InOrder(last) && StartBelow(before, n) && StartAt(last, n)
    ensures InOrder(before + last)
  {
  }
}
