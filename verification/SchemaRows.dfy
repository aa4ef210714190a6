/** Expanding a schema into rows, over references that may be cyclic, with a bound on the number of rows. */
module SchemaRows {
  import opened Events
  import opened Lists
  import opened SchemaPointer

  /** A schema node as the expansion sees it: perhaps a reference, and the fields it lists itself. */
  datatype Node = Node(reference: Option<nat>, fields: seq<Field>)
  datatype Field = Field(name: string, node: Node)

  datatype Note = Unresolved | Recursive | ReferenceLimit | DepthLimit

  datatype RowData = RowData(id: string, name: string, depth: nat, expandable: bool, reference: Option<nat>, note: Option<Note>)

  const MAX_ROWS: nat := 200
  const MAX_REFERENCES: nat := 16
  const MAX_DEPTH: nat := 12

  /** Where following a chain of references ends up: the fields gathered, the references met, the last one, why it stopped. */
  datatype Chain = Chain(children: seq<Field>, references: set<nat>, last: Option<nat>, note: Option<Note>)

  function Follow(targets: map<nat, Node>, current: Node, gathered: Chain, count: nat): Chain
    decreases MAX_REFERENCES + 1 - count
  {
    if current.reference.None? || count > MAX_REFERENCES then gathered
    else
      var r := current.reference.value;
      var met := gathered.(last := Some(r));
      if r !in targets then met.(note := Some(Unresolved))
      else if r in met.references then met.(note := Some(Recursive))
      else if count >= MAX_REFERENCES then met.(note := Some(ReferenceLimit))
      else
        Follow(targets, targets[r],
               met.(children := met.children + targets[r].fields, references := met.references + {r}), count + 1)
  }

  function Gather(targets: map<nat, Node>, field: Field, ancestors: set<nat>): Chain {
    Follow(targets, field.node, Chain(field.node.fields, ancestors, None, None), 0)
  }

  function IdOf(parent: string, name: string): string { parent + "/" + EscapeToken(name) }

  function NoteOf(chain: Chain, depth: nat): Option<Note> {
    if depth >= MAX_DEPTH && chain.children != [] then Some(DepthLimit) else chain.note
  }

  function RowOf(field: Field, parent: string, depth: nat, chain: Chain): RowData {
    var note := NoteOf(chain, depth);
    RowData(IdOf(parent, field.name), field.name, depth, note.None? && chain.children != [], chain.last, note)
  }

  /** The expansion without the bound: each field's row, then, if it is open, the rows of its children. */
  function AllRows(targets: map<nat, Node>, expanded: set<string>, field: Field,
    parent: string, depth: nat, ancestors: set<nat>): seq<RowData>
    requires depth <= MAX_DEPTH
    decreases MAX_DEPTH - depth, 0, 0
  {
    var chain := Gather(targets, field, ancestors);
    var row := RowOf(field, parent, depth, chain);
    [row] + if row.expandable && row.id in expanded
            then AllRowsOf(targets, expanded, chain.children, row.id, depth + 1, chain.references) else []
  }

  function AllRowsOf(targets: map<nat, Node>, expanded: set<string>, fields: seq<Field>,
    parent: string, depth: nat, ancestors: set<nat>): seq<RowData>
    requires depth <= MAX_DEPTH
    decreases MAX_DEPTH - depth, 1, |fields|
  {
    if fields == [] then []
    else
      var n := |fields| - 1;
      AllRowsOf(targets, expanded, fields[..n], parent, depth, ancestors)
      + AllRows(targets, expanded, fields[n], parent, depth, ancestors)
  }

  function FirstRows(rows: seq<RowData>): seq<RowData> { if |rows| > MAX_ROWS then rows[..MAX_ROWS] else rows }

  lemma FirstRowsAppend(a: seq<RowData>, b: seq<RowData>)
    ensures FirstRows(FirstRows(a) + b) == FirstRows(a + b)
    ensures |FirstRows(a) + b| > MAX_ROWS || |a| > MAX_ROWS <==> |a + b| > MAX_ROWS
  {
  }

  class RowBuilder {
    const targets: map<nat, Node>
    const expanded: set<string>
    var rows: seq<RowData>
    var limited: bool

    constructor (targets: map<nat, Node>, expanded: set<string>)
      ensures this.targets == targets && this.expanded == expanded && rows == [] && !limited
    {
      this.targets, this.expanded, rows, limited := targets, expanded, [], false;
    }

    /** Adding rows one field at a time keeps exactly the first two hundred and notes whether more were due. */
    ghost predicate Added(before: seq<RowData>, wasLimited: bool, more: seq<RowData>)
      reads this
    {
      rows == FirstRows(before + more) && limited == (wasLimited || |before + more| > MAX_ROWS)
    }

    method FollowReferences(field: Field, ancestors: set<nat>) returns (chain: Chain)
      ensures chain == Gather(targets, field, ancestors)
    {
      var current := field.node;
      chain := Chain(current.fields, ancestors, None, None);
      var count := 0;
      while current.reference.Some?
        invariant 0 <= count <= MAX_REFERENCES && chain.note.None?
        invariant Follow(targets, current, chain, count) == Gather(targets, field, ancestors)
        decreases MAX_REFERENCES + 1 - count
      {
        var r := current.reference.value;
        chain := chain.(last := Some(r));
        if r !in targets {
          return chain.(note := Some(Unresolved));
        }
        if r in chain.references {
          return chain.(note := Some(Recursive));
        }
        if count >= MAX_REFERENCES {
          return chain.(note := Some(ReferenceLimit));
        }
        current := targets[r];
        chain := chain.(children := chain.children + current.fields, references := chain.references + {r});
        count := count + 1;
      }
    }

    method Walk(field: Field, parent: string, depth: nat, ancestors: set<nat>)
      requires depth <= MAX_DEPTH && |rows| <= MAX_ROWS
      modifies this`rows, this`limited
      ensures Added(old(rows), old(limited), AllRows(targets, expanded, field, parent, depth, ancestors))
      ensures |rows| <= MAX_ROWS
      decreases MAX_DEPTH - depth, 0
    {
      ghost var before := rows;
      if |rows| >= MAX_ROWS {
        limited := true;
        assert FirstRows(before + AllRows(targets, expanded, field, parent, depth, ancestors)) == before;
        return;
      }
      var chain := FollowReferences(field, ancestors);
      var row := RowOf(field, parent, depth, chain);
      rows := rows + [row];
      if row.expandable && row.id in expanded {
        WalkAll(chain.children, row.id, depth + 1, chain.references);
        ghost var more := AllRowsOf(targets, expanded, chain.children, row.id, depth + 1, chain.references);
        Associate(before, [row], more);
      } else {
        assert [row] + [] == [row];
      }
    }

    method WalkAll(fields: seq<Field>, parent: string, depth: nat, ancestors: set<nat>)
      requires depth <= MAX_DEPTH && |rows| <= MAX_ROWS
      modifies this`rows, this`limited
      ensures Added(old(rows), old(limited), AllRowsOf(targets, expanded, fields, parent, depth, ancestors))
      ensures |rows| <= MAX_ROWS
      decreases MAX_DEPTH - depth, 1
    {
      ghost var before, was := rows, limited;
      assert before + [] == before;
      for i := 0 to |fields|
        invariant |rows| <= MAX_ROWS
        invariant Added(before, was, AllRowsOf(targets, expanded, fields[..i], parent, depth, ancestors))
      {
        ghost var done := AllRowsOf(targets, expanded, fields[..i], parent, depth, ancestors);
        ghost var next := AllRows(targets, expanded, fields[i], parent, depth, ancestors);
        assert AllRowsOf(targets, expanded, fields[..i + 1], parent, depth, ancestors) == done + next by {
          assert fields[..i + 1][..i] == fields[..i];
        }
        Walk(fields[i], parent, depth, ancestors);
        FirstRowsAppend(before + done, next);
        Associate(before, done, next);
      }
      assert fields[..|fields|] == fields;
    }
  }

  /**
   * Expansion ends on every set of documents, however cyclic its references, and yields exactly the first two
   * hundred rows of the unbounded expansion; `limited` says whether any were cut off.
   */
  method BuildSchemaRows(targets: map<nat, Node>, expanded: set<string>, fields: seq<Field>) returns (rows: seq<RowData>, limited: bool)
    ensures var all := AllRowsOf(targets, expanded, fields, "", 0, {});
            rows == FirstRows(all) && |rows| <= MAX_ROWS && (limited <==> |all| > MAX_ROWS)
  {
    var builder := new RowBuilder(targets, expanded);
    builder.WalkAll(fields, "", 0, {});
    rows, limited := builder.rows, builder.limited;
    ghost var all := AllRowsOf(targets, expanded, fields, "", 0, {});
    assert [] + all == all;
  }

  // ----- The shape of the rows ---------------------------------------------------------------------

  ghost predicate EndsWith(s: string, tail: string) { |tail| <= |s| && s[|s| - |tail|..] == tail }

  /** Every row lies at most twelve deep, open rows less, and its id ends in its own escaped name. */
  lemma {:induction false} RowsAreShallow(targets: map<nat, Node>, expanded: set<string>, field: Field,
    parent: string, depth: nat, ancestors: set<nat>)
    requires depth <= MAX_DEPTH
    ensures forall r :: r in AllRows(targets, expanded, field, parent, depth, ancestors) ==>
              r.depth <= MAX_DEPTH && (r.expandable ==> r.depth < MAX_DEPTH) && EndsWith(r.id, "/" + EscapeToken(r.name))
    decreases MAX_DEPTH - depth, 0, 0
  {
    var chain := Gather(targets, field, ancestors);
    var row := RowOf(field, parent, depth, chain);
    assert row.id == parent + ("/" + EscapeToken(row.name));
    if row.expandable && row.id in expanded {
      RowsOfAreShallow(targets, expanded, chain.children, row.id, depth + 1, chain.references);
    }
  }

  lemma {:induction false} RowsOfAreShallow(targets: map<nat, Node>, expanded: set<string>, fields: seq<Field>,
    parent: string, depth: nat, ancestors: set<nat>)
    requires depth <= MAX_DEPTH
    ensures forall r :: r in AllRowsOf(targets, expanded, fields, parent, depth, ancestors) ==>
              r.depth <= MAX_DEPTH && (r.expandable ==> r.depth < MAX_DEPTH) && EndsWith(r.id, "/" + EscapeToken(r.name))
    decreases MAX_DEPTH - depth, 1, |fields|
  {
    if fields != [] {
      var n := |fields| - 1;
      RowsOfAreShallow(targets, expanded, fields[..n], parent, depth, ancestors);
      RowsAreShallow(targets, expanded, fields[n], parent, depth, ancestors);
    }
  }
}
