/** Keyset paging: rows in strictly descending key order, and the rows after a cursor. */
module Keyset {
  import opened Events

  /** A compound key; both parts sort descending. */
  datatype Key = Key(major: int, minor: int)

  datatype Row<V> = Row(key: Key, value: V)

  /** `a` comes before `b` when both sort descending. */
  predicate Before(a: Key, b: Key) {
    a.major > b.major || (a.major == b.major && a.minor > b.minor)
  }

  ghost predicate Descending<V>(rows: seq<Row<V>>) {
    forall i, j :: 0 <= i < j < |rows| ==> Before(rows[i].key, rows[j].key)
  }

  /** The rows strictly after a cursor, as the query's condition selects them. */
  function After<V>(rows: seq<Row<V>>, cursor: Option<Key>): seq<Row<V>> {
    if rows == [] then []
    else (if cursor.None? || Before(cursor.value, rows[0].key) then [rows[0]] else []) + After(rows[1..], cursor)
  }

  /** The rows strictly below the cursor in both parts' descending order. */
  lemma {:induction false} AfterMeaning<V>(rows: seq<Row<V>>, cursor: Key)
    ensures forall r :: r in After(rows, Some(cursor)) <==>
              r in rows && (r.key.major < cursor.major || (r.key.major == cursor.major && r.key.minor < cursor.minor))
  {
    if rows != [] {
      AfterMeaning(rows[1..], cursor);
      assert rows == [rows[0]] + rows[1..];
    }
  }

  lemma {:induction false} AfterNone<V>(rows: seq<Row<V>>)
    ensures After(rows, None) == rows
  {
    if rows != [] { AfterNone(rows[1..]); }
  }

  lemma {:induction false} AfterAll<V>(rows: seq<Row<V>>, cursor: Key)
    requires forall i :: 0 <= i < |rows| ==> Before(cursor, rows[i].key)
    ensures After(rows, Some(cursor)) == rows
  {
    if rows != [] { AfterAll(rows[1..], cursor); }
  }

  /** After the key of a row come exactly the rows below it. */
  lemma {:induction false} AfterRow<V>(rows: seq<Row<V>>, i: nat)
    requires Descending(rows) && i < |rows|
    ensures After(rows, Some(rows[i].key)) == rows[i + 1..]
  {
    if i == 0 {
      AfterAll(rows[1..], rows[0].key);
    } else {
      AfterRow(rows[1..], i - 1);
      assert Before(rows[0].key, rows[i].key);
    }
  }

  /** What remains after any cursor is a suffix of the table. */
  lemma {:induction false} AfterIsSuffix<V>(rows: seq<Row<V>>, cursor: Option<Key>) returns (k: nat)
    requires Descending(rows)
    ensures k <= |rows| && After(rows, cursor) == rows[k..]
  {
    if rows == [] {
      k := 0;
    } else if cursor.None? {
      AfterNone(rows);
      k := 0;
    } else if Before(cursor.value, rows[0].key) {
      forall i | 0 <= i < |rows| ensures Before(cursor.value, rows[i].key) {
        if i > 0 { assert Before(rows[0].key, rows[i].key); }
      }
      AfterAll(rows, cursor.value);
      k := 0;
    } else {
      var m := AfterIsSuffix(rows[1..], cursor);
      k := m + 1;
    }
  }

  /** Going on from the `i`-th row after a cursor leaves exactly what came behind it. */
  lemma AfterStep<V>(rows: seq<Row<V>>, cursor: Option<Key>, i: nat)
    requires Descending(rows) && i < |After(rows, cursor)|
    ensures After(rows, Some(After(rows, cursor)[i].key)) == After(rows, cursor)[i + 1..]
  {
    var k := AfterIsSuffix(rows, cursor);
    AfterRow(rows, k + i);
    assert rows[k..][i + 1..] == rows[k + i + 1..];
  }
}
