/** The live view's drain: byte-capped server pages, and the client loop that reads at most five of them. */
module LiveDrain {
  import opened Events
  import opened Keyset
  import opened Text

  /** A stored event; its value is the length of its JSON text. */
  type Item = Row<nat>

  const QUERY_ROWS: nat := 101
  const PAGE_ROWS: nat := 100
  const PAGE_BYTES: nat := 2 * 1024 * 1024 - 2048
  const MAX_PAGES: nat := 5
  const DRAIN_BYTES: nat := 8 * 1024 * 1024

  function SizeOf(items: seq<Item>): nat {
    if items == [] then 0 else SizeOf(items[..|items| - 1]) + items[|items| - 1].value
  }

  function Truncated(items: seq<Item>, n: nat): seq<Item> { if |items| > n then items[..n] else items }

  datatype Page = Page(data: seq<Item>, nextCursor: Option<Key>)

  /** How many of the rows, at least `n`, the byte cap admits; the first always. */
  function Admitted(rows: seq<Item>, n: nat): (k: nat)
    requires n <= |rows|
    ensures n <= k <= |rows|
    ensures k < |rows| ==> k > 0 && SizeOf(rows[..k + 1]) > PAGE_BYTES
    ensures forall j :: n < j <= k && j > 1 ==> SizeOf(rows[..j]) <= PAGE_BYTES
    decreases |rows| - n
  {
    if n == |rows| || (n > 0 && SizeOf(rows[..n + 1]) > PAGE_BYTES) then n else Admitted(rows, n + 1)
  }

  function LivePage(table: seq<Item>, cursor: Option<Key>): Page {
    var items := Truncated(After(table, cursor), QUERY_ROWS);
    var rows := Truncated(items, PAGE_ROWS);
    var data := rows[..Admitted(rows, 0)];
    Page(data, if data != [] && |items| > |data| then Some(data[|data| - 1].key) else None)
  }

  /** What the server answers with. */
  method ListLive(table: seq<Item>, cursor: Option<Key>) returns (page: Page)
    ensures page == LivePage(table, cursor)
  {
    var items := Truncated(After(table, cursor), QUERY_ROWS);
    var data := AdmitRows(Truncated(items, PAGE_ROWS));
    page := Page(data, if |data| > 0 && |items| > |data| then Some(data[|data| - 1].key) else None);
  }

  /** The server's loop over the rows read. */
  method AdmitRows(rows: seq<Item>) returns (data: seq<Item>)
    ensures data == rows[..Admitted(rows, 0)]
  {
    data := [];
    var bytes := 0;
    var i := 0;
    while i < |rows|
      invariant 0 <= i <= |rows| && data == rows[..i] && bytes == SizeOf(data)
      invariant Admitted(rows, 0) == Admitted(rows, i)
    {
      SizeOfOneMore(rows, i);
      if |data| > 0 && bytes + rows[i].value > PAGE_BYTES { return; }
      data := data + [rows[i]];
      bytes := bytes + rows[i].value;
      i := i + 1;
    }
  }

  lemma SizeOfOneMore(rows: seq<Item>, i: nat)
    requires i < |rows|
    ensures rows[..i] + [rows[i]] == rows[..i + 1]
    ensures SizeOf(rows[..i + 1]) == SizeOf(rows[..i]) + rows[i].value
  {
    assert rows[..i + 1][..i] == rows[..i];
  }

  /**
   * A page is the next rows in order, never empty while rows remain, within the byte cap unless a single row
   * exceeds it, as long as both caps allow; its cursor is there exactly when rows remain and leads to them.
   */
  lemma PageMeaning(table: seq<Item>, cursor: Option<Key>)
    requires Descending(table)
    ensures var rest := After(table, cursor); var p := LivePage(table, cursor); var n := |p.data|;
            && p.data <= rest && n <= PAGE_ROWS
            && (p.data == [] <==> rest == [])
            && (n > 1 ==> SizeOf(p.data) <= PAGE_BYTES)
            && (n < |rest| && n < PAGE_ROWS ==> SizeOf(rest[..n + 1]) > PAGE_BYTES)
            && (p.nextCursor.Some? <==> n < |rest|)
            && (p.nextCursor.Some? ==> After(table, p.nextCursor) == rest[n..])
  {
    var rest := After(table, cursor);
    var n := |LivePage(table, cursor).data|;
    AdmittedOf(rest);
    if n > 0 { AfterStep(table, cursor, n - 1); }
  }

  /** How many of the rows behind the cursor make the page. */
  lemma AdmittedOf(rest: seq<Item>)
    ensures var items := Truncated(rest, QUERY_ROWS); var rows := Truncated(items, PAGE_ROWS); var n := Admitted(rows, 0);
            && rows[..n] == rest[..n] && n <= PAGE_ROWS && (n == 0 <==> rest == [])
            && (n > 1 ==> SizeOf(rest[..n]) <= PAGE_BYTES)
            && (n < |rest| && n < PAGE_ROWS ==> SizeOf(rest[..n + 1]) > PAGE_BYTES)
            && (|items| > n <==> |rest| > n)
  {
    var rows := Truncated(Truncated(rest, QUERY_ROWS), PAGE_ROWS);
    var n := Admitted(rows, 0);
    assert rows[..n] == rest[..n];
    if n < |rows| { assert rows[..n + 1] == rest[..n + 1]; }
  }

  /** Every page from a cursor on. */
  ghost function Drained(table: seq<Item>, cursor: Option<Key>): seq<Item>
    requires Descending(table)
    decreases |After(table, cursor)|
  {
    var p := LivePage(table, cursor);
    PageMeaning(table, cursor);
    if p.nextCursor.None? then p.data else p.data + Drained(table, p.nextCursor)
  }

  /** Following the cursors reaches every row once, in order, despite the byte cap. */
  lemma {:induction false} DrainReachesEveryRow(table: seq<Item>, cursor: Option<Key>)
    requires Descending(table)
    ensures Drained(table, cursor) == After(table, cursor)
    decreases |After(table, cursor)|
  {
    PageMeaning(table, cursor);
    var p := LivePage(table, cursor);
    PrefixAndRest(After(table, cursor), p.data);
    if p.nextCursor.Some? { DrainReachesEveryRow(table, p.nextCursor); }
  }

  lemma PrefixAndRest(s: seq<Item>, front: seq<Item>)
    requires front <= s
    ensures s == front + s[|front|..] && (|front| == |s| ==> s == front)
  {
  }

  /** The length of a page's JSON text: items, commas between them, and `around` for everything else. */
  function TextBytes(page: Page, around: nat): nat {
    SizeOf(page.data) + (if page.data == [] then 0 else |page.data| - 1) + around
  }

  lemma {:induction false} JoinLength(items: seq<Item>, texts: seq<string>)
    requires |texts| == |items| && forall i :: 0 <= i < |items| ==> |texts[i]| == items[i].value
    ensures |Join(texts, ',')| == SizeOf(items) + if items == [] then 0 else |items| - 1
  {
    if items != [] {
      JoinLength(items[1..], texts[1..]);
      SizeOfTail(items);
    }
  }

  lemma {:induction false} SizeOfTail(items: seq<Item>)
    requires items != []
    ensures SizeOf(items) == items[0].value + SizeOf(items[1..])
  {
    var n := |items| - 1;
    if n > 0 {
      SizeOfTail(items[..n]);
      assert items[..n][1..] == items[1..][..n - 1];
    }
  }

  /** The bytes counted for a page are the length of its text: what is around the rows, the rows, and the commas. */
  lemma PageTextLength(page: Page, texts: seq<string>, head: string, tail: string)
    requires |texts| == |page.data| && forall i :: 0 <= i < |page.data| ==> |texts[i]| == page.data[i].value
    ensures TextBytes(page, |head| + |tail|) == |head + Join(texts, ',') + tail|
  {
    JoinLength(page.data, texts);
  }

  /** Where following the cursors stands: rows so far, the next cursor, the text read, whether the pages ended. */
  datatype Progress = Progress(data: seq<Item>, cursor: Option<Key>, bytes: nat, ended: bool)

  /** The first `k` pages, fewer if they end sooner; `around(i)` is the text of page `i` besides its rows. */
  function Followed(table: seq<Item>, around: nat -> nat, k: nat): Progress {
    if k == 0 then Progress([], None, 0, false)
    else
      var before := Followed(table, around, k - 1);
      if before.ended then before
      else
        var p := LivePage(table, before.cursor);
        Progress(before.data + p.data, p.nextCursor, before.bytes + TextBytes(p, around(k - 1)), p.nextCursor.None?)
  }

  /** What has been read is a prefix of the table, and the rest of the table lies behind the cursor. */
  lemma {:induction false} FollowedIsPrefix(table: seq<Item>, around: nat -> nat, k: nat)
    requires Descending(table)
    ensures var f := Followed(table, around, k);
            && f.data <= table
            && (f.ended <==> k > 0 && f.data == table)
            && (!f.ended ==> After(table, f.cursor) == table[|f.data|..] && |f.data| >= k)
  {
    if k == 0 {
      AfterNone(table);
    } else {
      FollowedIsPrefix(table, around, k - 1);
      var before := Followed(table, around, k - 1);
      if !before.ended {
        PageMeaning(table, before.cursor);
        PrefixExtends(table, before.data, LivePage(table, before.cursor).data);
      }
    }
  }

  lemma PrefixExtends(table: seq<Item>, data: seq<Item>, more: seq<Item>)
    requires data <= table && more <= table[|data|..]
    ensures data + more <= table && table[|data|..][|more|..] == table[|data + more|..]
    ensures data + more == table <==> |data + more| == |table|
  {
  }

  /** Where the reading loop stands after `k` pages that did not end and did not exceed the limit. */
  ghost predicate ReadSoFar(table: seq<Item>, around: nat -> nat, k: nat, data: seq<Item>, cursor: Option<Key>, bytes: nat) {
    && Followed(table, around, k) == Progress(data, cursor, bytes, false)
    && bytes <= DRAIN_BYTES
    && (k > 0 ==> |data| < |table|)
  }

  /** What one more page adds. */
  lemma FollowOne(table: seq<Item>, around: nat -> nat, k: nat, data: seq<Item>, cursor: Option<Key>, bytes: nat)
    requires Descending(table) && ReadSoFar(table, around, k, data, cursor, bytes)
    ensures var p := LivePage(table, cursor); var more := bytes + TextBytes(p, around(k));
            && Followed(table, around, k + 1) == Progress(data + p.data, p.nextCursor, more, p.nextCursor.None?)
            && data <= table && data + p.data <= table
            && (p.nextCursor.None? <==> |data + p.data| == |table|)
            && (table == [] ==> k == 0 && more == around(0))
  {
    FollowedIsPrefix(table, around, k);
    PageAfter(table, cursor, data);
    if table == [] { EmptyPage(table, cursor, around(k)); }
  }

  /** The page behind `cursor`, when `data` is what lies before it. */
  lemma PageAfter(table: seq<Item>, cursor: Option<Key>, data: seq<Item>)
    requires Descending(table) && data <= table && After(table, cursor) == table[|data|..]
    ensures var p := LivePage(table, cursor);
            data + p.data <= table && (p.nextCursor.None? <==> |data + p.data| == |table|)
  {
    PageMeaning(table, cursor);
    PrefixExtends(table, data, LivePage(table, cursor).data);
  }

  lemma EmptyPage(table: seq<Item>, cursor: Option<Key>, around: nat)
    requires table == []
    ensures LivePage(table, cursor).data == [] && TextBytes(LivePage(table, cursor), around) == around
  {
  }

  /** What the loop makes of one more page: too much text, the end, or somewhere further on. */
  lemma ReadOne(table: seq<Item>, around: nat -> nat, k: nat, data: seq<Item>, cursor: Option<Key>, bytes: nat)
    requires Descending(table) && ReadSoFar(table, around, k, data, cursor, bytes)
    ensures var p := LivePage(table, cursor); var more := bytes + TextBytes(p, around(k));
            && data <= table && data + p.data <= table
            && Followed(table, around, k + 1).bytes == more && Followed(table, around, k + 1).data == data + p.data
            && (if more > DRAIN_BYTES then |data| < |table| || (table == [] && around(0) > DRAIN_BYTES)
                else if p.nextCursor.None? then |data + p.data| == |table| && !(table == [] && around(0) > DRAIN_BYTES)
                else ReadSoFar(table, around, k + 1, data + p.data, p.nextCursor, more))
  {
    FollowOne(table, around, k, data, cursor, bytes);
    FollowedIsPrefix(table, around, k);
  }

  datatype Observation = Observation(data: seq<Item>, observedAt: int, truncated: bool)

  /**
   * Read pages until they end, five are read, or the text read exceeds 8 MiB. What is returned is the first
   * `pages` pages, a prefix of the table, and `truncated` says exactly whether it is a proper one, but for an
   * empty page whose wrapping alone were over 8 MiB; `to` is the upper end of the window the server chose.
   */
  method FetchObservation(table: seq<Item>, to: int, around: nat -> nat) returns (o: Observation, ghost pages: nat)
    requires Descending(table)
    ensures o.data <= table
    ensures o.truncated <==> |o.data| < |table| || (table == [] && around(0) > DRAIN_BYTES)
    ensures pages <= MAX_PAGES && o.data == Followed(table, around, pages).data
    ensures Followed(table, around, pages).bytes <= DRAIN_BYTES
    ensures pages == MAX_PAGES || !o.truncated || Followed(table, around, pages + 1).bytes > DRAIN_BYTES
    ensures o.observedAt == if pages == 0 then 0 else to
  {
    var data: seq<Item> := [];
    var observedAt := 0;
    var truncated := false;
    var bytes: nat := 0;
    var cursor: Option<Key> := None;
    pages := 0;
    FollowedIsPrefix(table, around, 0);
    for pageNumber := 0 to MAX_PAGES
      invariant pages == pageNumber && data <= table
      invariant ReadSoFar(table, around, pages, data, cursor, bytes)
      invariant truncated == (pageNumber > 0) && observedAt == if pageNumber == 0 then 0 else to
    {
      ReadOne(table, around, pages, data, cursor, bytes);
      var page := ListLive(table, cursor);
      bytes := bytes + TextBytes(page, around(pageNumber));
      if bytes > DRAIN_BYTES {
        return Observation(data, observedAt, true), pages;
      }
      if pageNumber == 0 { observedAt := to; }
      data := data + page.data;
      pages := pages + 1;
      if page.nextCursor.None? {
        return Observation(data, observedAt, false), pages;
      }
      cursor := page.nextCursor;
      truncated := true;
    }
    o := Observation(data, observedAt, truncated);
  }
}
