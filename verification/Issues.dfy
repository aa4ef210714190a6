/** The issue list: keyset pages of a store, joined with lifecycle records and filtered after paging. */
module Issues {
  import opened Events
  import opened Keyset

  datatype Status = Open | Resolved | Ignored
  datatype LifecycleRecord = LifecycleRecord(status: Status, updatedAt: int)

  /** An issue row; its fingerprint is the minor part of its key and `lastSeen` the major. */
  type Issue = Row<nat>

  datatype Page = Page(data: seq<Issue>, nextCursor: Option<Key>)

  /** The store reads one row more than asked for, to know whether to hand out a cursor. */
  function StorePage(table: seq<Issue>, limit: nat, cursor: Option<Key>): Page {
    var rest := After(table, cursor);
    var rows := if |rest| > limit + 1 then rest[..limit + 1] else rest;
    var data := if |rows| > limit then rows[..limit] else rows;
    Page(data, if |rows| > limit && data != [] then Some(data[|data| - 1].key) else None)
  }

  datatype Enriched = Enriched(issue: Issue, status: Status, statusUpdatedAt: Option<int>)

  function Enrich(issue: Issue, lifecycle: map<int, LifecycleRecord>): Enriched {
    if issue.key.minor in lifecycle
    then Enriched(issue, lifecycle[issue.key.minor].status, Some(lifecycle[issue.key.minor].updatedAt))
    else Enriched(issue, Open, None)
  }

  /** The simple query: every issue with its status, those that match, in order. */
  function Matching(issues: seq<Issue>, lifecycle: map<int, LifecycleRecord>, status: Option<Status>): seq<Enriched> {
    if issues == [] then []
    else
      var n := |issues| - 1;
      var e := Enrich(issues[n], lifecycle);
      Matching(issues[..n], lifecycle, status) + if status.None? || e.status == status.value then [e] else []
  }

  datatype Answer = Answer(data: seq<Enriched>, nextCursor: Option<Key>)

  function Limited(s: seq<Enriched>, limit: nat): seq<Enriched> { if |s| > limit then s[..limit] else s }

  /** The first `limit` matches after the cursor; a cursor at the last of them if the table goes on behind it. */
  function IssueQuery(table: seq<Issue>, lifecycle: map<int, LifecycleRecord>, status: Option<Status>, limit: nat,
                      cursor: Option<Key>): Answer {
    var data := Limited(Matching(After(table, cursor), lifecycle, status), limit);
    Answer(data,
           if |data| == limit && data != [] && After(table, Some(data[|data| - 1].issue.key)) != []
           then Some(data[|data| - 1].issue.key) else None)
  }

  const PAGE_LIMIT: nat := 100

  lemma {:induction false} MatchingAppend(a: seq<Issue>, b: seq<Issue>, lifecycle: map<int, LifecycleRecord>, status: Option<Status>)
    ensures Matching(a + b, lifecycle, status) == Matching(a, lifecycle, status) + Matching(b, lifecycle, status)
  {
    if b == [] {
      assert a + b == a;
    } else {
      var n := |b| - 1;
      assert (a + b)[..|a + b| - 1] == a + b[..n];
      MatchingAppend(a, b[..n], lifecycle, status);
    }
  }

  /** A store page is the next rows in order; its cursor is there exactly when more follow, and leads to them. */
  lemma StorePageMeaning(table: seq<Issue>, limit: nat, cursor: Option<Key>)
    requires Descending(table) && limit > 0
    ensures var rest := After(table, cursor); var p := StorePage(table, limit, cursor);
            && p.data <= rest && |p.data| == (if |rest| < limit then |rest| else limit)
            && (p.nextCursor.None? <==> p.data == rest)
            && (p.nextCursor.Some? ==>
                  p.data != [] && p.nextCursor == Some(p.data[|p.data| - 1].key) && After(table, p.nextCursor) == rest[|p.data|..])
  {
    var rest := After(table, cursor);
    var p := StorePage(table, limit, cursor);
    if p.nextCursor.Some? { AfterStep(table, cursor, |p.data| - 1); }
  }

  /** The page holds the rows of `rest` from `scanned` on, and its cursor leads to what follows, if anything does. */
  ghost predicate LiesAt(table: seq<Issue>, page: Page, rest: seq<Issue>, scanned: nat) {
    var next := scanned + |page.data|;
    && next <= |rest| && page.data == rest[scanned..next]
    && (page.nextCursor.None? <==> next == |rest|)
    && (page.nextCursor.Some? ==> next > scanned && After(table, page.nextCursor) == rest[next..])
  }

  /** The store's list call, told by where its page lies in the rows `rest` of which `scanned` are behind the cursor. */
  method ListStore(table: seq<Issue>, limit: nat, cursor: Option<Key>, ghost rest: seq<Issue>, ghost scanned: nat) returns (page: Page)
    requires Descending(table) && limit > 0 && scanned <= |rest| && After(table, cursor) == rest[scanned..]
    ensures LiesAt(table, page, rest, scanned)
  {
    StorePageMeaning(table, limit, cursor);
    page := StorePage(table, limit, cursor);
  }

  /** The answer once the data is full at row `i` of what was left. */
  lemma FullAnswer(table: seq<Issue>, lifecycle: map<int, LifecycleRecord>, status: Option<Status>, limit: nat, cursor: Option<Key>,
                   rest: seq<Issue>, i: nat)
    requires Descending(table) && limit > 0 && rest == After(table, cursor) && i < |rest|
    requires |Matching(rest[..i], lifecycle, status)| < limit == |Matching(rest[..i + 1], lifecycle, status)|
    ensures IssueQuery(table, lifecycle, status, limit, cursor)
            == Answer(Matching(rest[..i + 1], lifecycle, status), if i + 1 < |rest| then Some(rest[i].key) else None)
  {
    MatchingPrefix(rest, lifecycle, status, i + 1);
    LastMatch(rest, lifecycle, status, i);
    AfterStep(table, cursor, i);
    AnswerWith(table, lifecycle, status, limit, cursor, Matching(rest[..i + 1], lifecycle, status), rest[i], rest[i + 1..]);
  }

  lemma AnswerWith(table: seq<Issue>, lifecycle: map<int, LifecycleRecord>, status: Option<Status>, limit: nat, cursor: Option<Key>,
                   data: seq<Enriched>, last: Issue, behind: seq<Issue>)
    requires data <= Matching(After(table, cursor), lifecycle, status) && |data| == limit > 0
    requires data[|data| - 1].issue == last && After(table, Some(last.key)) == behind
    ensures IssueQuery(table, lifecycle, status, limit, cursor) == Answer(data, if behind != [] then Some(last.key) else None)
  {
  }

  /** What matches among the first rows comes first among all matches. */
  lemma MatchingPrefix(rest: seq<Issue>, lifecycle: map<int, LifecycleRecord>, status: Option<Status>, n: nat)
    requires n <= |rest|
    ensures Matching(rest[..n], lifecycle, status) <= Matching(rest, lifecycle, status)
    ensures Matching(rest, lifecycle, status) == Matching(rest[..n], lifecycle, status) + Matching(rest[n..], lifecycle, status)
  {
    assert rest == rest[..n] + rest[n..];
    MatchingAppend(rest[..n], rest[n..], lifecycle, status);
  }

  /** A row that adds a match adds it last. */
  lemma LastMatch(rest: seq<Issue>, lifecycle: map<int, LifecycleRecord>, status: Option<Status>, i: nat)
    requires i < |rest|
    requires |Matching(rest[..i], lifecycle, status)| < |Matching(rest[..i + 1], lifecycle, status)|
    ensures var m := Matching(rest[..i + 1], lifecycle, status); m[|m| - 1].issue == rest[i]
  {
    assert rest[..i + 1][..i] == rest[..i];
  }

  /** All matches were pushed and there is room left, or those up to the row `full` that used the last room. */
  ghost predicate Pushed(issues: seq<Issue>, lifecycle: map<int, LifecycleRecord>, status: Option<Status>, limit: nat,
                         before: seq<Enriched>, data: seq<Enriched>, full: Option<nat>) {
    match full
    case None => data == before + Matching(issues, lifecycle, status) && |data| < limit
    case Some(i) =>
      && i < |issues| && data == before + Matching(issues[..i + 1], lifecycle, status) && |data| == limit
      && |before + Matching(issues[..i], lifecycle, status)| < limit
  }

  /** The inner loop: push the matches of one page until the data is full, if it gets full at `index`. */
  method PushMatches(issues: seq<Issue>, lifecycle: map<int, LifecycleRecord>, status: Option<Status>, limit: nat, before: seq<Enriched>)
    returns (data: seq<Enriched>, full: Option<nat>)
    requires |before| < limit
    ensures Pushed(issues, lifecycle, status, limit, before, data, full)
  {
    data := before;
    for index := 0 to |issues|
      invariant data == before + Matching(issues[..index], lifecycle, status) && |data| < limit
    {
      assert issues[..index + 1][..index] == issues[..index];
      var enriched := Enrich(issues[index], lifecycle);
      if status.None? || enriched.status == status.value { data := data + [enriched]; }
      if |data| == limit { return data, Some(index); }
    }
    assert issues[..|issues|] == issues;
    full := None;
  }

  /** How scanning a further page extends what was matched. */
  lemma ScanFurther(rest: seq<Issue>, scanned: nat, page: seq<Issue>, n: nat, k: nat,
                    lifecycle: map<int, LifecycleRecord>, status: Option<Status>)
    requires scanned + |page| <= |rest| && page == rest[scanned..scanned + |page|] && n <= |page| && k == scanned + n
    ensures Matching(rest[..k], lifecycle, status) == Matching(rest[..scanned], lifecycle, status) + Matching(page[..n], lifecycle, status)
  {
    assert rest[..k] == rest[..scanned] + page[..n];
    MatchingAppend(rest[..scanned], page[..n], lifecycle, status);
  }

  /** The answer when the data fills up at `index` of a page read after `scanned` rows, which is row `k` of the rest. */
  lemma FullOnPage(table: seq<Issue>, lifecycle: map<int, LifecycleRecord>, status: Option<Status>, limit: nat, start: Option<Key>,
                   rest: seq<Issue>, scanned: nat, page: seq<Issue>, index: nat, k: nat, data: seq<Enriched>, more: seq<Enriched>)
    requires Descending(table) && limit > 0 && rest == After(table, start)
    requires scanned + |page| <= |rest| && page == rest[scanned..scanned + |page|] && index < |page| && k == scanned + index
    requires data == Matching(rest[..scanned], lifecycle, status)
    requires Pushed(page, lifecycle, status, limit, data, more, Some(index))
    ensures IssueQuery(table, lifecycle, status, limit, start) == Answer(more, if k + 1 < |rest| then Some(page[index].key) else None)
  {
    FullRow(rest, scanned, page, index, k, lifecycle, status, limit, data, more);
    FullAnswer(table, lifecycle, status, limit, start, rest, k);
  }

  lemma FullRow(rest: seq<Issue>, scanned: nat, page: seq<Issue>, index: nat, k: nat, lifecycle: map<int, LifecycleRecord>,
                status: Option<Status>, limit: nat, data: seq<Enriched>, more: seq<Enriched>)
    requires scanned + |page| <= |rest| && page == rest[scanned..scanned + |page|] && index < |page| && k == scanned + index
    requires data == Matching(rest[..scanned], lifecycle, status) && Pushed(page, lifecycle, status, limit, data, more, Some(index))
    ensures rest[k] == page[index] && more == Matching(rest[..k + 1], lifecycle, status)
    ensures |Matching(rest[..k], lifecycle, status)| < limit == |more|
  {
    ScanFurther(rest, scanned, page, index, k, lifecycle, status);
    ScanFurther(rest, scanned, page, index + 1, k + 1, lifecycle, status);
  }

  lemma NothingLeft(table: seq<Issue>, lifecycle: map<int, LifecycleRecord>, status: Option<Status>, limit: nat, start: Option<Key>)
    requires |Matching(After(table, start), lifecycle, status)| < limit
    ensures IssueQuery(table, lifecycle, status, limit, start) == Answer(Matching(After(table, start), lifecycle, status), None)
  {
  }

  /** Where the endpoint's loop stands: `scanned` rows are behind the cursor and `data` holds their matches. */
  ghost predicate Scanning(table: seq<Issue>, lifecycle: map<int, LifecycleRecord>, status: Option<Status>, limit: nat, start: Option<Key>,
                           cursor: Option<Key>, scanned: nat, data: seq<Enriched>) {
    var rest := After(table, start);
    && scanned <= |rest| && After(table, cursor) == rest[scanned..]
    && data == Matching(rest[..scanned], lifecycle, status) && |data| < limit
  }

  lemma WholePage(table: seq<Issue>, lifecycle: map<int, LifecycleRecord>, status: Option<Status>, limit: nat, start: Option<Key>,
                  cursor: Option<Key>, scanned: nat, data: seq<Enriched>, page: Page, more: seq<Enriched>)
    requires Scanning(table, lifecycle, status, limit, start, cursor, scanned, data) && LiesAt(table, page, After(table, start), scanned)
    requires Pushed(page.data, lifecycle, status, limit, data, more, None)
    ensures page.nextCursor.Some? ==>
              Scanning(table, lifecycle, status, limit, start, page.nextCursor, scanned + |page.data|, more)
    ensures page.nextCursor.None? ==> Answer(more, None) == IssueQuery(table, lifecycle, status, limit, start)
  {
    var rest := After(table, start);
    ScanWhole(rest, scanned, page.data, data, more, lifecycle, status, limit);
    if page.nextCursor.None? {
      assert rest[..scanned + |page.data|] == rest;
      NothingLeft(table, lifecycle, status, limit, start);
    }
  }

  lemma ScanWhole(rest: seq<Issue>, scanned: nat, page: seq<Issue>, data: seq<Enriched>, more: seq<Enriched>,
                  lifecycle: map<int, LifecycleRecord>, status: Option<Status>, limit: nat)
    requires scanned + |page| <= |rest| && page == rest[scanned..scanned + |page|]
    requires data == Matching(rest[..scanned], lifecycle, status) && Pushed(page, lifecycle, status, limit, data, more, None)
    ensures more == Matching(rest[..scanned + |page|], lifecycle, status) && |more| < limit
  {
    assert page[..|page|] == page;
    ScanFurther(rest, scanned, page, |page|, scanned + |page|, lifecycle, status);
  }

  lemma PartOfPage(table: seq<Issue>, lifecycle: map<int, LifecycleRecord>, status: Option<Status>, limit: nat, start: Option<Key>,
                   cursor: Option<Key>, scanned: nat, data: seq<Enriched>, page: Page, more: seq<Enriched>, index: nat)
    requires Descending(table)
    requires Scanning(table, lifecycle, status, limit, start, cursor, scanned, data) && LiesAt(table, page, After(table, start), scanned)
    requires index < |page.data| && Pushed(page.data, lifecycle, status, limit, data, more, Some(index))
    ensures IssueQuery(table, lifecycle, status, limit, start)
            == Answer(more, if index < |page.data| - 1 || page.nextCursor.Some? then Some(page.data[index].key) else None)
  {
    FullOnPage(table, lifecycle, status, limit, start, After(table, start), scanned, page.data, index, scanned + index, data, more);
  }

  /** One turn of the loop: read a page, push its matches, and answer or move the cursor on. */
  method ReadPage(table: seq<Issue>, lifecycle: map<int, LifecycleRecord>, status: Option<Status>, limit: nat, ghost start: Option<Key>,
                  cursor: Option<Key>, ghost scanned: nat, data: seq<Enriched>)
    returns (answer: Option<Answer>, next: Option<Key>, more: seq<Enriched>, ghost further: nat)
    requires Descending(table) && limit > 0 && Scanning(table, lifecycle, status, limit, start, cursor, scanned, data)
    ensures answer.Some? ==> answer.value == IssueQuery(table, lifecycle, status, limit, start)
    ensures answer.None? ==> further > scanned && Scanning(table, lifecycle, status, limit, start, next, further, more)
  {
    var page := ListStore(table, PAGE_LIMIT, cursor, After(table, start), scanned);
    var full;
    more, full := PushMatches(page.data, lifecycle, status, limit, data);
    further, next := scanned + |page.data|, page.nextCursor;
    if full.Some? {
      var index := full.value;
      PartOfPage(table, lifecycle, status, limit, start, cursor, scanned, data, page, more, index);
      var hasMore := index < |page.data| - 1 || page.nextCursor.Some?;
      answer := Some(Answer(more, if hasMore then Some(page.data[index].key) else None));
    } else {
      WholePage(table, lifecycle, status, limit, start, cursor, scanned, data, page, more);
      answer := if page.nextCursor.None? then Some(Answer(more, None)) else None;
    }
  }

  /** The list endpoint's loop answers the simple query, whatever the filter leaves of each page. */
  method ListIssues(table: seq<Issue>, lifecycle: map<int, LifecycleRecord>, status: Option<Status>, limit: nat, start: Option<Key>)
    returns (answer: Answer)
    requires Descending(table) && 1 <= limit <= 100
    ensures answer == IssueQuery(table, lifecycle, status, limit, start)
  {
    var data: seq<Enriched> := [];
    var cursor := start;
    ghost var scanned := 0;
    while true
      invariant Scanning(table, lifecycle, status, limit, start, cursor, scanned, data)
      decreases |After(table, start)| - scanned
    {
      var done;
      done, cursor, data, scanned := ReadPage(table, lifecycle, status, limit, start, cursor, scanned, data);
      if done.Some? { return done.value; }
    }
  }

  // ----- Following cursors -----------------------------------------------------------------------

  lemma CursorMovesOn(table: seq<Issue>, lifecycle: map<int, LifecycleRecord>, status: Option<Status>, limit: nat, cursor: Option<Key>)
    returns (i: nat)
    requires Descending(table) && limit > 0 && IssueQuery(table, lifecycle, status, limit, cursor).nextCursor.Some?
    ensures var rest := After(table, cursor); var q := IssueQuery(table, lifecycle, status, limit, cursor);
            && i < |rest| && After(table, q.nextCursor) == rest[i + 1..]
            && q.data == Matching(rest[..i + 1], lifecycle, status)
  {
    var rest := After(table, cursor);
    i := LimitReachedAt(rest, lifecycle, status, limit);
    FullAnswer(table, lifecycle, status, limit, cursor, rest, i);
    AfterStep(table, cursor, i);
  }

  /** The row at which the count of matches reaches the limit. */
  lemma {:induction false} LimitReachedAt(rest: seq<Issue>, lifecycle: map<int, LifecycleRecord>, status: Option<Status>, limit: nat)
    returns (i: nat)
    requires limit > 0 && |Matching(rest, lifecycle, status)| >= limit
    ensures i < |rest|
    ensures |Matching(rest[..i], lifecycle, status)| < limit && |Matching(rest[..i + 1], lifecycle, status)| == limit
    decreases |rest|
  {
    var n := |rest| - 1;
    if |Matching(rest[..n], lifecycle, status)| >= limit {
      i := LimitReachedAt(rest[..n], lifecycle, status, limit);
      assert rest[..n][..i] == rest[..i] && rest[..n][..i + 1] == rest[..i + 1];
    } else {
      i := n;
      assert rest[..n + 1] == rest;
    }
  }

  lemma CursorLeavesLess(table: seq<Issue>, lifecycle: map<int, LifecycleRecord>, status: Option<Status>, limit: nat, cursor: Option<Key>)
    requires Descending(table) && limit > 0 && IssueQuery(table, lifecycle, status, limit, cursor).nextCursor.Some?
    ensures |After(table, IssueQuery(table, lifecycle, status, limit, cursor).nextCursor)| < |After(table, cursor)|
  {
    var i := CursorMovesOn(table, lifecycle, status, limit, cursor);
  }

  /** All pages, each asked for from the previous page's cursor, with any limit each time. */
  ghost function Followed(table: seq<Issue>, lifecycle: map<int, LifecycleRecord>, status: Option<Status>,
                          limits: nat -> nat, page: nat, cursor: Option<Key>): seq<Enriched>
    requires Descending(table) && forall k :: limits(k) > 0
    decreases |After(table, cursor)|
  {
    var q := IssueQuery(table, lifecycle, status, limits(page), cursor);
    if q.nextCursor.None? then q.data
    else
      CursorLeavesLess(table, lifecycle, status, limits(page), cursor);
      q.data + Followed(table, lifecycle, status, limits, page + 1, q.nextCursor)
  }

  /** Following the cursors to the end yields every matching issue once, in order, whatever the limits. */
  lemma {:induction false} FollowingMissesNothing(table: seq<Issue>, lifecycle: map<int, LifecycleRecord>, status: Option<Status>,
                                                  limits: nat -> nat, page: nat, cursor: Option<Key>)
    requires Descending(table) && forall k :: limits(k) > 0
    ensures Followed(table, lifecycle, status, limits, page, cursor) == Matching(After(table, cursor), lifecycle, status)
    decreases |After(table, cursor)|
  {
    var limit := limits(page);
    var rest := After(table, cursor);
    var q := IssueQuery(table, lifecycle, status, limit, cursor);
    if q.nextCursor.Some? {
      var i := CursorMovesOn(table, lifecycle, status, limit, cursor);
      FollowingMissesNothing(table, lifecycle, status, limits, page + 1, q.nextCursor);
      MatchingPrefix(rest, lifecycle, status, i + 1);
    } else if |Matching(rest, lifecycle, status)| >= limit {
      var i := LimitReachedAt(rest, lifecycle, status, limit);
      FullAnswer(table, lifecycle, status, limit, cursor, rest, i);
      assert rest[..i + 1] == rest;
    }
  }

  // ----- The query in the rows' own fields -------------------------------------------------------

  /** The issue's status is what its lifecycle record says, and open without one. */
  ghost predicate HasStatus(issue: Issue, lifecycle: map<int, LifecycleRecord>, status: Status) {
    var fingerprint := issue.key.minor;
    if fingerprint in lifecycle then lifecycle[fingerprint].status == status else status == Open
  }

  ghost predicate IsEnriched(e: Enriched, issue: Issue, lifecycle: map<int, LifecycleRecord>) {
    && e.issue == issue && HasStatus(issue, lifecycle, e.status)
    && (issue.key.minor in lifecycle ==> e.statusUpdatedAt == Some(lifecycle[issue.key.minor].updatedAt))
    && (issue.key.minor !in lifecycle ==> e.statusUpdatedAt == None)
  }

  ghost predicate Rising(at: seq<nat>) { forall a, b :: 0 <= a < b < |at| ==> at[a] < at[b] }

  /** The matches are the rows with the wanted status, each once, in order, with their status. */
  lemma {:induction false} MatchingMeaning(issues: seq<Issue>, lifecycle: map<int, LifecycleRecord>, status: Option<Status>)
    returns (at: seq<nat>)
    ensures Rising(at) && |at| == |Matching(issues, lifecycle, status)|
    ensures forall k :: 0 <= k < |at| ==> at[k] < |issues| && IsEnriched(Matching(issues, lifecycle, status)[k], issues[at[k]], lifecycle)
    ensures forall i: nat :: i in at <==> i < |issues| && (status.None? || HasStatus(issues[i], lifecycle, status.value))
  {
    at := [];
    if issues != [] {
      var n := |issues| - 1;
      at := MatchingMeaning(issues[..n], lifecycle, status);
      assert forall i: nat :: i < n ==> issues[..n][i] == issues[i];
      assert IsEnriched(Enrich(issues[n], lifecycle), issues[n], lifecycle);
      if status.None? || HasStatus(issues[n], lifecycle, status.value) { at := at + [n]; }
    }
  }

  /** An answer is the first matches behind the cursor, as many as asked for; its cursor is the last one's, if rows follow. */
  lemma AnswerMeaning(table: seq<Issue>, lifecycle: map<int, LifecycleRecord>, status: Option<Status>, limit: nat, cursor: Option<Key>)
    requires limit > 0
    ensures var all := Matching(After(table, cursor), lifecycle, status); var q := IssueQuery(table, lifecycle, status, limit, cursor);
            && q.data <= all && |q.data| == (if |all| < limit then |all| else limit)
            && (q.nextCursor.Some? <==> |all| >= limit && After(table, Some(all[limit - 1].issue.key)) != [])
            && (q.nextCursor.Some? ==> q.nextCursor.value == q.data[limit - 1].issue.key)
  {
  }
}
