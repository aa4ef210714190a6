/** The session and page life cycle, and its bounded memory of the context each recent page was seen in. */
module PageLifecycle {
  import opened Events

  const MAX_PAGE_CONTEXT_HISTORY: nat := 32
  const ACTIVITY_PERSIST_INTERVAL_MS: int := 60000

  datatype Session = Session(id: nat, startedAt: int, lastActivityAt: int)
  datatype Page = Page(id: nat, url: nat)

  /** What events are stamped with: session id and start, and the page. */
  datatype Context = Context(sessionId: nat, startedAt: int, page: Page)

  datatype Visit = Visit(url: nat, context: Context)

  datatype Capture = SessionStart(at: int) | PageView(at: int) | RouteChange(at: int, previous: nat, next: nat)

  // ----- The most recent distinct pages --------------------------------------------------------------

  function WithoutUrl(s: seq<Visit>, url: nat): seq<Visit> {
    if s == [] then [] else (if s[0].url == url then [] else [s[0]]) + WithoutUrl(s[1..], url)
  }

  /** The last visit to each url, in order of those visits. */
  function Latest(history: seq<Visit>): seq<Visit> {
    if history == [] then []
    else if exists j :: 0 < j < |history| && history[j].url == history[0].url then Latest(history[1..])
    else [history[0]] + Latest(history[1..])
  }

  function LastOf(s: seq<Visit>, n: nat): seq<Visit> { if |s| > n then s[|s| - n..] else s }

  /** The last visits to the 32 most recently visited distinct urls. */
  function Recent(history: seq<Visit>): seq<Visit> { LastOf(Latest(history), MAX_PAGE_CONTEXT_HISTORY) }

  ghost predicate UniqueUrls(s: seq<Visit>) { forall i, j :: 0 <= i < j < |s| ==> s[i].url != s[j].url }

  function ContextOf(s: Session, p: Page): Context { Context(s.id, s.startedAt, p) }

  predicate Expired(s: Session, now: int, timeoutMs: int) {
    s.startedAt > now || s.lastActivityAt > now || now - s.lastActivityAt >= timeoutMs
  }

  /** What session storage holds and when it was last written. */
  datatype Disk = Disk(stored: Option<Session>, persistedAt: int)

  /** Storage is written at most once a minute unless forced, and may refuse (`ok` false). */
  function Persisted(d: Disk, session: Option<Session>, force: bool, now: int, ok: bool): Disk {
    if session.Some? && (force || now - d.persistedAt >= ACTIVITY_PERSIST_INTERVAL_MS) && ok then Disk(session, now) else d
  }

  /** A write happens if it is forced or the last is a minute old, and storage takes it; nothing else changes storage. */
  lemma PersistedMeaning(d: Disk, session: Session, force: bool, now: int, ok: bool)
    ensures var d' := Persisted(d, Some(session), force, now, ok);
            && (ok && (force || now >= d.persistedAt + 60_000) ==> d' == Disk(Some(session), now))
            && (!ok || (!force && now < d.persistedAt + 60_000) ==> d' == d)
            && (ok ==> now - d'.persistedAt < 60_000)
  {
  }

  // ----- Where one session ends and the next begins --------------------------------------------------

  /** A moment of activity, with the session it belongs to. */
  datatype Mark = Mark(at: int, session: nat, startedAt: int)

  /** From one moment to the next the clock did not go back, not even behind the session's start, and the timeout did not pass. */
  ghost predicate StaysActive(a: Mark, b: Mark, timeoutMs: int) {
    a.startedAt <= b.at && a.at <= b.at && b.at < a.at + timeoutMs
  }

  /** A session goes on exactly where it stays active, and elsewhere one begins. */
  ghost predicate SessionsOk(marks: seq<Mark>, timeoutMs: int) {
    forall i :: 0 <= i < |marks| - 1 ==>
      var a, b := marks[i], marks[i + 1];
      if StaysActive(a, b, timeoutMs) then b.session == a.session && b.startedAt == a.startedAt else b.startedAt == b.at
  }

  /** What an earlier page of the tab left as the last moment of activity. */
  function Before(stored: Option<Session>): seq<Mark> {
    if stored.Some? then [Mark(stored.value.lastActivityAt, stored.value.id, stored.value.startedAt)] else []
  }

  lemma MarkNext(marks: seq<Mark>, b: Mark, timeoutMs: int)
    requires SessionsOk(marks, timeoutMs)
    requires marks != [] ==>
               var a := marks[|marks| - 1];
               if StaysActive(a, b, timeoutMs) then b.session == a.session && b.startedAt == a.startedAt else b.startedAt == b.at
    ensures SessionsOk(marks + [b], timeoutMs)
  {
  }

  ghost predicate ClockForward(marks: seq<Mark>) {
    (marks != [] ==> marks[0].startedAt <= marks[0].at) && forall i :: 0 <= i < |marks| - 1 ==> marks[i].at <= marks[i + 1].at
  }

  ghost predicate NeverIdle(marks: seq<Mark>, i: nat, j: nat, timeoutMs: int) {
    forall k :: i <= k < j < |marks| ==> marks[k + 1].at < marks[k].at + timeoutMs
  }

  /** While the clock goes forward, two moments are in one session exactly if there was no timeout between them. */
  lemma {:induction false} SessionsSplitAtTimeouts(marks: seq<Mark>, i: nat, j: nat, timeoutMs: int)
    requires SessionsOk(marks, timeoutMs) && ClockForward(marks) && i <= j < |marks| && timeoutMs > 0
    ensures marks[i].startedAt <= marks[j].startedAt <= marks[j].at
    ensures marks[j].startedAt == marks[i].startedAt <==> NeverIdle(marks, i, j, timeoutMs)
    ensures NeverIdle(marks, i, j, timeoutMs) ==> marks[j].session == marks[i].session
    decreases j, i
  {
    if i < j {
      SessionsSplitAtTimeouts(marks, i, j - 1, timeoutMs);
      var a, b := marks[j - 1], marks[j];
      assert StaysActive(a, b, timeoutMs) <==> b.at < a.at + timeoutMs;
      assert NeverIdle(marks, i, j, timeoutMs) <==> NeverIdle(marks, i, j - 1, timeoutMs) && b.at < a.at + timeoutMs;
    } else if i > 0 {
      SessionsSplitAtTimeouts(marks, i - 1, i, timeoutMs);
    }
  }

  /** A page context is asked for by a url, by one that cannot be parsed, or without any. */
  datatype Asked = ForUrl(url: nat) | Unparsable | ForCurrent

  // ----- What the bounded map remembers ----------------------------------------------------------------

  lemma {:induction false} LatestMeaning(history: seq<Visit>)
    ensures UniqueUrls(Latest(history))
    ensures forall v :: v in Latest(history)
                        <==> exists i :: 0 <= i < |history| && history[i] == v && NotVisitedAfter(history, i)
  {
    if history != [] {
      var rest := history[1..];
      LatestMeaning(rest);
      forall v ensures v in Latest(history) <==> exists i :: 0 <= i < |history| && history[i] == v && NotVisitedAfter(history, i) {
        LatestMember(history, v);
      }
      forall i | 0 <= i < |Latest(rest)| ensures Latest(rest)[i] in rest {
        assert Latest(rest)[i] in Latest(rest);
      }
    }
  }

  ghost predicate NotVisitedAfter(history: seq<Visit>, i: nat) {
    i < |history| && forall j :: i < j < |history| ==> history[j].url != history[i].url
  }

  lemma LatestMember(history: seq<Visit>, v: Visit)
    requires history != []
    requires v in Latest(history[1..]) <==> exists i :: 0 <= i < |history[1..]| && history[1..][i] == v && NotVisitedAfter(history[1..], i)
    ensures v in Latest(history) <==> exists i :: 0 <= i < |history| && history[i] == v && NotVisitedAfter(history, i)
  {
    var rest := history[1..];
    forall i: nat | i < |rest| ensures NotVisitedAfter(rest, i) <==> NotVisitedAfter(history, i + 1) {
      assert forall j :: i < j < |rest| ==> rest[j] == history[j + 1];
      if NotVisitedAfter(rest, i) {
        forall j | i + 1 < j < |history| ensures history[j].url != history[i + 1].url {
          assert rest[j - 1] == history[j];
        }
      }
    }
    if i :| 0 <= i < |rest| && rest[i] == v && NotVisitedAfter(rest, i) {
      assert history[i + 1] == v && NotVisitedAfter(history, i + 1);
    }
    if i :| 0 <= i < |history| && history[i] == v && NotVisitedAfter(history, i) {
      if i > 0 { assert rest[i - 1] == v && NotVisitedAfter(rest, i - 1); }
    }
    if NotVisitedAfter(history, 0) && v == history[0] { assert v in Latest(history); }
  }

  /** `a` was last visited before `b` was. */
  ghost predicate LastVisitedBefore(history: seq<Visit>, a: Visit, b: Visit) {
    exists i, j :: 0 <= i < j < |history| && history[i] == a && history[j] == b
                   && NotVisitedAfter(history, i) && NotVisitedAfter(history, j)
  }

  lemma {:induction false} LatestOrdered(history: seq<Visit>, a: nat, b: nat)
    requires a < b < |Latest(history)|
    ensures LastVisitedBefore(history, Latest(history)[a], Latest(history)[b])
  {
    var rest := history[1..];
    LatestMeaning(history);
    if Latest(history) == Latest(rest) {
      LatestOrdered(rest, a, b);
      LaterInRest(history, Latest(rest)[a], Latest(rest)[b]);
    } else if a > 0 {
      LatestOrdered(rest, a - 1, b - 1);
      LaterInRest(history, Latest(rest)[a - 1], Latest(rest)[b - 1]);
    } else {
      var y := Latest(history)[b];
      assert y in Latest(history);
      var j :| 0 <= j < |history| && history[j] == y && NotVisitedAfter(history, j);
      assert y.url != Latest(history)[0].url;
      assert history[0] == Latest(history)[0] && NotVisitedAfter(history, 0);
    }
  }

  lemma LaterInRest(history: seq<Visit>, a: Visit, b: Visit)
    requires history != [] && LastVisitedBefore(history[1..], a, b)
    ensures LastVisitedBefore(history, a, b)
  {
    var rest := history[1..];
    var i, j :| 0 <= i < j < |rest| && rest[i] == a && rest[j] == b && NotVisitedAfter(rest, i) && NotVisitedAfter(rest, j);
    forall k: nat | k < |rest| && NotVisitedAfter(rest, k) ensures NotVisitedAfter(history, k + 1) {
      forall m | k + 1 < m < |history| ensures history[m].url != history[k + 1].url {
        assert rest[m - 1] == history[m];
      }
    }
    assert history[i + 1] == a && history[j + 1] == b;
  }

  /** A page is forgotten only once 32 other pages have been visited since. */
  lemma ForgottenOnlyForNewer(history: seq<Visit>, v: Visit)
    requires v in Latest(history) && v !in Recent(history)
    ensures |Recent(history)| == MAX_PAGE_CONTEXT_HISTORY
    ensures forall r :: r in Recent(history) ==> LastVisitedBefore(history, v, r)
  {
    var l := Latest(history);
    var recent := Recent(history);
    var a :| 0 <= a < |l| && l[a] == v;
    var cut := |l| - |recent|;
    assert forall k :: cut <= k < |l| ==> l[k] == recent[k - cut] && l[k] in recent;
    forall r | r in recent ensures LastVisitedBefore(history, v, r) {
      var b :| 0 <= b < |recent| && recent[b] == r;
      assert l[cut + b] == r;
      LatestOrdered(history, a, cut + b);
    }
  }

  /** What the map holds, whatever the history: distinct urls, at most 32, each with its last visit. */
  lemma RecentMeaning(history: seq<Visit>)
    ensures UniqueUrls(Recent(history)) && |Recent(history)| <= MAX_PAGE_CONTEXT_HISTORY
    ensures forall v :: v in Recent(history) ==> exists i :: 0 <= i < |history| && history[i] == v && NotVisitedAfter(history, i)
    ensures |Latest(history)| <= MAX_PAGE_CONTEXT_HISTORY ==> Recent(history) == Latest(history)
  {
    LatestMeaning(history);
    var l := Latest(history);
    assert forall v :: v in Recent(history) ==> v in l;
  }

  lemma {:induction false} WithoutUrlAppend(a: seq<Visit>, b: seq<Visit>, url: nat)
    ensures WithoutUrl(a + b, url) == WithoutUrl(a, url) + WithoutUrl(b, url)
  {
    if a == [] {
      assert a + b == b;
    } else {
      assert (a + b)[1..] == a[1..] + b;
      WithoutUrlAppend(a[1..], b, url);
    }
  }

  /** Another visit removes the url's earlier entry and goes to the end. */
  lemma {:induction false} LatestStep(history: seq<Visit>, v: Visit)
    ensures Latest(history + [v]) == WithoutUrl(Latest(history), v.url) + [v]
  {
    if history == [] {
      assert [v][1..] == [];
      assert [] + [v] == [v];
    } else {
      LatestStep(history[1..], v);
      var more := history + [v];
      assert more[1..] == history[1..] + [v];
      WithoutUrlAppend([history[0]], Latest(history[1..]), v.url);
      if j :| 0 < j < |history| && history[j].url == history[0].url {
        assert more[j].url == more[0].url;
      } else if history[0].url == v.url {
        assert more[|history|].url == more[0].url;
        assert Latest(history) == [history[0]] + Latest(history[1..]);
      } else {
        assert forall j :: 0 < j < |more| ==> more[j] == (if j < |history| then history[j] else v);
        assert Latest(more) == [history[0]] + Latest(more[1..]);
      }
    }
  }

  /** Removing an entry and cutting to 32 commute, once the new entry is in. */
  lemma {:induction false} CutStep(l: seq<Visit>, v: Visit, n: nat)
    requires n > 0 && UniqueUrls(l)
    ensures LastOf(WithoutUrl(LastOf(l, n), v.url) + [v], n) == LastOf(WithoutUrl(l, v.url) + [v], n)
    decreases |l|
  {
    if |l| > n {
      var rest := l[1..];
      CutStep(rest, v, n);
      LastOfCons(l[0], rest, n);
      assert [l[0]] + rest == l;
      WithoutShrinksByOne(rest, v.url);
      var kept := WithoutUrl(rest, v.url) + [v];
      if l[0].url != v.url {
        LastOfCons(l[0], kept, n);
        assert WithoutUrl(l, v.url) + [v] == [l[0]] + kept;
      } else {
        assert WithoutUrl(l, v.url) == WithoutUrl(rest, v.url);
      }
    }
  }

  lemma LastOfCons(x: Visit, s: seq<Visit>, n: nat)
    requires |s| >= n
    ensures LastOf([x] + s, n) == LastOf(s, n)
  {
    assert ([x] + s)[|s| + 1 - n..] == s[|s| - n..];
  }

  lemma {:induction false} WithoutShrinksByOne(l: seq<Visit>, url: nat)
    requires UniqueUrls(l)
    ensures |WithoutUrl(l, url)| >= |l| - 1
    ensures (forall i :: 0 <= i < |l| ==> l[i].url != url) ==> WithoutUrl(l, url) == l
  {
    if l != [] {
      WithoutShrinksByOne(l[1..], url);
      if l[0].url == url {
        assert forall i :: 0 <= i < |l[1..]| ==> l[1..][i].url != url;
      }
    }
  }

  lemma RecentStep(history: seq<Visit>, v: Visit)
    ensures Recent(history + [v]) == LastOf(WithoutUrl(Recent(history), v.url) + [v], MAX_PAGE_CONTEXT_HISTORY)
  {
    LatestStep(history, v);
    LatestMeaning(history);
    CutStep(Latest(history), v, MAX_PAGE_CONTEXT_HISTORY);
  }

  // ----- The lifecycle -----------------------------------------------------------------------

  class SessionPageLifecycle {
    const timeoutMs: int
    var contextsByUrl: seq<Visit>
    var session: Option<Session>
    var page: Option<Page>
    var started: bool
    var lastPersistedAt: int
    var stored: Option<Session>
    var hostContext: Option<Context>
    var captures: seq<Capture>
    ghost var history: seq<Visit>
    ghost var activity: seq<Mark>

    /**
     * The map remembers exactly the recent pages, the current one among them with the current context, which
     * is also the one the host stamps events with; and since the start a session has gone on exactly where it
     * stayed active.
     */
    ghost predicate Valid()
      reads this
    {
      && contextsByUrl == Recent(history)
      && (session.Some? <==> page.Some?)
      && (session.Some? ==> contextsByUrl != [] && contextsByUrl[|contextsByUrl| - 1] == Visit(page.value.url, Current()))
      && (session.Some? ==> hostContext == Some(Current()))
      && SessionsOk(activity, timeoutMs)
      && (session.Some? ==> activity != [] && activity[|activity| - 1] == Now())
    }

    ghost function Now(): Mark
      reads this
      requires session.Some?
    {
      Mark(session.value.lastActivityAt, session.value.id, session.value.startedAt)
    }

    ghost function Current(): Context
      reads this
      requires session.Some? && page.Some?
    {
      Context(session.value.id, session.value.startedAt, page.value)
    }

    ghost function OnDisk(): Disk
      reads this
    {
      Disk(stored, lastPersistedAt)
    }

    /** `stored` is what an earlier page of the tab left in session storage. */
    constructor (timeoutMs: int, stored: Option<Session>)
      requires timeoutMs > 0
      ensures Valid() && !started && session.None? && this.timeoutMs == timeoutMs && history == [] && captures == [] && activity == []
      ensures OnDisk() == Disk(stored, 0)
    {
      this.timeoutMs := timeoutMs;
      contextsByUrl, session, page, started := [], None, None, false;
      this.stored, lastPersistedAt, hostContext, captures := stored, 0, None, [];
      history, activity := [], [];
    }

    /** Tell the host, and move this page's url to the recent end of the map, dropping the oldest beyond 32. */
    method ApplyContext()
      requires session.Some? && page.Some? && contextsByUrl == Recent(history)
      requires SessionsOk(activity, timeoutMs) && activity != [] && activity[|activity| - 1] == Now()
      modifies this`contextsByUrl, this`hostContext, this`history
      ensures Valid()
      ensures history == old(history) + [Visit(page.value.url, Current())]
    {
      var context := ContextOf(session.value, page.value);
      var url := page.value.url;
      hostContext := Some(context);
      ghost var visit := Visit(url, context);
      RecentStep(history, visit);
      contextsByUrl := WithoutUrl(contextsByUrl, url);
      contextsByUrl := contextsByUrl + [Visit(url, context)];
      ghost var grown := contextsByUrl;
      while |contextsByUrl| > MAX_PAGE_CONTEXT_HISTORY
        invariant LastOf(contextsByUrl, MAX_PAGE_CONTEXT_HISTORY) == LastOf(grown, MAX_PAGE_CONTEXT_HISTORY)
        modifies this`contextsByUrl
        decreases |contextsByUrl|
      {
        contextsByUrl := contextsByUrl[1..];
      }
      history := history + [visit];
    }

    method PersistSession(force: bool, now: int, ok: bool)
      modifies this`lastPersistedAt, this`stored
      ensures OnDisk() == Persisted(old(OnDisk()), session, force, now, ok)
    {
      if session.None? || (!force && now - lastPersistedAt < ACTIVITY_PERSIST_INTERVAL_MS) { return; }
      if ok { stored, lastPersistedAt := session, now; }
    }

    /** The stored session goes on if it is still usable; `next` is the page now shown. */
    method Start(now: int, next: Page, newId: nat, ok: bool)
      requires Valid()
      modifies this
      ensures Valid() && started
      ensures old(started) ==>
                && history == old(history) && session == old(session) && page == old(page) && captures == old(captures)
                && OnDisk() == old(OnDisk()) && activity == old(activity)
      ensures !old(started) ==>
                var resumes := old(stored).Some? && !Expired(old(stored).value, now, timeoutMs);
                && page == Some(next)
                && session == Some(if resumes then old(stored).value.(lastActivityAt := now) else Session(newId, now, now))
                && history == old(history) + [Visit(next.url, Current())]
                && captures == old(captures) + (if resumes then [] else [SessionStart(now)]) + [PageView(now)]
                && OnDisk() == Persisted(old(OnDisk()), session, true, now, ok)
                && activity == Before(old(stored)) + [Now()]
    {
      if started { return; }
      started := true;
      var existing := if stored.Some? && !Expired(stored.value, now, timeoutMs) then stored else None;
      session := Some((if existing.Some? then existing.value else Session(newId, now, now)).(lastActivityAt := now));
      page := Some(next);
      MarkNext(Before(stored), Now(), timeoutMs);
      activity := Before(stored) + [Now()];
      ApplyContext();
      PersistSession(true, now, ok);
      if existing.None? { captures := captures + [SessionStart(now)]; }
      captures := captures + [PageView(now)];
    }

    /** Activity: renew an expired session with a new page context, or note the time. */
    method Touch(now: int, next: Page, newId: nat, ok: bool)
      requires Valid()
      modifies this
      ensures Valid() && started == old(started)
      ensures if started && old(session).Some? && Expired(old(session).value, now, timeoutMs) then
                && session == Some(Session(newId, now, now)) && page == Some(next)
                && history == old(history) + [Visit(next.url, Current())]
                && captures == old(captures) + [SessionStart(now), PageView(now)]
                && OnDisk() == Persisted(old(OnDisk()), session, true, now, ok)
              else
                && page == old(page) && history == old(history) && captures == old(captures)
                && session == (if started && old(session).Some? then Some(old(session).value.(lastActivityAt := now)) else old(session))
                && OnDisk() == if started then Persisted(old(OnDisk()), session, false, now, ok) else old(OnDisk())
      ensures activity == if started && session.Some? then old(activity) + [Now()] else old(activity)
      ensures activity != old(activity) ==> Now().at == now
    {
      if !started || session.None? { return; }
      if Expired(session.value, now, timeoutMs) {
        session := Some(Session(newId, now, now));
        page := Some(next);
        MarkNext(activity, Now(), timeoutMs);
        activity := activity + [Now()];
        ApplyContext();
        PersistSession(true, now, ok);
        captures := captures + [SessionStart(now)];
        captures := captures + [PageView(now)];
        return;
      }
      session := Some(session.value.(lastActivityAt := now));
      MarkNext(activity, Now(), timeoutMs);
      activity := activity + [Now()];
      PersistSession(false, now, ok);
    }

    /** A navigation: the same url is only activity; another starts a page, and a session if the old one expired. */
    method HandleNavigation(now: int, next: Page, renewed: Page, newId: nat, ok: bool)
      requires Valid()
      modifies this
      ensures Valid() && started == old(started)
      ensures !started || old(session).None? ==>
                && session == old(session) && page == old(page) && history == old(history) && captures == old(captures)
                && OnDisk() == old(OnDisk()) && activity == old(activity)
      ensures started && old(session).Some? ==>
                var expired := Expired(old(session).value, now, timeoutMs);
                var moved := next.url != old(page).value.url;
                && session == Some(if expired then Session(newId, now, now) else old(session).value.(lastActivityAt := now))
                && page == (if moved then Some(next) else if expired then Some(renewed) else old(page))
                && history == old(history) + (if moved || expired then [Visit(page.value.url, Current())] else [])
                && activity == old(activity) + [Now()] && Now().at == now
                && captures == old(captures)
                               + (if expired then [SessionStart(now)] else [])
                               + (if moved then [RouteChange(now, old(page).value.url, next.url)]
                                  else if expired then [PageView(now)] else [])
                && OnDisk() == Persisted(old(OnDisk()), session, moved || expired, now, ok)
    {
      if !started || session.None? || page.None? { return; }
      if next.url == page.value.url {
        Touch(now, renewed, newId, ok);
        return;
      }
      var previous := page.value.url;
      var expired := Expired(session.value, now, timeoutMs);
      session := Some(if expired then Session(newId, now, now) else session.value.(lastActivityAt := now));
      page := Some(next);
      MarkNext(activity, Now(), timeoutMs);
      activity := activity + [Now()];
      ApplyContext();
      PersistSession(true, now, ok);
      if expired { captures := captures + [SessionStart(now)]; }
      captures := captures + [RouteChange(now, previous, next.url)];
    }

    /** Stopping ends what the browser reports; session, page and remembered contexts stay. */
    method Stop()
      requires Valid()
      modifies this`started
      ensures Valid() && !started
    {
      started := false;
    }

    /** The context an event reported for a url is stamped with: the latest one that page was seen in. */
    method ContextForNavigationUrl(asked: Asked) returns (context: Option<Context>)
      requires Valid()
      ensures match asked
              case ForUrl(url) =>
                && (context.Some? ==> Visit(url, context.value) in Recent(history))
                && (context.None? ==> forall v :: v in Recent(history) ==> v.url != url)
                && (session.Some? && page.value.url == url ==> context == Some(Current()))
              case Unparsable => context == None
              case ForCurrent => context == if session.Some? then Some(Current()) else None
    {
      context := None;
      match asked {
        case Unparsable =>
        case ForCurrent => if session.Some? { context := Some(ContextOf(session.value, page.value)); }
        case ForUrl(url) =>
          RecentMeaning(history);
          for i := 0 to |contextsByUrl|
            invariant context.Some? ==> Visit(url, context.value) in contextsByUrl[..i]
            invariant context.None? ==> forall v :: v in contextsByUrl[..i] ==> v.url != url
          {
            if contextsByUrl[i].url == url { context := Some(contextsByUrl[i].context); }
          }
          assert contextsByUrl[..|contextsByUrl|] == contextsByUrl;
      }
    }
  }
}
