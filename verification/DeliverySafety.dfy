/** What holds in every state of the delivery protocol, whatever interleaving led there. */
module DeliverySafety {
  import opened Events
  import opened Lists
  import opened EventQueues
  import opened QueueProperties
  import opened QueueDelivery
  import opened QueueAttempts
  import opened StableSorting
  import opened Outbox
  import opened Delivery

  // ----- The invariant ---------------------------------------------------------------------------

  /** At most one flush operation exists, and it is the one new calls join. */
  ghost predicate SingleFlight(c: Client) {
    match c.current
    case None => c.ops == map[]
    case Some(k) => c.ops.Keys == {k} && k < c.nextOp
  }

  /** The records handed to the transport and not answered yet. */
  function InFlight(c: Client): seq<Record> {
    if c.current.Some? && c.current.value in c.ops && c.ops[c.current.value].Sending?
    then c.ops[c.current.value].records else []
  }

  /** Everything the client holds: queued or in flight. */
  ghost function Memory(c: Client): multiset<Record> {
    multiset(c.queue) + multiset(InFlight(c))
  }

  ghost predicate Distinct(m: multiset<Record>) {
    && (forall x :: x in m ==> m[x] == 1)
    && (forall x, y :: x in m && y in m && x.event.id == y.event.id ==> x == y)
  }

  ghost predicate Held(w: World, x: Record) {
    && x.attempts < MAX_DELIVERY_ATTEMPTS && x.event.bytes <= MAX_EVENT_BYTES
    && x.event.id in w.known && x.event.id !in w.acked && x.event.id !in w.dropped
    && (x.priority == Immediate ==> x.event.id in w.accepted)
  }

  ghost predicate MemoryOk(w: World) {
    && Distinct(Memory(w.client))
    && (forall x :: x in Memory(w.client) ==> Held(w, x))
    && WithinCapacity(w.client.queue)
  }

  /** Until the restore is over nothing has been sent, and what it will bring in is apart from what came since. */
  ghost predicate StartupOk(w: World) {
    var c := w.client;
    && (!c.startup.Ready? ==>
          w.sends == multiset{} && w.acked == {} && forall k :: k in c.ops ==> c.ops[k].AwaitReady? || c.ops[k].Settled?)
    && (c.startup.Loading? || c.startup.Loaded? ==>
          w.dropped <= w.captured && forall x :: x in Memory(c) ==> x.event.id in w.captured)
    && (c.startup.Loading? ==> StoredIds(w.durable) !! w.captured)
    && (c.startup.Loaded? ==>
          && Distinct(multiset(c.startup.records))
          && Ids(c.startup.records) !! w.captured
          && Ids(c.startup.records) <= StoredIds(w.durable)
          && WithinCapacity(c.startup.records)
          && forall r :: r in c.startup.records ==> r.attempts < MAX_DELIVERY_ATTEMPTS && r.priority == Immediate)
  }

  ghost predicate OutboxOk(w: World, l: Limits) {
    && UniqueIds(w.durable) && (forall s :: s in w.durable ==> s.scope == SCOPE)
    && |w.durable| <= l.maxEvents && Size(w.durable) <= l.maxBytes
    && StoredIds(w.durable) <= w.accepted
    && w.lost !! StoredIds(w.durable)
    && (forall p :: p in w.client.pending && p.Save? ==> Ids(p.records) <= w.accepted)
    && (forall p :: p in w.client.pending && p.Remove? ==> IdSet(p.ids) <= w.dropped)
    && w.accepted <= w.known && w.captured <= w.known && w.acked <= w.known && w.dropped <= w.known
  }

  datatype Mention = Unmentioned | LastSaved | LastRemoved

  function MentionIn(p: Write, id: nat): Mention {
    match p
    case Save(records) => if id in Ids(records) then LastSaved else Unmentioned
    case Remove(ids) => if id in ids then LastRemoved else Unmentioned
  }

  /** What the last pending write that concerns an id will do to it. */
  function LastMention(pending: seq<Write>, id: nat): Mention {
    if pending == [] then Unmentioned
    else
      var n := |pending| - 1;
      if MentionIn(pending[n], id) != Unmentioned then MentionIn(pending[n], id) else LastMention(pending[..n], id)
  }

  /** The outbox holds the event once the pending writes have been applied in order. */
  ghost predicate Secured(w: World, id: nat) {
    match LastMention(w.client.pending, id)
    case LastSaved => true
    case LastRemoved => false
    case Unmentioned => id in StoredIds(w.durable)
  }

  ghost predicate AllSecured(w: World) {
    forall id :: id in w.accepted && id !in w.acked && id !in w.dropped && id !in w.lost ==> Secured(w, id)
  }

  /** No event is sent more than eight times, counting the send under way. */
  ghost predicate SendsOk(w: World) {
    && (forall x :: x in w.client.queue ==> w.sends[x.event.id] <= x.attempts)
    && (forall x :: x in InFlight(w.client) ==> w.sends[x.event.id] <= x.attempts + 1)
    && (forall id :: w.sends[id] <= MAX_DELIVERY_ATTEMPTS)
    && (forall id :: id in w.sends ==> id in w.known)
  }

  /** An operation that is removing delivered events removes acknowledged ones. */
  ghost predicate RemovalsOk(w: World) {
    forall k :: k in w.client.ops && w.client.ops[k].Removing? ==> Ids(w.client.ops[k].records) <= w.acked
  }

  ghost predicate Inv(w: World, l: Limits) {
    && ValidLimits(l)
    && SingleFlight(w.client) && MemoryOk(w) && StartupOk(w) && OutboxOk(w, l)
    && AllSecured(w) && SendsOk(w) && RemovalsOk(w)
  }

  // ----- Small facts -----------------------------------------------------------------------------

  lemma {:induction false} UrgentIdsMeaning(records: seq<Record>)
    ensures forall id :: id in UrgentIds(records) <==> exists r :: r in records && r.priority == Immediate && r.event.id == id
  {
    if records != [] {
      UrgentIdsMeaning(records[1..]);
      assert forall r :: r in records <==> r == records[0] || r in records[1..];
    }
  }

  lemma MentionAppend(pending: seq<Write>, p: Write, id: nat)
    ensures LastMention(pending + [p], id) == if MentionIn(p, id) != Unmentioned then MentionIn(p, id) else LastMention(pending, id)
  {
    assert (pending + [p])[..|pending|] == pending;
  }

  lemma {:induction false} MentionHead(pending: seq<Write>, id: nat)
    requires pending != []
    ensures LastMention(pending, id)
            == if LastMention(pending[1..], id) != Unmentioned then LastMention(pending[1..], id) else MentionIn(pending[0], id)
  {
    var n := |pending| - 1;
    if n > 0 {
      MentionHead(pending[..n], id);
      assert pending[..n][1..] == pending[1..][..n - 1];
      assert pending[1..][n - 1] == pending[n];
    } else {
      assert pending[..0] == [];
    }
  }

  lemma PersistMention(pending: seq<Write>, records: seq<Record>, id: nat)
    ensures LastMention(Persist(pending, records), id) == if id in Ids(records) then LastSaved else LastMention(pending, id)
  {
    if records != [] { MentionAppend(pending, Save(records), id); }
  }

  lemma RemoveMention(pending: seq<Write>, ids: seq<nat>, id: nat)
    ensures LastMention(RemovePersisted(pending, ids), id) == if id in ids then LastRemoved else LastMention(pending, id)
  {
    if ids != [] { MentionAppend(pending, Remove(ids), id); }
  }

  lemma {:induction false} WithoutIdsMembers(s: seq<Stored>, ids: set<nat>)
    ensures forall x :: x in WithoutIds(s, ids) <==> x in s && IdOf(x) !in ids
    ensures |WithoutIds(s, ids)| <= |s| && Size(WithoutIds(s, ids)) <= Size(s)
  {
    if s != [] {
      WithoutIdsMembers(s[1..], ids);
      assert forall x :: x in s <==> x == s[0] || x in s[1..];
      SizeAppend(if IdOf(s[0]) in ids then [] else [s[0]], WithoutIds(s[1..], ids));
    }
  }

  lemma {:induction false} WithoutIdsUnique(s: seq<Stored>, ids: set<nat>)
    requires UniqueIds(s)
    ensures UniqueIds(WithoutIds(s, ids))
  {
    if s != [] {
      WithoutIdsUnique(s[1..], ids);
      WithoutIdsMembers(s[1..], ids);
      var rest := WithoutIds(s[1..], ids);
      forall i | 0 <= i < |rest| ensures IdOf(rest[i]) != IdOf(s[0]) {
        assert rest[i] in rest;
      }
    }
  }

  lemma WithoutIdsMeaning(s: seq<Stored>, ids: set<nat>)
    requires UniqueIds(s)
    ensures var r := WithoutIds(s, ids);
            && (forall x :: x in r <==> x in s && IdOf(x) !in ids)
            && UniqueIds(r) && |r| <= |s| && Size(r) <= Size(s)
            && StoredIds(r) == StoredIds(s) - ids
  {
    WithoutIdsMembers(s, ids);
    WithoutIdsUnique(s, ids);
  }

  lemma {:induction false} SizePermuted(a: seq<Stored>, b: seq<Stored>)
    requires multiset(a) == multiset(b)
    ensures Size(a) == Size(b) && |a| == |b|
  {
    assert |multiset(a)| == |a| && |multiset(b)| == |b|;
    if a != [] {
      assert a[0] in multiset(b);
      var i :| 0 <= i < |b| && b[i] == a[0];
      BothWithout(a, b, i);
      assert b == b[..i] + ([b[i]] + b[i + 1..]);
      SizePermuted(a[1..], b[..i] + b[i + 1..]);
      SizeAppend(b[..i], [b[i]] + b[i + 1..]);
      SizeAppend(b[..i], b[i + 1..]);
    }
  }

  lemma {:induction false} UniqueIdsCounts(s: seq<Stored>)
    requires UniqueIds(s)
    ensures forall x :: x in s ==> multiset(s)[x] == 1
    ensures forall x, y :: x in s && y in s && IdOf(x) == IdOf(y) ==> x == y
  {
    if s != [] {
      UniqueIdsCounts(s[1..]);
      assert s == [s[0]] + s[1..];
      assert s[0] !in s[1..];
    }
  }

  lemma UniqueIdsPermuted(a: seq<Stored>, b: seq<Stored>)
    requires UniqueIds(a) && multiset(a) == multiset(b)
    ensures UniqueIds(b) && StoredIds(a) == StoredIds(b)
    ensures forall x :: x in a <==> x in b
  {
    UniqueIdsCounts(a);
    forall x ensures x in a <==> x in b {
      assert x in a <==> x in multiset(a);
      assert x in b <==> x in multiset(b);
    }
    assert forall x :: x in b ==> multiset(b)[x] == 1;
    UniqueFromCounts(b);
  }

  lemma TwiceCounted<T>(s: seq<T>, i: nat, j: nat)
    requires i < j < |s| && s[i] == s[j]
    ensures multiset(s)[s[i]] >= 2
  {
    assert s == s[..j] + s[j..];
    assert s[..j][i] == s[i] && s[j..][0] == s[j];
  }

  lemma UniqueFromCounts(s: seq<Stored>)
    requires forall x :: x in s ==> multiset(s)[x] == 1
    requires forall x, y :: x in s && y in s && IdOf(x) == IdOf(y) ==> x == y
    ensures UniqueIds(s)
  {
    forall i, j | 0 <= i < j < |s| ensures IdOf(s[i]) != IdOf(s[j]) {
      if s[i] == s[j] { TwiceCounted(s, i, j); }
    }
  }

  lemma {:induction false} LoadableShrinks(s: seq<Stored>, ttlMs: nat, now: int)
    ensures |LoadableOnly(s, ttlMs, now)| <= |s| && Size(LoadableOnly(s, ttlMs, now)) <= Size(s)
  {
    if s != [] {
      var n := |s| - 1;
      LoadableShrinks(s[..n], ttlMs, now);
      assert s == s[..n] + [s[n]];
      SizeAppend(s[..n], [s[n]]);
      SizeAppend(LoadableOnly(s[..n], ttlMs, now), if Loadable(s[n], ttlMs, now) then [s[n]] else []);
    }
  }

  // ----- Every step keeps the invariant ----------------------------------------------------------

  lemma DistinctPart(all: multiset<Record>, part: multiset<Record>)
    requires Distinct(all) && part <= all
    ensures Distinct(part)
  {
  }

  /** Two parts of a distinct whole share no id. */
  lemma DistinctParts(all: multiset<Record>, a: multiset<Record>, b: multiset<Record>)
    requires Distinct(all) && a + b <= all
    ensures forall x, y :: x in a && y in b ==> x.event.id != y.event.id
  {
    forall x, y | x in a && y in b ensures x.event.id != y.event.id {
      assert x in all && y in all;
      assert (a + b)[x] == a[x] + b[x] <= all[x];
    }
  }

  lemma DistinctFresh(m: multiset<Record>, r: Record)
    requires Distinct(m) && forall x :: x in m ==> x.event.id != r.event.id
    ensures Distinct(m + multiset{r})
  {
  }

  /** What stays shares no id with what went. */
  lemma GoneApart(all: multiset<Record>, kept: multiset<Record>, gone: seq<Record>)
    requires Distinct(all) && kept + multiset(gone) <= all
    ensures forall x :: x in kept ==> x.event.id !in Ids(gone)
  {
    DistinctParts(all, kept, multiset(gone));
    assert forall y :: y in gone ==> y in multiset(gone);
  }

  /** Memory that only lost records, each id newly acknowledged or dropped being one of theirs, is still in order. */
  lemma MemoryShrinks(w: World, w': World, gone: seq<Record>)
    requires MemoryOk(w) && Memory(w'.client) + multiset(gone) <= Memory(w.client)
    requires w'.acked <= w.acked + Ids(gone) && w'.dropped <= w.dropped + Ids(gone)
    requires w.accepted <= w'.accepted && w.known <= w'.known && WithinCapacity(w'.client.queue)
    ensures MemoryOk(w')
  {
    GoneApart(Memory(w.client), Memory(w'.client), gone);
    forall x | x in Memory(w'.client) ensures Held(w', x) {
      assert Held(w, x);
    }
  }

  /** The same when one fresh record may have come in. */
  lemma MemoryTakesOne(w: World, w': World, r: Record, gone: seq<Record>)
    requires MemoryOk(w) && Memory(w'.client) + multiset(gone) <= Memory(w.client) + multiset{r}
    requires r.event.id !in w.known && w.acked <= w.known && w.dropped <= w.known
    requires r.attempts == 0 && r.event.bytes <= MAX_EVENT_BYTES
    requires r in Memory(w'.client) && r.priority == Immediate ==> r.event.id in w'.accepted
    requires w'.acked <= w.acked + Ids(gone) && w'.dropped <= w.dropped + Ids(gone)
    requires w.accepted <= w'.accepted && w'.known == w.known + {r.event.id} && WithinCapacity(w'.client.queue)
    ensures MemoryOk(w')
  {
    assert forall x :: x in Memory(w.client) ==> Held(w, x);
    var all := Memory(w.client) + multiset{r};
    DistinctFresh(Memory(w.client), r);
    GoneApart(all, Memory(w'.client), gone);
    forall x | x in Memory(w'.client) ensures Held(w', x) {
      assert x in all;
    }
  }

  lemma EvictedFromQueue(q: seq<Record>, r: Record)
    ensures forall x :: x in EnqueueSpec(q, r).evicted ==> x in q
    ensures forall x :: x in EnqueueSpec(q, r).queue ==> x in q || (x == r && EnqueueSpec(q, r).verdict == Accepted)
  {
    var k := EvictionsNeeded(q, r.event.bytes, Evictable(q, r.priority), 0);
    EvictedMembers(q, k);
    EvictedConserves(q, k);
    assert forall x :: x in EvictionOrder(q)[..k] ==> x in multiset(EvictionOrder(q)[..k]) && x in multiset(q);
  }

  lemma AddToBoth<T>(a: multiset<T>, b: multiset<T>, c: multiset<T>, d: multiset<T>, more: multiset<T>)
    requires a + b <= c + d
    ensures (a + more) + b <= (c + more) + d
  {
    assert (a + more) + b == (a + b) + more;
    assert (c + more) + d == (c + d) + more;
  }

  lemma CaptureMemory(w: World, w': World, r: Record, e: EnqueueOutcome)
    requires MemoryOk(w) && w.acked <= w.known && w.dropped <= w.known
    requires r.attempts == 0 && r.event.bytes <= MAX_EVENT_BYTES && r.event.id !in w.known
    requires multiset(e.queue) + multiset(e.evicted) <= multiset(w.client.queue) + multiset{r} && WithinCapacity(e.queue)
    requires forall x :: x in e.queue ==> x in w.client.queue || (x == r && e.verdict == Accepted)
    requires w'.client.queue == e.queue && InFlight(w'.client) == InFlight(w.client)
    requires w'.acked == w.acked && w'.dropped == w.dropped + Ids(e.evicted) && w'.known == w.known + {r.event.id}
    requires w'.accepted == w.accepted + (if e.verdict == Accepted && r.priority == Immediate then {r.event.id} else {})
    ensures MemoryOk(w')
  {
    AddToBoth(multiset(e.queue), multiset(e.evicted), multiset(w.client.queue), multiset{r}, multiset(InFlight(w.client)));
    if r in Memory(w'.client) {
      assert forall x :: x in Memory(w.client) ==> Held(w, x);
      assert r !in multiset(w.client.queue) && r !in multiset(InFlight(w.client));
      assert r in e.queue;
    }
    MemoryTakesOne(w, w', r, e.evicted);
  }

  /** An urgent event the queue lets go is removed; one it takes is saved, after any removal. */
  lemma CaptureMentions(c: Client, r: Record, id: nat)
    ensures var e := EnqueueSpec(c.queue, r);
            LastMention(Capture(c, r).pending, id)
            == if id == r.event.id && e.verdict == Accepted && r.priority == Immediate then LastSaved
               else if id in UrgentIds(e.evicted) then LastRemoved
               else LastMention(c.pending, id)
  {
    var e := EnqueueSpec(c.queue, r);
    var removed := RemovePersisted(c.pending, UrgentIds(e.evicted));
    RemoveMention(c.pending, UrgentIds(e.evicted), id);
    PersistMention(removed, [r], id);
  }

  /** Writes appended to the chain keep every event secured that they do not remove for good. */
  lemma SecuredAfterWrites(w: World, w': World, saved: set<nat>, removed: set<nat>)
    requires AllSecured(w) && w'.durable == w.durable && w'.lost == w.lost && w'.acked == w.acked
    requires w.dropped + removed <= w'.dropped && w'.accepted <= w.accepted + saved
    requires forall id :: id !in removed ==>
               LastMention(w'.client.pending, id) == if id in saved then LastSaved else LastMention(w.client.pending, id)
    ensures AllSecured(w')
  {
    forall id | id in w'.accepted && id !in w'.acked && id !in w'.dropped && id !in w'.lost ensures Secured(w', id) {
      if id !in saved { assert Secured(w, id); }
    }
  }

  lemma CaptureSecured(w: World, r: Record, l: Limits)
    requires Inv(w, l) && Enabled(w, CaptureStep(r))
    ensures AllSecured(Do(w, CaptureStep(r), l))
  {
    var e := EnqueueSpec(w.client.queue, r);
    var w' := Do(w, CaptureStep(r), l);
    var saved := if e.verdict == Accepted && r.priority == Immediate then {r.event.id} else {};
    var removed := IdSet(UrgentIds(e.evicted));
    UrgentIdsMeaning(e.evicted);
    forall id | id !in removed
      ensures LastMention(w'.client.pending, id) == if id in saved then LastSaved else LastMention(w.client.pending, id)
    {
      CaptureMentions(w.client, r, id);
    }
    SecuredAfterWrites(w, w', saved, removed);
  }

  lemma WritesOf(pending: seq<Write>, ids: seq<nat>, records: seq<Record>)
    ensures forall p :: p in RemovePersisted(pending, ids) ==> p in pending || p == Remove(ids)
    ensures forall p :: p in Persist(pending, records) ==> p in pending || p == Save(records)
  {
  }

  /** What is removed was reported dropped. */
  lemma RemovedIds(dropped: seq<Record>)
    ensures IdSet(UrgentIds(dropped)) <= Ids(dropped)
  {
    UrgentIdsMeaning(dropped);
  }

  lemma CaptureOutbox(w: World, r: Record, l: Limits)
    requires Inv(w, l) && Enabled(w, CaptureStep(r))
    ensures OutboxOk(Do(w, CaptureStep(r), l), l)
  {
    var e := EnqueueSpec(w.client.queue, r);
    EvictedKnown(w, r);
    CapturedOutbox(w, Do(w, CaptureStep(r), l), r, e, if e.verdict == Accepted && r.priority == Immediate then {r.event.id} else {}, l);
  }

  lemma CapturedOutbox(w: World, w': World, r: Record, e: EnqueueOutcome, saved: set<nat>, l: Limits)
    requires OutboxOk(w, l) && r.event.id !in w.known && Ids(e.evicted) <= w.known
    requires saved == if e.verdict == Accepted && r.priority == Immediate then {r.event.id} else {}
    requires w' == w.(client := w'.client, accepted := w.accepted + saved, dropped := w.dropped + Ids(e.evicted),
                      captured := w.captured + {r.event.id}, known := w.known + {r.event.id})
    requires var removed := RemovePersisted(w.client.pending, UrgentIds(e.evicted));
             w'.client.pending == if saved != {} then Persist(removed, [r]) else removed
    ensures OutboxOk(w', l)
  {
    var removed := RemovePersisted(w.client.pending, UrgentIds(e.evicted));
    WritesOf(w.client.pending, UrgentIds(e.evicted), []);
    WritesOf(removed, [], [r]);
    RemovedIds(e.evicted);
  }

  lemma EvictedKnown(w: World, r: Record)
    requires MemoryOk(w)
    ensures Ids(EnqueueSpec(w.client.queue, r).evicted) <= w.known
  {
    EvictedFromQueue(w.client.queue, r);
    forall x | x in EnqueueSpec(w.client.queue, r).evicted ensures x.event.id in w.known {
      assert x in Memory(w.client) && Held(w, x);
    }
  }

  lemma CaptureStartup(w: World, w': World, e: EnqueueOutcome, id: nat)
    requires StartupOk(w) && id !in w.known && StoredIds(w.durable) <= w.known
    requires forall x :: x in e.evicted ==> x in w.client.queue
    requires forall x :: x in e.queue ==> x in w.client.queue || x.event.id == id
    requires w' == w.(client := w'.client, accepted := w'.accepted, dropped := w.dropped + Ids(e.evicted),
                      captured := w.captured + {id}, known := w'.known)
    requires w'.client == w.client.(queue := e.queue, pending := w'.client.pending)
    ensures StartupOk(w')
  {
    assert InFlight(w'.client) == InFlight(w.client);
    assert forall x :: x in w.client.queue || x in InFlight(w.client) ==> x in Memory(w.client);
  }

  lemma CapturePreserves(w: World, r: Record, l: Limits)
    requires Inv(w, l) && Enabled(w, CaptureStep(r))
    ensures Inv(Do(w, CaptureStep(r), l), l)
  {
    var c := w.client;
    var w' := Do(w, CaptureStep(r), l);
    EvictedFromQueue(c.queue, r);
    EnqueueConserves(c.queue, r);
    EnqueueWithinCapacity(c.queue, r);
    assert InFlight(w'.client) == InFlight(c);
    CaptureMemory(w, w', r, EnqueueSpec(c.queue, r));
    CaptureOutbox(w, r, l);
    CaptureSecured(w, r, l);
    CaptureStartup(w, w', EnqueueSpec(c.queue, r), r.event.id);
    CaptureSends(w, w', r);
  }

  lemma CaptureSends(w: World, w': World, r: Record)
    requires SendsOk(w) && r.event.id !in w.known && w'.sends == w.sends && w.known <= w'.known
    requires forall x :: x in w'.client.queue ==> x in w.client.queue || x == r
    requires InFlight(w'.client) == InFlight(w.client)
    ensures SendsOk(w')
  {
    assert w.sends[r.event.id] == 0;
  }

  /** Where outbox and pending writes stay as they are, more may be acknowledged or dropped. */
  lemma SameOutbox(w: World, w': World, l: Limits)
    requires OutboxOk(w, l) && AllSecured(w)
    requires w'.durable == w.durable && w'.client.pending == w.client.pending
    requires w'.accepted == w.accepted && w'.lost == w.lost && w'.captured == w.captured && w'.known == w.known
    requires w.acked <= w'.acked <= w'.known && w.dropped <= w'.dropped <= w'.known
    ensures OutboxOk(w', l) && AllSecured(w')
  {
    assert forall id :: Secured(w, id) <==> Secured(w', id);
  }

  /** One operation moved on, and it is not one that waits for the restore. */
  lemma OneMoved(w: World, w': World, k: nat, l: Limits)
    requires Inv(w, l) && k in w.client.ops && !w.client.ops[k].AwaitReady?
    requires k in w'.client.ops && w'.client.ops == w.client.ops[k := w'.client.ops[k]] && w'.client.current == w.client.current
    requires w'.client.nextOp == w.client.nextOp && w'.client.startup == w.client.startup
    requires w'.client.ops[k].Removing? ==> Ids(w'.client.ops[k].records) <= w'.acked
    requires w.client.startup.Ready?
    requires MemoryOk(w') && SendsOk(w') && OutboxOk(w', l) && AllSecured(w')
    ensures Inv(w', l)
  {
  }

  /** Steps that only move a flush operation along keep everything, if they keep what is in flight. */
  lemma OpsMove(w: World, w': World, l: Limits)
    requires Inv(w, l)
    requires w' == w.(client := w'.client)
    requires w'.client.queue == w.client.queue && w'.client.pending == w.client.pending && w'.client.startup == w.client.startup
    requires SingleFlight(w'.client) && InFlight(w'.client) == InFlight(w.client)
    requires forall k :: k in w'.client.ops && w'.client.ops[k].Removing? ==> Ids(w'.client.ops[k].records) <= w.acked
    requires !w.client.startup.Ready? ==> forall k :: k in w'.client.ops ==> w'.client.ops[k].AwaitReady? || w'.client.ops[k].Settled?
    ensures Inv(w', l)
  {
    assert Memory(w'.client) == Memory(w.client);
    assert forall x :: Held(w, x) <==> Held(w', x);
    assert forall id :: Secured(w, id) <==> Secured(w', id);
  }

  lemma FlushMoves(c: Client, options: FlushOptions)
    requires SingleFlight(c)
    ensures var c' := Flush(c, options);
            && SingleFlight(c') && InFlight(c') == InFlight(c)
            && c'.queue == c.queue && c'.pending == c.pending && c'.startup == c.startup
            && forall k :: k in c'.ops ==> c'.ops[k].AwaitReady? || (k in c.ops && c'.ops[k] == c.ops[k])
  {
  }

  /** Sending some of the queued records counts one send for each. */
  lemma SendsAfterDrain(w: World, w': World, drained: seq<Record>, queue: seq<Record>)
    requires SendsOk(w) && MemoryOk(w) && InFlight(w.client) == []
    requires multiset(drained) + multiset(queue) == multiset(w.client.queue)
    requires w'.client.queue == queue && InFlight(w'.client) == drained
    requires w'.sends == w.sends + multiset(Ids(drained)) && w'.known == w.known
    ensures SendsOk(w')
  {
    assert Memory(w.client) == multiset(w.client.queue);
    DistinctParts(Memory(w.client), multiset(drained), multiset(queue));
    forall x | x in drained ensures x in w.client.queue && Held(w, x) && w.sends[x.event.id] <= x.attempts {
      assert x in multiset(drained) && x in multiset(w.client.queue) && x in Memory(w.client);
    }
    forall x | x in queue ensures x in w.client.queue && x.event.id !in Ids(drained) {
      assert x in multiset(queue) && x in multiset(w.client.queue);
      forall y | y in drained ensures y.event.id != x.event.id {
        assert y in multiset(drained);
      }
    }
  }

  lemma DrainPreserves(w: World, k: nat, now: nat, l: Limits)
    requires Inv(w, l) && Enabled(w, DrainStep(k, now))
    ensures Inv(Do(w, DrainStep(k, now), l), l)
  {
    var c := w.client;
    var options := c.ops[k].options;
    var d := FlushDrain(c.queue, options, now);
    var w' := Do(w, DrainStep(k, now), l);
    DrainPartitions(c.queue, FLUSH_LIMIT, MaximumBytes(options), options.priority, now);
    PickBytes(c.queue, Chosen(c.queue, FLUSH_LIMIT, MaximumBytes(options), options.priority, now));
    DrainKeeps(w, w', k, d, l);
  }

  lemma DrainKeeps(w: World, w': World, k: nat, d: DrainOutcome, l: Limits)
    requires Inv(w, l) && k in w.client.ops && w.client.ops[k].AwaitWrites?
    requires multiset(d.drained) + multiset(d.queue) == multiset(w.client.queue) && WithinCapacity(d.queue)
    requires w' == w.(client := w.client.(queue := d.queue,
                        ops := w.client.ops[k := if d.drained == [] then Settled(|d.queue|) else Sending(d.drained)]),
                      sends := w.sends + multiset(Ids(d.drained)))
    ensures Inv(w', l)
  {
    assert InFlight(w.client) == [] && InFlight(w'.client) == d.drained;
    assert Memory(w'.client) == Memory(w.client);
    MemoryShrinks(w, w', []);
    SendsAfterDrain(w, w', d.drained, d.queue);
    SameOutbox(w, w', l);
    OneMoved(w, w', k, l);
  }

  lemma AcknowledgePreserves(w: World, k: nat, l: Limits)
    requires Inv(w, l) && Enabled(w, AcknowledgeStep(k))
    ensures Inv(Do(w, AcknowledgeStep(k), l), l)
  {
    var w' := Do(w, AcknowledgeStep(k), l);
    var records := w.client.ops[k].records;
    assert InFlight(w.client) == records && InFlight(w'.client) == [];
    MemoryShrinks(w, w', records);
    InFlightKnown(w, records);
    SameOutbox(w, w', l);
    OneMoved(w, w', k, l);
  }

  lemma InFlightKnown(w: World, records: seq<Record>)
    requires MemoryOk(w) && InFlight(w.client) == records
    ensures Ids(records) <= w.known
  {
    forall x | x in records ensures x.event.id in w.known {
      assert x in multiset(records) && x in Memory(w.client) && Held(w, x);
    }
  }

  lemma FinishRemovalPreserves(w: World, k: nat, removed: bool, l: Limits)
    requires Inv(w, l) && Enabled(w, FinishRemovalStep(k, removed))
    ensures Inv(Do(w, FinishRemovalStep(k, removed), l), l)
  {
    var c := w.client;
    var w' := Do(w, FinishRemovalStep(k, removed), l);
    var ids := Ids(c.ops[k].records);
    assert InFlight(c) == [] && InFlight(w'.client) == [];
    assert Memory(w'.client) == Memory(c);
    assert forall x :: Held(w, x) <==> Held(w', x);
    if removed { AckedRemoved(w, w', ids, l); } else { SameOutbox(w, w', l); }
    OneMoved(w, w', k, l);
  }

  /** Removing acknowledged events from the outbox concerns no promise. */
  lemma AckedRemoved(w: World, w': World, ids: set<nat>, l: Limits)
    requires OutboxOk(w, l) && AllSecured(w) && ids <= w.acked
    requires w' == w.(client := w'.client, durable := WithoutIds(w.durable, ids)) && w'.client.pending == w.client.pending
    ensures OutboxOk(w', l) && AllSecured(w')
  {
    WithoutIdsMeaning(w.durable, ids);
    assert forall id :: id !in w.acked ==> (Secured(w, id) <==> Secured(w', id));
  }

  /** The record with one attempt more stands for the record it came from. */
  lemma {:induction false} ReattemptedDistinct(records: seq<Record>, others: multiset<Record>)
    requires Distinct(multiset(records) + others)
    ensures Distinct(multiset(AllReattempted(records)) + others)
  {
    if records == [] {
      assert AllReattempted(records) == [];
    } else {
      var front, x := records[..|records| - 1], records[|records| - 1];
      assert records == front + [x];
      SwapLast(front, x, NextAttempt(x), others);
      ReattemptedDistinct(front, others + multiset{NextAttempt(x)});
      assert AllReattempted(records) == AllReattempted(front) + [NextAttempt(x)];
      LastToOthers(AllReattempted(front), NextAttempt(x), others);
    }
  }

  /** The last record may be replaced by one with the same id. */
  lemma SwapLast(front: seq<Record>, x: Record, y: Record, others: multiset<Record>)
    requires Distinct(multiset(front + [x]) + others) && y.event.id == x.event.id
    ensures Distinct(multiset(front) + (others + multiset{y}))
  {
    var rest := multiset(front) + others;
    LastToOthers(front, x, others);
    assert multiset(front) + (others + multiset{x}) == rest + multiset{x};
    DistinctPart(rest + multiset{x}, rest);
    DistinctParts(rest + multiset{x}, rest, multiset{x});
    DistinctFresh(rest, y);
    assert rest + multiset{y} == multiset(front) + (others + multiset{y});
  }

  lemma LastToOthers<T>(front: seq<T>, x: T, others: multiset<T>)
    ensures multiset(front + [x]) + others == multiset(front) + (others + multiset{x})
  {
  }

  lemma ReattemptedIds(records: seq<Record>)
    ensures forall x :: x in AllReattempted(records) <==> x.attempts > 0 && x.(attempts := x.attempts - 1) in records
  {
    forall x ensures x in AllReattempted(records) <==> x.attempts > 0 && x.(attempts := x.attempts - 1) in records {
      if x.attempts > 0 && x.(attempts := x.attempts - 1) in records {
        var i :| 0 <= i < |records| && records[i] == x.(attempts := x.attempts - 1);
        assert AllReattempted(records)[i] == x;
      }
    }
  }

  /** What may be said of a record that is back after a failed send. */
  ghost predicate HeldAgain(w: World, x: Record) {
    && x.event.id in w.known && x.event.id !in w.acked && x.event.id !in w.dropped && x.event.bytes <= MAX_EVENT_BYTES
    && (x.priority == Immediate ==> x.event.id in w.accepted)
    && w.sends[x.event.id] <= x.attempts
  }

  lemma FailedHeldAgain(w: World, records: seq<Record>)
    requires MemoryOk(w) && InFlight(w.client) == records && SendsOk(w)
    ensures forall x :: x in multiset(AllReattempted(records)) + multiset(w.client.queue) ==> HeldAgain(w, x)
  {
    ReattemptedIds(records);
    forall x | x in multiset(AllReattempted(records)) + multiset(w.client.queue) ensures HeldAgain(w, x) {
      if x in multiset(w.client.queue) {
        assert x in Memory(w.client) && Held(w, x);
      } else {
        assert x in AllReattempted(records);
        var y := x.(attempts := x.attempts - 1);
        assert y in multiset(records) && y in Memory(w.client) && Held(w, y);
      }
    }
  }

  /** After a failure the queue holds what is retried and what was queued, apart from what is dropped. */
  lemma FailMemory(w: World, w': World, records: seq<Record>, f: RetryOutcome)
    requires MemoryOk(w) && InFlight(w.client) == records && SendsOk(w)
    requires multiset(f.queue) + multiset(f.dropped) == multiset(w.client.queue) + multiset(AllReattempted(records))
    requires forall x :: x in f.queue ==> x.attempts < MAX_DELIVERY_ATTEMPTS
    requires w'.client.queue == f.queue && InFlight(w'.client) == [] && WithinCapacity(f.queue)
    requires w'.accepted == w.accepted && w'.known == w.known && w'.acked == w.acked && w'.sends == w.sends
    requires w'.dropped == w.dropped + Ids(f.dropped)
    ensures MemoryOk(w') && SendsOk(w')
    ensures Ids(f.dropped) <= w.known
  {
    var all := multiset(AllReattempted(records)) + multiset(w.client.queue);
    FailedHeldAgain(w, records);
    assert Distinct(all) by {
      assert Memory(w.client) == multiset(records) + multiset(w.client.queue);
      ReattemptedDistinct(records, multiset(w.client.queue));
    }
    FailSplit(w, w', f, all);
  }

  lemma FailSplit(w: World, w': World, f: RetryOutcome, all: multiset<Record>)
    requires Distinct(all) && multiset(f.queue) + multiset(f.dropped) == all && SendsOk(w)
    requires forall x :: x in all ==> HeldAgain(w, x)
    requires forall x :: x in f.queue ==> x.attempts < MAX_DELIVERY_ATTEMPTS
    requires w'.client.queue == f.queue && InFlight(w'.client) == [] && WithinCapacity(f.queue)
    requires w'.accepted == w.accepted && w'.known == w.known && w'.acked == w.acked && w'.sends == w.sends
    requires w'.dropped == w.dropped + Ids(f.dropped)
    ensures MemoryOk(w') && SendsOk(w')
    ensures Ids(f.dropped) <= w.known
  {
    assert Memory(w'.client) == multiset(f.queue);
    DistinctPart(all, multiset(f.queue));
    DistinctParts(all, multiset(f.queue), multiset(f.dropped));
    assert forall x :: x in f.queue ==> x in multiset(f.queue) && x in all;
    assert forall x :: x in f.dropped ==> x in multiset(f.dropped) && x in all;
    forall x | x in f.queue ensures x.event.id !in Ids(f.dropped) {
      forall y | y in f.dropped ensures y.event.id != x.event.id {
        assert x in multiset(f.queue) && y in multiset(f.dropped);
      }
    }
  }

  /** A failure saves what it retries and then removes what it gave up. */
  lemma FailMentions(c: Client, k: nat, id: nat)
    requires k in c.ops && c.ops[k].Sending?
    ensures var f := RetrySpec(c.queue, c.ops[k].records);
            LastMention(Fail(c, k).pending, id)
            == if id in UrgentIds(f.dropped) then LastRemoved
               else if id in Ids(UrgentOnly(f.retried)) then LastSaved
               else LastMention(c.pending, id)
  {
    var f := RetrySpec(c.queue, c.ops[k].records);
    PersistMention(c.pending, UrgentOnly(f.retried), id);
    RemoveMention(Persist(c.pending, UrgentOnly(f.retried)), UrgentIds(f.dropped), id);
  }

  lemma RetriedAccepted(w: World, records: seq<Record>)
    requires MemoryOk(w) && InFlight(w.client) == records
    ensures Ids(UrgentOnly(Reattempted(records, false))) <= w.accepted
  {
    var retried := Reattempted(records, false);
    OfPriorityMembers(retried, Immediate);
    forall x | x in UrgentOnly(retried) ensures x.event.id in w.accepted {
      ReattemptedFrom(records, false, x);
      var y := x.(attempts := x.attempts - 1);
      assert y in multiset(records) && y in Memory(w.client) && Held(w, y);
    }
  }

  lemma FailSecured(w: World, k: nat, l: Limits)
    requires Inv(w, l) && Enabled(w, FailStep(k))
    ensures AllSecured(Do(w, FailStep(k), l))
  {
    var w' := Do(w, FailStep(k), l);
    var f := RetrySpec(w.client.queue, w.client.ops[k].records);
    var saved, removed := Ids(UrgentOnly(f.retried)), IdSet(UrgentIds(f.dropped));
    UrgentIdsMeaning(f.dropped);
    forall id | id !in removed
      ensures LastMention(w'.client.pending, id) == if id in saved then LastSaved else LastMention(w.client.pending, id)
    {
      FailMentions(w.client, k, id);
    }
    SecuredAfterWrites(w, w', saved, removed);
  }

  lemma FailPreserves(w: World, k: nat, l: Limits)
    requires Inv(w, l) && Enabled(w, FailStep(k))
    ensures Inv(Do(w, FailStep(k), l), l)
  {
    var c := w.client;
    var records := c.ops[k].records;
    var w' := Do(w, FailStep(k), l);
    assert InFlight(c) == records;
    InFlightSmall(w, records);
    NoneOversizeAgain(records);
    RetryConserves(c.queue, records);
    RetryLive(w, records);
    PrependWithinCapacity(c.queue, Reattempted(records, false));
    FailMemory(w, w', records, RetrySpec(c.queue, records));
    FailSecured(w, k, l);
    FailOutbox(w, w', k, l);
    OneMoved(w, w', k, l);
  }

  lemma FailOutbox(w: World, w': World, k: nat, l: Limits)
    requires Inv(w, l) && Enabled(w, FailStep(k)) && w' == Do(w, FailStep(k), l)
    requires Ids(RetrySpec(w.client.queue, w.client.ops[k].records).dropped) <= w.known
    ensures OutboxOk(w', l)
  {
    var c := w.client;
    var records := c.ops[k].records;
    var f := RetrySpec(c.queue, records);
    RetriedAccepted(w, records);
    WritesOf(c.pending, [], UrgentOnly(f.retried));
    WritesOf(Persist(c.pending, UrgentOnly(f.retried)), UrgentIds(f.dropped), []);
    RemovedIds(f.dropped);
  }

  lemma InFlightSmall(w: World, records: seq<Record>)
    requires MemoryOk(w) && InFlight(w.client) == records
    ensures NoneOversize(records)
  {
    forall x | x in records ensures !Oversize(x) {
      assert x in multiset(records) && x in Memory(w.client) && Held(w, x);
    }
  }

  lemma RetryLive(w: World, records: seq<Record>)
    requires MemoryOk(w) && InFlight(w.client) == records
    ensures forall x :: x in RetrySpec(w.client.queue, records).queue ==> x.attempts < MAX_DELIVERY_ATTEMPTS
  {
    InFlightSmall(w, records);
    var retried := Reattempted(records, false);
    forall x | x in retried ensures x.attempts < MAX_DELIVERY_ATTEMPTS && !Oversize(x) {
      ReattemptedFrom(records, false, x);
    }
    PrependConserves(w.client.queue, retried);
    var p := PrependSpec(w.client.queue, retried);
    forall x | x in p.queue ensures x.attempts < MAX_DELIVERY_ATTEMPTS {
      assert x in multiset(p.queue) && x in multiset(w.client.queue) + multiset(retried);
      if x in multiset(w.client.queue) { assert x in Memory(w.client) && Held(w, x); }
    }
  }

  // ----- Startup and durable writes --------------------------------------------------------------

  lemma StoredIdsOf(s: seq<Stored>, id: nat)
    ensures id in StoredIds(s) <==> exists x :: x in s && IdOf(x) == id
  {
  }

  lemma {:induction false} SortedRecords(s: seq<Stored>)
    requires UniqueIds(s)
    ensures Distinct(multiset(Records(s)))
    ensures forall r :: r in Records(s) <==> exists x :: x in s && x.record == r
    ensures Ids(Records(s)) == StoredIds(s)
  {
    var rs := Records(s);
    forall r ensures r in rs <==> exists x :: x in s && x.record == r {
      if x :| x in s && x.record == r {
        var i :| 0 <= i < |s| && s[i] == x;
        assert rs[i] == r;
      }
    }
    RecordsDistinct(s);
  }

  lemma {:induction false} RecordsDistinct(s: seq<Stored>)
    requires UniqueIds(s)
    ensures Distinct(multiset(Records(s)))
  {
    if s == [] {
      assert Records(s) == [];
    } else {
      var n := |s| - 1;
      RecordsDistinct(s[..n]);
      assert Records(s) == Records(s[..n]) + [s[n].record];
      forall x | x in multiset(Records(s[..n])) ensures x.event.id != s[n].record.event.id {
        assert x in Records(s[..n]);
        var i :| 0 <= i < n && Records(s[..n])[i] == x;
      }
      DistinctFresh(multiset(Records(s[..n])), s[n].record);
    }
  }

  /** Loading returns each urgent record that is still live, once, by event time, and keeps exactly those. */
  lemma LoadMeaning(listed: seq<Stored>, ttlMs: nat, now: int)
    requires UniqueIds(listed)
    ensures var kept := LoadableOnly(listed, ttlMs, now); var loaded := LoadSpec(listed, ttlMs, now);
            && (forall x :: x in kept <==> x in listed && Loadable(x, ttlMs, now))
            && UniqueIds(kept) && |kept| <= |listed| && Size(kept) <= Size(listed)
            && Distinct(multiset(loaded)) && Ids(loaded) == StoredIds(kept)
            && (forall r :: r in loaded <==> exists x :: x in kept && x.record == r)
            && Sorted(loaded, (r: Record) => r.event.timestamp)
  {
    LoadableMeaning(listed, ttlMs, now);
    LoadableShrinks(listed, ttlMs, now);
    var kept := LoadableOnly(listed, ttlMs, now);
    SortUnique(kept, Timestamp);
    StableSortCorrect(kept, Timestamp);
    SortedRecords(StableSort(kept, Timestamp));
  }

  lemma {:induction false} RecordBytes(s: seq<Stored>)
    ensures Bytes(Records(s)) == Size(s) && |Records(s)| == |s|
  {
    if s == [] {
    } else {
      RecordBytes(s[1..]);
      assert Records(s)[1..] == Records(s[1..]);
    }
  }

  lemma DistinctSequence(s: seq<Record>)
    requires Distinct(multiset(s))
    ensures DistinctIds(s)
  {
    forall i, j | 0 <= i < j < |s| ensures s[i].event.id != s[j].event.id {
      assert s[i] in multiset(s) && s[j] in multiset(s);
      if s[i] == s[j] { TwiceCounted(s, i, j); }
    }
  }

  lemma LoadedFits(listed: seq<Stored>, now: int, l: Limits)
    requires ValidLimits(l) && UniqueIds(listed) && |listed| <= l.maxEvents && Size(listed) <= l.maxBytes
    ensures var loaded := LoadSpec(listed, l.ttlMs, now); WithinCapacity(loaded) && DistinctIds(loaded)
  {
    var kept := LoadableOnly(listed, l.ttlMs, now);
    LoadMeaning(listed, l.ttlMs, now);
    StableSortCorrect(kept, Timestamp);
    SizePermuted(kept, StableSort(kept, Timestamp));
    RecordBytes(StableSort(kept, Timestamp));
    DistinctSequence(LoadSpec(listed, l.ttlMs, now));
  }

  lemma LoadKeeps(w: World, w': World, loaded: seq<Record>, kept: seq<Stored>, l: Limits)
    requires Inv(w, l) && w.client.startup.Loading?
    requires w' == w.(client := FinishLoad(w.client, loaded), durable := kept, lost := w.lost + (StoredIds(w.durable) - StoredIds(kept)))
    requires UniqueIds(kept) && (forall s :: s in kept ==> s in w.durable) && |kept| <= |w.durable| && Size(kept) <= Size(w.durable)
    requires Distinct(multiset(loaded)) && Ids(loaded) == StoredIds(kept) && WithinCapacity(loaded)
    requires forall r :: r in loaded ==> r.attempts < MAX_DELIVERY_ATTEMPTS && r.priority == Immediate
    ensures Inv(w', l)
  {
    assert InFlight(w'.client) == InFlight(w.client) && Memory(w'.client) == Memory(w.client);
    MemoryShrinks(w, w', []);
    LoadedOutbox(w, w', l);
  }

  /** An outbox that loses entries to age keeps the rest of its promises. */
  lemma LoadedOutbox(w: World, w': World, l: Limits)
    requires OutboxOk(w, l) && AllSecured(w)
    requires UniqueIds(w'.durable) && (forall s :: s in w'.durable ==> s in w.durable)
    requires |w'.durable| <= |w.durable| && Size(w'.durable) <= Size(w.durable)
    requires w'.client.pending == w.client.pending && w'.lost == w.lost + (StoredIds(w.durable) - StoredIds(w'.durable))
    requires w'.accepted == w.accepted && w'.acked == w.acked && w'.dropped == w.dropped
    requires w'.captured == w.captured && w'.known == w.known
    ensures OutboxOk(w', l) && AllSecured(w') && StoredIds(w'.durable) <= StoredIds(w.durable)
  {
    forall id | id !in w'.lost && Secured(w, id) ensures Secured(w', id) {
      assert id in StoredIds(w.durable) ==> id in StoredIds(w'.durable);
    }
  }

  lemma LoadPreserves(w: World, now: int, listed: seq<Stored>, l: Limits)
    requires Inv(w, l) && Enabled(w, LoadStep(now, listed))
    ensures Inv(Do(w, LoadStep(now, listed), l), l)
  {
    UniqueIdsPermuted(w.durable, listed);
    SizePermuted(w.durable, listed);
    LoadMeaning(listed, l.ttlMs, now);
    LoadedFits(listed, now, l);
    LoadKeeps(w, Do(w, LoadStep(now, listed), l), LoadSpec(listed, l.ttlMs, now), LoadableOnly(listed, l.ttlMs, now), l);
  }

  lemma LoadFailsPreserves(w: World, l: Limits)
    requires Inv(w, l) && Enabled(w, LoadFailsStep)
    ensures Inv(Do(w, LoadFailsStep, l), l)
  {
    var w' := Do(w, LoadFailsStep, l);
    assert InFlight(w'.client) == InFlight(w.client) && Memory(w'.client) == Memory(w.client);
    MemoryShrinks(w, w', []);
    assert forall id :: Secured(w, id) <==> Secured(w', id);
  }

  lemma {:induction false} ValidMeaning(records: seq<Record>, invalid: set<nat>)
    ensures forall r :: r in Valid(records, invalid) <==> r in records && r.event.id !in invalid
    ensures multiset(Valid(records, invalid)) <= multiset(records)
  {
    if records != [] {
      ValidMeaning(records[1..], invalid);
      assert records == [records[0]] + records[1..];
    }
  }

  lemma EnqueueBrings(q: seq<Record>, r: Record)
    ensures multiset(EnqueueSpec(q, r).queue) <= multiset(q) + multiset{r}
  {
    EnqueueConserves(q, r);
  }

  lemma AtMostBoth<T>(a: multiset<T>, b: multiset<T>, c: multiset<T>, d: multiset<T>, e: multiset<T>)
    requires a <= b + c && b <= d + e
    ensures a <= d + (e + c)
  {
  }

  lemma RestoreOneMore(q: seq<Record>, front: seq<Record>, r: Record)
    ensures multiset(RestoreSpec(q, front + [r]).queue) <= multiset(RestoreSpec(q, front).queue) + multiset{r}
  {
    assert (front + [r])[..|front|] == front;
    EnqueueBrings(RestoreSpec(q, front).queue, r);
  }

  /** Restoring brings in nothing but the given records. */
  lemma {:induction false} RestoreBrings(q: seq<Record>, records: seq<Record>)
    ensures multiset(RestoreSpec(q, records).queue) <= multiset(q) + multiset(records)
  {
    if records != [] {
      var n := |records| - 1;
      assert records == records[..n] + [records[n]];
      RestoreBrings(q, records[..n]);
      RestoreOneMore(q, records[..n], records[n]);
      AtMostBoth(multiset(RestoreSpec(q, records).queue), multiset(RestoreSpec(q, records[..n]).queue),
                 multiset{records[n]}, multiset(q), multiset(records[..n]));
    }
  }

  lemma DistinctUnion(a: multiset<Record>, b: multiset<Record>)
    requires Distinct(a) && Distinct(b) && forall x, y :: x in a && y in b ==> x.event.id != y.event.id
    ensures Distinct(a + b)
  {
  }

  /** Records joining the queue while nothing is in flight, apart from everything already there. */
  lemma MemoryJoined(w: World, w': World, valid: seq<Record>)
    requires MemoryOk(w) && InFlight(w.client) == [] && InFlight(w'.client) == []
    requires Distinct(multiset(valid)) && WithinCapacity(w'.client.queue)
    requires forall x :: x in multiset(valid) ==> Held(w, x) && x.event.id !in w.captured
    requires forall x :: x in Memory(w.client) ==> x.event.id in w.captured
    requires multiset(w'.client.queue) <= multiset(w.client.queue) + multiset(valid)
    requires w'.accepted == w.accepted && w'.known == w.known && w'.acked == w.acked && w'.dropped == w.dropped
    ensures MemoryOk(w')
    ensures forall x :: x in w'.client.queue ==> x in w.client.queue || x in valid
  {
    assert Memory(w.client) == multiset(w.client.queue) && Memory(w'.client) == multiset(w'.client.queue);
    var all := multiset(w.client.queue) + multiset(valid);
    DistinctUnion(multiset(w.client.queue), multiset(valid));
    DistinctPart(all, Memory(w'.client));
    forall x | x in w'.client.queue ensures x in w.client.queue || x in valid {
      assert x in multiset(w'.client.queue) && x in all;
    }
  }

  lemma RestoredHeld(w: World, valid: seq<Record>, l: Limits)
    requires Inv(w, l) && w.client.startup.Loaded?
    requires multiset(valid) <= multiset(w.client.startup.records)
    requires forall r :: r in valid ==> r.event.bytes <= MAX_EVENT_BYTES
    ensures forall x :: x in multiset(valid) ==> Held(w, x) && x.event.id !in w.captured
  {
    var records := w.client.startup.records;
    forall x | x in multiset(valid) ensures Held(w, x) && x.event.id !in w.captured {
      assert x in multiset(records) && x in records && x.event.id in Ids(records);
      assert x.event.id in StoredIds(w.durable);
    }
  }

  lemma RestorePreserves(w: World, invalid: set<nat>, l: Limits)
    requires Inv(w, l) && Enabled(w, RestoreStep(invalid))
    ensures Inv(Do(w, RestoreStep(invalid), l), l)
  {
    var c := w.client;
    var w' := Do(w, RestoreStep(invalid), l);
    var valid := Valid(c.startup.records, invalid);
    ValidMeaning(c.startup.records, invalid);
    RestoredHeld(w, valid, l);
    RestoreBrings(c.queue, valid);
    RestoreWithinCapacity(c.queue, valid);
    RestoreKeeps(w, w', valid, l);
  }

  lemma RestoreKeeps(w: World, w': World, valid: seq<Record>, l: Limits)
    requires Inv(w, l) && w.client.startup.Loaded?
    requires multiset(valid) <= multiset(w.client.startup.records)
    requires forall x :: x in multiset(valid) ==> Held(w, x) && x.event.id !in w.captured
    requires w' == w.(client := w.client.(queue := w'.client.queue, startup := w'.client.startup))
    requires WithinCapacity(w'.client.queue) && multiset(w'.client.queue) <= multiset(w.client.queue) + multiset(valid)
    requires w'.client.startup.Ready? || w'.client.startup.Clearing?
    ensures Inv(w', l)
  {
    DistinctPart(multiset(w.client.startup.records), multiset(valid));
    assert InFlight(w.client) == [] && InFlight(w'.client) == [];
    MemoryJoined(w, w', valid);
    SameOutbox(w, w', l);
    NothingSentYet(w, w');
    RestoredStartup(w, w');
  }

  lemma RestoredStartup(w: World, w': World)
    requires StartupOk(w) && w.client.startup.Loaded?
    requires w' == w.(client := w.client.(queue := w'.client.queue, startup := w'.client.startup))
    requires w'.client.startup.Ready? || w'.client.startup.Clearing?
    ensures StartupOk(w')
  {
  }

  lemma NothingSentYet(w: World, w': World)
    requires SendsOk(w) && w.sends == multiset{} && w'.sends == w.sends
    ensures SendsOk(w')
  {
  }

  lemma FinishStartupPreserves(w: World, removed: bool, l: Limits)
    requires Inv(w, l) && Enabled(w, FinishStartupStep(removed))
    ensures Inv(Do(w, FinishStartupStep(removed), l), l)
  {
    var w' := Do(w, FinishStartupStep(removed), l);
    assert InFlight(w'.client) == InFlight(w.client) && Memory(w'.client) == Memory(w.client);
    MemoryShrinks(w, w', []);
    if removed { InvalidRemoved(w, w', w.client.startup.ids, l); } else { SameOutbox(w, w', l); }
  }

  /** Removing records that did not validate keeps the other promises. */
  lemma InvalidRemoved(w: World, w': World, ids: set<nat>, l: Limits)
    requires OutboxOk(w, l) && AllSecured(w)
    requires w' == w.(client := w'.client, durable := WithoutIds(w.durable, ids), lost := w.lost + ids)
    requires w'.client.pending == w.client.pending
    ensures OutboxOk(w', l) && AllSecured(w')
  {
    WithoutIdsMeaning(w.durable, ids);
    assert forall id :: id !in ids ==> (Secured(w, id) <==> Secured(w', id));
  }

  lemma SaveIds(listed: seq<Stored>, records: seq<Record>, now: int, l: Limits)
    requires UniqueIds(listed) && (forall s :: s in listed ==> s.scope == SCOPE)
    ensures StoredIds(SaveSpec(listed, SCOPE, records, now, l).retained) <= StoredIds(listed) + Ids(records)
  {
    if records != [] {
      CandidatesMeaning(listed, SCOPE, records, now, l.ttlMs);
      MergedMeaning(listed, SCOPE, records, now);
      RetainMeaning(Outbox.Candidates(listed, SCOPE, records, now, l.ttlMs), l);
      var o := SaveSpec(listed, SCOPE, records, now, l);
      forall x | x in o.retained ensures IdOf(x) in StoredIds(listed) + Ids(records) {
        assert HasId(Merged(listed, SCOPE, records, now), IdOf(x));
      }
    }
  }

  /** An event whose last pending write removes it was reported dropped. */
  lemma {:induction false} RemovedIsDropped(pending: seq<Write>, dropped: set<nat>, id: nat)
    requires forall p :: p in pending && p.Remove? ==> IdSet(p.ids) <= dropped
    requires LastMention(pending, id) == LastRemoved
    ensures id in dropped
  {
    var n := |pending| - 1;
    assert pending[n] in pending;
    if MentionIn(pending[n], id) == Unmentioned { RemovedIsDropped(pending[..n], dropped, id); }
  }

  /** Once a write is off the chain, what follows it or what it left in the outbox decides. */
  lemma SecuredAfterHead(w: World, w': World, l: Limits)
    requires AllSecured(w) && OutboxOk(w, l) && w.client.pending != [] && w'.client.pending == w.client.pending[1..]
    requires w'.accepted == w.accepted && w'.acked == w.acked && w'.dropped == w.dropped
    requires w.lost - StoredIds(w'.durable) <= w'.lost
    requires forall id :: id !in w'.lost ==>
               match MentionIn(w.client.pending[0], id)
               case LastSaved => id in StoredIds(w'.durable)
               case LastRemoved => true
               case Unmentioned => id in StoredIds(w.durable) ==> id in StoredIds(w'.durable)
    ensures AllSecured(w')
  {
    forall id | id in w'.accepted && id !in w'.acked && id !in w'.dropped && id !in w'.lost ensures Secured(w', id) {
      if LastMention(w'.client.pending, id) == LastRemoved { RemovedIsDropped(w'.client.pending, w.dropped, id); }
      if id !in w.lost {
        MentionHead(w.client.pending, id);
        assert Secured(w, id);
      }
    }
  }

  lemma WriteKeeps(w: World, w': World, l: Limits)
    requires Inv(w, l) && w.client.startup.Ready? && w.client.pending != []
    requires w' == w.(client := FinishWrite(w.client), durable := w'.durable, lost := w'.lost, stale := w'.stale)
    requires w'.lost !! StoredIds(w'.durable)
    requires UniqueIds(w'.durable) && (forall s :: s in w'.durable ==> s.scope == SCOPE)
    requires |w'.durable| <= l.maxEvents && Size(w'.durable) <= l.maxBytes && StoredIds(w'.durable) <= w.accepted
    requires AllSecured(w')
    ensures Inv(w', l)
  {
    assert InFlight(w'.client) == InFlight(w.client) && Memory(w'.client) == Memory(w.client);
    MemoryShrinks(w, w', []);
  }

  lemma WritePreserves(w: World, now: int, listed: seq<Stored>, l: Limits)
    requires Inv(w, l) && Enabled(w, WriteStep(now, listed))
    ensures Inv(Do(w, WriteStep(now, listed), l), l)
  {
    var w' := Do(w, WriteStep(now, listed), l);
    UniqueIdsPermuted(w.durable, listed);
    SizePermuted(w.durable, listed);
    assert w.client.pending[0] in w.client.pending;
    match w.client.pending[0] {
      case Save(records) =>
        SaveIds(listed, records, now, l);
        if records != [] { SaveIsWellFormed(listed, SCOPE, records, now, l); }
      case Remove(ids) =>
        WithoutIdsMeaning(w.durable, IdSet(ids));
    }
    SecuredAfterHead(w, w', l);
    WriteKeeps(w, w', l);
  }

  lemma WriteFailsPreserves(w: World, l: Limits)
    requires Inv(w, l) && Enabled(w, WriteFailsStep)
    ensures Inv(Do(w, WriteFailsStep, l), l)
  {
    var w' := Do(w, WriteFailsStep, l);
    SecuredAfterHead(w, w', l);
    WriteKeeps(w, w', l);
  }

  lemma StartIsSafe(durable: seq<Stored>, known: set<nat>, l: Limits)
    requires ValidLimits(l) && UniqueIds(durable) && (forall s :: s in durable ==> s.scope == SCOPE)
    requires |durable| <= l.maxEvents && Size(durable) <= l.maxBytes
    ensures Inv(Start(durable, known), l)
  {
    assert Memory(NEW_CLIENT) == multiset{};
  }

  /** An event the client still owes delivery is secured exactly when a save of it is pending or it is not lost. */
  lemma SecuredExactly(w: World, l: Limits, id: nat)
    requires Inv(w, l) && id in w.accepted && id !in w.acked && id !in w.dropped
    ensures LastMention(w.client.pending, id) != LastRemoved
    ensures Secured(w, id) <==> LastMention(w.client.pending, id) == LastSaved || id !in w.lost
    ensures LastMention(w.client.pending, id) == Unmentioned ==> (id in StoredIds(w.durable) <==> id !in w.lost)
  {
    if LastMention(w.client.pending, id) == LastRemoved { RemovedIsDropped(w.client.pending, w.dropped, id); }
  }

  lemma SettlePreserves(w: World, k: nat, l: Limits)
    requires Inv(w, l) && Enabled(w, SettleStep(k))
    ensures Inv(Do(w, SettleStep(k), l), l)
  {
    var w' := Do(w, SettleStep(k), l);
    assert w'.client.ops == map[];
    OpsMove(w, w', l);
  }

  lemma ResumePreserves(w: World, l: Limits)
    requires Inv(w, l) && Enabled(w, ResumeStep)
    ensures Inv(Do(w, ResumeStep, l), l)
  {
    var c := w.client;
    var next := c.(callbacks := c.callbacks[1..], followUp := None);
    if c.followUp.Some? { FlushMoves(next, c.followUp.value); }
    OpsMove(w, Do(w, ResumeStep, l), l);
  }

  lemma StepPreserves(w: World, s: Label, l: Limits)
    requires Inv(w, l) && Enabled(w, s)
    ensures Inv(Do(w, s, l), l)
  {
    match s
    case CaptureStep(r) => CapturePreserves(w, r, l);
    case LoadStep(now, listed) => LoadPreserves(w, now, listed, l);
    case LoadFailsStep => LoadFailsPreserves(w, l);
    case RestoreStep(invalid) => RestorePreserves(w, invalid, l);
    case FinishStartupStep(removed) => FinishStartupPreserves(w, removed, l);
    case WriteStep(now, listed) => WritePreserves(w, now, listed, l);
    case WriteFailsStep => WriteFailsPreserves(w, l);
    case CrashStep => StartIsSafe(w.durable, w.known, l);
    case _ => FlushStepPreserves(w, s, l);
  }

  /** The steps of a flush operation. */
  lemma FlushStepPreserves(w: World, s: Label, l: Limits)
    requires Inv(w, l) && Enabled(w, s)
    requires s.FlushStep? || s.PassReadyStep? || s.DrainStep? || s.AcknowledgeStep? || s.FinishRemovalStep?
             || s.FailStep? || s.SettleStep? || s.ResumeStep?
    ensures Inv(Do(w, s, l), l)
  {
    match s
    case FlushStep(options) =>
      FlushMoves(w.client, options);
      OpsMove(w, Do(w, s, l), l);
    case PassReadyStep(k) => OpsMove(w, Do(w, s, l), l);
    case DrainStep(k, now) => DrainPreserves(w, k, now, l);
    case AcknowledgeStep(k) => AcknowledgePreserves(w, k, l);
    case FinishRemovalStep(k, removed) => FinishRemovalPreserves(w, k, removed, l);
    case FailStep(k) => FailPreserves(w, k, l);
    case SettleStep(k) => SettlePreserves(w, k, l);
    case ResumeStep => ResumePreserves(w, l);
  }

  predicate MovesNoRecord(s: Label) {
    !s.CaptureStep? && !s.DrainStep? && !s.FailStep? && !s.RestoreStep? && !s.CrashStep?
  }

  /** Most steps leave the queue and what is in flight alone. */
  lemma NoRecordMoves(w: World, s: Label, l: Limits)
    requires SingleFlight(w.client) && Enabled(w, s) && MovesNoRecord(s)
    ensures var c := Do(w, s, l).client;
            c.queue == w.client.queue && InFlight(c) == if s.AcknowledgeStep? then [] else InFlight(w.client)
  {
    var c := w.client;
    if s.ResumeStep? && c.followUp.Some? {
      FlushMoves(c.(callbacks := c.callbacks[1..], followUp := None), c.followUp.value);
    } else if s.FlushStep? {
      FlushMoves(c, s.options);
    }
  }
}
