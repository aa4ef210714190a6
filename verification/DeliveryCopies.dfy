/** Which attempt the outbox has on record: a failed flush saves what it retries, attempts included. */
module DeliveryCopies {
  import opened Events
  import opened EventQueues
  import opened QueueProperties
  import opened QueueAttempts
  import opened Outbox
  import opened Delivery
  import opened DeliverySafety
  import opened DeliveryRuns
  import opened DeliveryLosses
  import opened DeliveryTheorems
  import opened DeliveryRestart

  /** What a write saves for an id, if anything. */
  function CopyIn(p: Write, id: nat): seq<Record> {
    if p.Save? && NewestIn(p.records, id).Some? then [NewestIn(p.records, id).value] else []
  }

  /** The copies of an event that the pending writes are to save, in order. */
  function PendingCopies(pending: seq<Write>, id: nat): seq<Record> {
    if pending == [] then [] else CopyIn(pending[0], id) + PendingCopies(pending[1..], id)
  }

  // ----- The invariant ---------------------------------------------------------------------------

  ghost predicate Rising(copies: seq<Record>) {
    forall i, j :: 0 <= i < j < |copies| ==> copies[i].attempts < copies[j].attempts
  }

  /** Each copy to be saved has more attempts than the one before it, and the last is the record itself. */
  ghost predicate LeadsTo(copies: seq<Record>, x: Record) {
    Rising(copies) && (copies != [] ==> copies[|copies| - 1] == x)
  }

  /** A stored copy precedes those to be saved; if there are none, it is the record itself unless it is stale. */
  ghost predicate Precedes(stored: Record, copies: seq<Record>, stale: bool, x: Record) {
    && stored.attempts <= x.attempts
    && (copies != [] ==> stored.attempts < copies[0].attempts)
    && (copies == [] ==> (stored == x <==> !stale))
  }

  ghost predicate CopyOk(durable: seq<Stored>, copies: seq<Record>, stale: bool, x: Record) {
    && LeadsTo(copies, x)
    && forall y :: y in durable && IdOf(y) == x.event.id ==> Precedes(y.record, copies, stale, x)
  }

  ghost predicate CopyOf(w: World, x: Record) {
    CopyOk(w.durable, PendingCopies(w.client.pending, x.event.id), x.event.id in w.stale, x)
  }

  ghost predicate Urgents(w: World, x: Record) { x in Memory(w.client) && x.priority == Immediate }

  /** Before the restore, nothing stored is about to be saved, and what was loaded is what is stored. */
  ghost predicate StartupCopies(w: World) {
    && (!w.client.startup.Ready? ==>
          w.stale == {} && forall p :: p in w.client.pending && p.Save? ==> Ids(p.records) <= w.captured)
    && (w.client.startup.Loaded? ==>
          forall r, y :: r in w.client.startup.records && y in w.durable && IdOf(y) == r.event.id ==> y.record == r)
  }

  ghost predicate Copies(w: World) {
    StartupCopies(w) && forall x :: Urgents(w, x) ==> CopyOf(w, x)
  }

  // ----- Pending copies --------------------------------------------------------------------------

  lemma {:induction false} CopiesAppend(pending: seq<Write>, p: Write, id: nat)
    ensures PendingCopies(pending + [p], id) == PendingCopies(pending, id) + CopyIn(p, id)
  {
    if pending != [] {
      assert (pending + [p])[1..] == pending[1..] + [p];
      CopiesAppend(pending[1..], p, id);
    }
  }

  lemma CopiesAfter(pending: seq<Write>, records: seq<Record>, ids: seq<nat>, id: nat)
    ensures PendingCopies(Persist(pending, records), id)
            == PendingCopies(pending, id) + (if NewestIn(records, id).Some? then [NewestIn(records, id).value] else [])
    ensures PendingCopies(RemovePersisted(pending, ids), id) == PendingCopies(pending, id)
  {
    if records != [] { CopiesAppend(pending, Save(records), id); }
    if ids != [] { CopiesAppend(pending, Remove(ids), id); }
  }

  lemma {:induction false} NoCopies(pending: seq<Write>, id: nat)
    requires forall p :: p in pending && p.Save? ==> id !in Ids(p.records)
    ensures PendingCopies(pending, id) == []
  {
    if pending != [] {
      assert pending[0] in pending;
      if pending[0].Save? { NewestMeaning(pending[0].records, id); }
      NoCopies(pending[1..], id);
    }
  }

  /** A save is the last pending word on an event exactly when there are copies of it to save and no removal. */
  lemma {:induction false} CopiesMention(pending: seq<Write>, id: nat)
    ensures LastMention(pending, id) == LastSaved ==> PendingCopies(pending, id) != []
    ensures LastMention(pending, id) == Unmentioned ==> PendingCopies(pending, id) == []
  {
    if pending != [] {
      MentionHead(pending, id);
      CopiesMention(pending[1..], id);
      if pending[0].Save? { NewestMeaning(pending[0].records, id); }
    }
  }

  /** The newest record for an id, where only one record has it. */
  lemma OnlyNewest(records: seq<Record>, x: Record)
    requires forall y :: y in records && y.event.id == x.event.id ==> y == x
    ensures NewestIn(records, x.event.id) == if x in records then Some(x) else None
  {
    NewestMeaning(records, x.event.id);
  }

  // ----- Copies of one event ---------------------------------------------------------------------

  /** The head of the chain has been saved. */
  lemma HeadSaved(h: Record, rest: seq<Record>, x: Record)
    requires LeadsTo([h] + rest, x)
    ensures LeadsTo(rest, x) && Precedes(h, rest, false, x)
  {
    var all := [h] + rest;
    assert all[|all| - 1] == x && all[0] == h;
    forall i, j | 0 <= i < j < |rest| ensures rest[i].attempts < rest[j].attempts {
      assert all[i + 1] == rest[i] && all[j + 1] == rest[j];
    }
    if rest != [] { assert all[1] == rest[0] && all[|all| - 1] == rest[|rest| - 1]; }
  }

  /** The head of the chain could not be saved. */
  lemma HeadFailed(d: Record, h: Record, rest: seq<Record>, was: bool, x: Record)
    requires LeadsTo([h] + rest, x) && Precedes(d, [h] + rest, was, x)
    ensures Precedes(d, rest, true, x)
  {
    HeadSaved(h, rest, x);
  }

  /** One attempt more is to be saved. */
  lemma NextSaved(durable: seq<Stored>, copies: seq<Record>, stale: bool, x: Record)
    requires CopyOk(durable, copies, stale, x)
    ensures CopyOk(durable, copies + [NextAttempt(x)], stale, NextAttempt(x))
  {
    var next := copies + [NextAttempt(x)];
    assert copies != [] ==> next[0] == copies[0];
    assert forall i :: 0 <= i < |copies| ==> copies[i].attempts <= x.attempts;
  }

  // ----- One step --------------------------------------------------------------------------------

  /** Nothing new in memory or to be saved, and the outbox only shrinks. */
  lemma CopiesStay(w: World, w': World)
    requires Copies(w) && StartupCopies(w') && w'.stale == w.stale
    requires w'.client.pending == w.client.pending && (forall y :: y in w'.durable ==> y in w.durable)
    requires forall x :: x in Memory(w'.client) ==> x in Memory(w.client)
    ensures Copies(w')
  {
    forall x | Urgents(w', x) ensures CopyOf(w', x) {
      assert Urgents(w, x) && CopyOf(w, x);
    }
  }

  /** The copies of an event that this step does not concern. */
  lemma SameCopies(w: World, w': World, x: Record)
    requires Copies(w) && Urgents(w, x) && w'.durable == w.durable && w'.stale == w.stale
    requires PendingCopies(w'.client.pending, x.event.id) == PendingCopies(w.client.pending, x.event.id)
    ensures CopyOf(w', x)
  {
  }

  lemma CaptureCopies(w: World, r: Record, l: Limits)
    requires Inv(w, l) && Copies(w) && Enabled(w, CaptureStep(r))
    ensures Copies(Do(w, CaptureStep(r), l))
  {
    var w' := Do(w, CaptureStep(r), l);
    CapturedMemory(w, w', r);
    forall x | Urgents(w', x) ensures CopyOf(w', x) {
      CapturedCopies(w.client, r, x.event.id);
      if x in Memory(w.client) {
        assert Held(w, x);
        SameCopies(w, w', x);
      } else {
        FreshCopy(w, l, r);
      }
    }
    CaptureStartupCopies(w, w', r);
  }

  lemma CapturedMemory(w: World, w': World, r: Record)
    requires w'.client == Capture(w.client, r)
    ensures forall x :: x in Memory(w'.client) ==> x in Memory(w.client) || (x == r && EnqueueSpec(w.client.queue, r).verdict == Accepted)
  {
    EvictedFromQueue(w.client.queue, r);
    assert InFlight(w'.client) == InFlight(w.client);
    forall x | x in Memory(w'.client) && x !in Memory(w.client) ensures x == r && EnqueueSpec(w.client.queue, r).verdict == Accepted {
      assert x in multiset(w'.client.queue) && x in w'.client.queue;
    }
  }

  lemma CapturedCopies(c: Client, r: Record, id: nat)
    ensures var copies := PendingCopies(c.pending, id);
            PendingCopies(Capture(c, r).pending, id)
            == if EnqueueSpec(c.queue, r).verdict == Accepted && r.priority == Immediate && id == r.event.id
               then copies + [r] else copies
  {
    var e := EnqueueSpec(c.queue, r);
    CopiesAfter(c.pending, [], UrgentIds(e.evicted), id);
    CopiesAfter(RemovePersisted(c.pending, UrgentIds(e.evicted)), [r], [], id);
    NewestMeaning([r], id);
  }

  /** A captured event has no copy yet. */
  lemma FreshCopy(w: World, l: Limits, r: Record)
    requires Inv(w, l) && Enabled(w, CaptureStep(r))
    ensures PendingCopies(w.client.pending, r.event.id) == []
    ensures forall y :: y in w.durable ==> IdOf(y) != r.event.id
  {
    NoCopies(w.client.pending, r.event.id);
    assert forall y :: y in w.durable ==> IdOf(y) in StoredIds(w.durable);
  }

  lemma CaptureStartupCopies(w: World, w': World, r: Record)
    requires StartupCopies(w) && w'.stale == w.stale && w'.durable == w.durable && w'.captured == w.captured + {r.event.id}
    requires w'.client == Capture(w.client, r)
    ensures StartupCopies(w')
  {
    var e := EnqueueSpec(w.client.queue, r);
    var removed := RemovePersisted(w.client.pending, UrgentIds(e.evicted));
    WritesOf(w.client.pending, UrgentIds(e.evicted), []);
    WritesOf(removed, [], [r]);
  }

  // ----- A failed flush --------------------------------------------------------------------------

  /** What is in the queue after a failure was there before or is a sent record with one attempt more. */
  lemma FailedMemory(w: World, k: nat, l: Limits, x: Record)
    requires SingleFlight(w.client) && MemoryOk(w) && Enabled(w, FailStep(k)) && x in Memory(Do(w, FailStep(k), l).client)
    ensures x.attempts < MAX_DELIVERY_ATTEMPTS
    ensures x in w.client.queue || (x.attempts > 0 && x.(attempts := x.attempts - 1) in w.client.ops[k].records)
  {
    var records := w.client.ops[k].records;
    var f := RetrySpec(w.client.queue, records);
    assert InFlight(w.client) == records && InFlight(Do(w, FailStep(k), l).client) == [];
    assert x in f.queue;
    RetryLive(w, records);
    RetriedOrQueued(w.client.queue, records, x);
  }

  lemma RetriedOrQueued(q: seq<Record>, records: seq<Record>, x: Record)
    requires x in RetrySpec(q, records).queue
    ensures x in q || (x.attempts > 0 && x.(attempts := x.attempts - 1) in records)
  {
    PrependMembers(q, Reattempted(records, false));
    ReattemptedFrom(records, false, x);
  }

  /** What a failure saves for an event. */
  lemma RetriedNewest(records: seq<Record>, x: Record)
    requires x.priority == Immediate && forall y :: y in records && y.event.id == x.event.id ==> y == x
    ensures NewestIn(UrgentOnly(Reattempted(records, false)), x.event.id)
            == if x in records && x.attempts + 1 < MAX_DELIVERY_ATTEMPTS then Some(NextAttempt(x)) else None
  {
    RetriedOnce(records, x);
    OnlyNewest(UrgentOnly(Reattempted(records, false)), NextAttempt(x));
  }

  lemma RetriedOnce(records: seq<Record>, x: Record)
    requires x.priority == Immediate && forall y :: y in records && y.event.id == x.event.id ==> y == x
    ensures forall y :: y in UrgentOnly(Reattempted(records, false)) && y.event.id == x.event.id ==> y == NextAttempt(x)
    ensures NextAttempt(x) in UrgentOnly(Reattempted(records, false))
            <==> x in records && x.attempts + 1 < MAX_DELIVERY_ATTEMPTS
  {
    var retried := Reattempted(records, false);
    OfPriorityMembers(retried, Immediate);
    ReattemptedFrom(records, false, NextAttempt(x));
    forall y | y in UrgentOnly(retried) && y.event.id == x.event.id ensures y == NextAttempt(x) {
      OnceRetried(records, x, y);
    }
  }

  lemma OnceRetried(records: seq<Record>, x: Record, y: Record)
    requires forall z :: z in records && z.event.id == x.event.id ==> z == x
    requires y in Reattempted(records, false) && y.event.id == x.event.id
    ensures y == NextAttempt(x)
  {
    ReattemptedFrom(records, false, y);
  }

  lemma FailedCopies(c: Client, k: nat, x: Record)
    requires k in c.ops && c.ops[k].Sending? && x.priority == Immediate
    requires forall y :: y in c.ops[k].records && y.event.id == x.event.id ==> y == x
    ensures PendingCopies(Fail(c, k).pending, x.event.id)
            == PendingCopies(c.pending, x.event.id)
               + if x in c.ops[k].records && x.attempts + 1 < MAX_DELIVERY_ATTEMPTS then [NextAttempt(x)] else []
  {
    var f := RetrySpec(c.queue, c.ops[k].records);
    var saved := UrgentOnly(f.retried);
    RetriedNewest(c.ops[k].records, x);
    CopiesAfter(c.pending, saved, [], x.event.id);
    CopiesAfter(Persist(c.pending, saved), [], UrgentIds(f.dropped), x.event.id);
  }

  /** What is in memory with the id of a record there is that record. */
  lemma OneInMemory(w: World, records: seq<Record>, x: Record)
    requires MemoryOk(w) && InFlight(w.client) == records && x in Memory(w.client)
    ensures forall y :: y in records && y.event.id == x.event.id ==> y == x
    ensures x in w.client.queue ==> x !in records
  {
    assert Memory(w.client) == multiset(w.client.queue) + multiset(records);
    forall y | y in records && y.event.id == x.event.id ensures y == x {
      assert y in multiset(records) && y in Memory(w.client);
    }
    assert x in records ==> multiset(records)[x] > 0;
    assert x in w.client.queue ==> multiset(w.client.queue)[x] > 0;
  }

  /** A sent record is back with one attempt more, and that is what is saved. */
  lemma RetriedCopy(w: World, w': World, k: nat, x: Record)
    requires MemoryOk(w) && Copies(w) && Enabled(w, FailStep(k)) && InFlight(w.client) == w.client.ops[k].records
    requires x in w.client.ops[k].records && x.priority == Immediate && x.attempts + 1 < MAX_DELIVERY_ATTEMPTS
    requires w'.client == Fail(w.client, k) && w'.durable == w.durable && w'.stale == w.stale
    ensures CopyOf(w', NextAttempt(x))
  {
    assert x in multiset(w.client.ops[k].records) && x in Memory(w.client);
    assert Urgents(w, x) && CopyOf(w, x);
    OneInMemory(w, w.client.ops[k].records, x);
    FailedCopies(w.client, k, x);
    NextSaved(w.durable, PendingCopies(w.client.pending, x.event.id), x.event.id in w.stale, x);
  }

  lemma QueuedCopy(w: World, w': World, k: nat, x: Record)
    requires MemoryOk(w) && Copies(w) && Enabled(w, FailStep(k)) && InFlight(w.client) == w.client.ops[k].records
    requires x in w.client.queue && x.priority == Immediate
    requires w'.client == Fail(w.client, k) && w'.durable == w.durable && w'.stale == w.stale
    ensures CopyOf(w', x)
  {
    assert x in multiset(w.client.queue) && x in Memory(w.client);
    OneInMemory(w, w.client.ops[k].records, x);
    FailedCopies(w.client, k, x);
    SameCopies(w, w', x);
  }

  lemma FailCopies(w: World, k: nat, l: Limits)
    requires Inv(w, l) && Copies(w) && Enabled(w, FailStep(k))
    ensures Copies(Do(w, FailStep(k), l))
  {
    var w' := Do(w, FailStep(k), l);
    assert InFlight(w.client) == w.client.ops[k].records;
    forall x | Urgents(w', x) ensures CopyOf(w', x) {
      FailedMemory(w, k, l, x);
      FailedCopy(w, w', k, x);
    }
  }

  lemma FailedCopy(w: World, w': World, k: nat, x: Record)
    requires MemoryOk(w) && Copies(w) && Enabled(w, FailStep(k)) && InFlight(w.client) == w.client.ops[k].records
    requires x in w.client.queue || (x.attempts > 0 && x.(attempts := x.attempts - 1) in w.client.ops[k].records)
    requires x.priority == Immediate && x.attempts < MAX_DELIVERY_ATTEMPTS
    requires w'.client == Fail(w.client, k) && w'.durable == w.durable && w'.stale == w.stale
    ensures CopyOf(w', x)
  {
    if x in w.client.queue {
      QueuedCopy(w, w', k, x);
    } else {
      var sent := x.(attempts := x.attempts - 1);
      RetriedCopy(w, w', k, sent);
      assert NextAttempt(sent) == x;
    }
  }

  // ----- A write ---------------------------------------------------------------------------------

  /** What a save leaves stored for an id. */
  lemma SavedCopy(listed: seq<Stored>, records: seq<Record>, now: int, l: Limits, y: Stored)
    requires UniqueIds(listed) && y in SaveSpec(listed, SCOPE, records, now, l).retained
    ensures if IdOf(y) in Ids(records) then NewestIn(records, IdOf(y)) == Some(y.record) else y in listed
  {
    if records != [] {
      RetainedIn(listed, records, now, l);
      MergedMeaning(listed, SCOPE, records, now);
      assert MergedEntry(y, listed, SCOPE, records, now);
    }
  }

  /** What one finished write leaves: what it saved for an id, or else what was stored. */
  ghost predicate Leaves(before: seq<Stored>, p: Write, after: seq<Stored>) {
    forall y :: y in after ==>
      if CopyIn(p, IdOf(y)) != [] then CopyIn(p, IdOf(y)) == [y.record] else y in before
  }

  lemma SaveLeaves(durable: seq<Stored>, listed: seq<Stored>, records: seq<Record>, now: int, l: Limits)
    requires UniqueIds(durable) && multiset(listed) == multiset(durable)
    ensures Leaves(durable, Save(records), SaveSpec(listed, SCOPE, records, now, l).retained)
  {
    UniqueIdsPermuted(durable, listed);
    forall y | y in SaveSpec(listed, SCOPE, records, now, l).retained
      ensures if CopyIn(Save(records), IdOf(y)) != [] then CopyIn(Save(records), IdOf(y)) == [y.record] else y in durable
    {
      SavedCopy(listed, records, now, l, y);
      NewestMeaning(records, IdOf(y));
    }
  }

  lemma RemoveLeaves(durable: seq<Stored>, ids: seq<nat>)
    ensures Leaves(durable, Remove(ids), WithoutIds(durable, IdSet(ids)))
  {
    WithoutIdsMembers(durable, IdSet(ids));
  }

  /** The copies of one event once the head of the chain has been written. */
  lemma HeadWritten(before: seq<Stored>, p: Write, after: seq<Stored>, rest: seq<Record>, was: bool, x: Record)
    requires Leaves(before, p, after) && CopyOk(before, CopyIn(p, x.event.id) + rest, was, x)
    ensures CopyOk(after, rest, was && CopyIn(p, x.event.id) == [], x)
  {
    var h := CopyIn(p, x.event.id);
    if h == [] {
      assert h + rest == rest;
    } else {
      HeadSaved(h[0], rest, x);
    }
  }

  /** The same once it has failed. */
  lemma HeadNotWritten(durable: seq<Stored>, h: seq<Record>, rest: seq<Record>, was: bool, x: Record)
    requires |h| <= 1 && CopyOk(durable, h + rest, was, x)
    ensures CopyOk(durable, rest, was || h != [], x)
  {
    if h == [] {
      assert h + rest == rest;
    } else {
      assert h == [h[0]];
      HeadSaved(h[0], rest, x);
      forall y | y in durable && IdOf(y) == x.event.id ensures Precedes(y.record, rest, true, x) {
        HeadFailed(y.record, h[0], rest, was, x);
      }
    }
  }

  /** Whether the head of the chain saves an event. */
  lemma Saves(p: Write, id: nat)
    ensures CopyIn(p, id) != [] <==> p.Save? && id in Ids(p.records)
  {
    if p.Save? { NewestMeaning(p.records, id); }
  }

  lemma WrittenCopies(w: World, w': World)
    requires Copies(w) && w.client.startup.Ready? && w.client.pending != [] && Leaves(w.durable, w.client.pending[0], w'.durable)
    requires w'.client == FinishWrite(w.client)
    requires w'.stale == if w.client.pending[0].Save? then w.stale - Ids(w.client.pending[0].records) else w.stale
    ensures Copies(w')
  {
    assert InFlight(w'.client) == InFlight(w.client);
    forall x | Urgents(w', x) ensures CopyOf(w', x) {
      assert Urgents(w, x) && CopyOf(w, x);
      Saves(w.client.pending[0], x.event.id);
      HeadWritten(w.durable, w.client.pending[0], w'.durable, PendingCopies(w.client.pending[1..], x.event.id),
                  x.event.id in w.stale, x);
    }
  }

  lemma UnwrittenCopies(w: World, w': World)
    requires Copies(w) && w.client.startup.Ready? && w.client.pending != [] && w'.durable == w.durable
    requires w'.client == FinishWrite(w.client)
    requires w'.stale == if w.client.pending[0].Save? then w.stale + Ids(w.client.pending[0].records) else w.stale
    ensures Copies(w')
  {
    assert InFlight(w'.client) == InFlight(w.client);
    forall x | Urgents(w', x) ensures CopyOf(w', x) {
      assert Urgents(w, x) && CopyOf(w, x);
      Saves(w.client.pending[0], x.event.id);
      HeadNotWritten(w.durable, CopyIn(w.client.pending[0], x.event.id), PendingCopies(w.client.pending[1..], x.event.id),
                     x.event.id in w.stale, x);
    }
  }

  lemma WriteCopies(w: World, s: Label, l: Limits)
    requires Inv(w, l) && Copies(w) && Enabled(w, s) && (s.WriteStep? || s.WriteFailsStep?)
    ensures Copies(Do(w, s, l))
  {
    match s
    case WriteFailsStep => UnwrittenCopies(w, Do(w, s, l));
    case WriteStep(now, listed) =>
      match w.client.pending[0] {
        case Save(records) => SaveLeaves(w.durable, listed, records, now, l);
        case Remove(ids) => RemoveLeaves(w.durable, ids);
      }
      WrittenCopies(w, Do(w, s, l));
  }

  // ----- Startup ---------------------------------------------------------------------------------

  lemma LoadCopies(w: World, now: int, listed: seq<Stored>, l: Limits)
    requires Inv(w, l) && Copies(w) && Enabled(w, LoadStep(now, listed))
    ensures Copies(Do(w, LoadStep(now, listed), l))
  {
    var w' := Do(w, LoadStep(now, listed), l);
    UniqueIdsPermuted(w.durable, listed);
    LoadMeaning(listed, l.ttlMs, now);
    LoadedAreStored(LoadSpec(listed, l.ttlMs, now), w'.durable);
    assert InFlight(w'.client) == InFlight(w.client);
    CopiesStay(w, w');
  }

  lemma LoadedAreStored(loaded: seq<Record>, kept: seq<Stored>)
    requires UniqueIds(kept) && forall r :: r in loaded ==> exists x :: x in kept && x.record == r
    ensures forall r, y :: r in loaded && y in kept && IdOf(y) == r.event.id ==> y.record == r
  {
  }

  lemma RestoreCopies(w: World, invalid: set<nat>, l: Limits)
    requires Inv(w, l) && Copies(w) && Enabled(w, RestoreStep(invalid))
    ensures Copies(Do(w, RestoreStep(invalid), l))
  {
    var w' := Do(w, RestoreStep(invalid), l);
    RestoredMemory(w, w', invalid);
    forall x | Urgents(w', x) ensures CopyOf(w', x) {
      if x in Memory(w.client) { SameCopies(w, w', x); } else { RestoredCopy(w, w', x); }
    }
  }

  lemma RestoredMemory(w: World, w': World, invalid: set<nat>)
    requires w.client.startup.Loaded? && w'.client == Delivery.Restore(w.client, invalid)
    ensures forall x :: x in Memory(w'.client) ==> x in Memory(w.client) || x in w.client.startup.records
  {
    var valid := Valid(w.client.startup.records, invalid);
    RestoreBrings(w.client.queue, valid);
    ValidMeaning(w.client.startup.records, invalid);
    assert InFlight(w'.client) == InFlight(w.client);
    BroughtIn(w'.client.queue, w.client.queue, valid);
  }

  lemma BroughtIn<T>(a: seq<T>, b: seq<T>, c: seq<T>)
    requires multiset(a) <= multiset(b) + multiset(c)
    ensures forall x :: x in a ==> x in b || x in c
  {
    assert forall x :: x in a ==> x in multiset(a) && x in multiset(b) + multiset(c);
  }

  /** A restored record is as it is stored, and nothing of it is about to be saved. */
  lemma RestoredCopy(w: World, w': World, x: Record)
    requires StartupOk(w) && Copies(w) && w.client.startup.Loaded? && x in w.client.startup.records
    requires w'.client.pending == w.client.pending && w'.durable == w.durable && w'.stale == w.stale
    ensures CopyOf(w', x)
  {
    NoCopies(w.client.pending, x.event.id);
  }

  // ----- Every step ------------------------------------------------------------------------------

  predicate BringsNoRecord(s: Label) { s.DrainStep? || (MovesNoRecord(s) && !s.LoadStep? && !s.WriteStep? && !s.WriteFailsStep?) }

  /** The other steps bring nothing into memory and save nothing. */
  lemma OthersBringNothing(w: World, s: Label, l: Limits)
    requires SingleFlight(w.client) && Enabled(w, s) && BringsNoRecord(s)
    ensures forall x :: x in Memory(Do(w, s, l).client) ==> x in Memory(w.client)
  {
    if s.DrainStep? { DrainBringsNothing(w, s.op, s.clock, l); } else { NoRecordMoves(w, s, l); }
  }

  lemma DrainBringsNothing(w: World, k: nat, now: nat, l: Limits)
    requires SingleFlight(w.client) && Enabled(w, DrainStep(k, now))
    ensures forall x :: x in Memory(Do(w, DrainStep(k, now), l).client) ==> x in Memory(w.client)
  {
    DrainedFromQueue(w.client.queue, w.client.ops[k].options, now);
    OnlyFromQueue(w.client, Delivery.Drain(w.client, k, now), FlushDrain(w.client.queue, w.client.ops[k].options, now));
  }

  lemma OnlyFromQueue(c: Client, c': Client, d: DrainOutcome)
    requires (forall x :: x in d.drained ==> x in c.queue) && (forall x :: x in d.queue ==> x in c.queue)
    requires c'.queue == d.queue && InFlight(c') == d.drained
    ensures forall x :: x in Memory(c') ==> x in Memory(c)
  {
    forall x | x in Memory(c') ensures x in Memory(c) {
      assert x in multiset(d.queue) || x in multiset(d.drained);
      assert x in c.queue && x in multiset(c.queue);
    }
  }

  lemma OthersKeepTheOutbox(w: World, s: Label, l: Limits)
    requires Enabled(w, s) && BringsNoRecord(s)
    ensures var w' := Do(w, s, l);
            && w'.client.pending == w.client.pending && w'.stale == w.stale && w'.captured == w.captured
            && (w'.client.startup == w.client.startup || w'.client.startup.Ready?)
            && forall y :: y in w'.durable ==> y in w.durable
  {
    match s
    case FinishRemovalStep(k, _) => WithoutIdsMembers(w.durable, Ids(w.client.ops[k].records));
    case FinishStartupStep(_) => WithoutIdsMembers(w.durable, w.client.startup.ids);
    case _ =>
  }

  lemma OthersCopies(w: World, s: Label, l: Limits)
    requires Inv(w, l) && Copies(w) && Enabled(w, s) && BringsNoRecord(s)
    ensures Copies(Do(w, s, l))
  {
    OthersBringNothing(w, s, l);
    OthersKeepTheOutbox(w, s, l);
    CopiesStay(w, Do(w, s, l));
  }

  lemma StepCopies(w: World, s: Label, l: Limits)
    requires Inv(w, l) && Copies(w) && Enabled(w, s)
    ensures Copies(Do(w, s, l))
  {
    if s.CaptureStep? { CaptureCopies(w, s.record, l); }
    else if s.FailStep? { FailCopies(w, s.op, l); }
    else if s.WriteStep? || s.WriteFailsStep? { WriteCopies(w, s, l); }
    else if BringsNoRecord(s) { OthersCopies(w, s, l); }
    else { StartupStepCopies(w, s, l); }
  }

  lemma StartupStepCopies(w: World, s: Label, l: Limits)
    requires Inv(w, l) && Copies(w) && Enabled(w, s) && (s.LoadStep? || s.RestoreStep? || s.CrashStep?)
    ensures Copies(Do(w, s, l))
  {
    match s
    case LoadStep(now, listed) => LoadCopies(w, now, listed, l);
    case RestoreStep(invalid) => RestoreCopies(w, invalid, l);
    case CrashStep =>
  }

  lemma {:induction false} RunKeepsCopies(durable: seq<Stored>, known: set<nat>, l: Limits, ws: seq<World>, ls: seq<Label>, n: nat)
    requires PageRun(durable, known, l, ws, ls) && n <= |ls|
    ensures Copies(ws[n])
    decreases n
  {
    if n > 0 {
      RunKeepsCopies(durable, known, l, ws, ls, n - 1);
      ReachedIsSafe(durable, known, l, ws, ls, n - 1);
      StepCopies(ws[n - 1], ls[n - 1], l);
    }
  }

  // ----- Stale copies ----------------------------------------------------------------------------

  ghost predicate SavesNow(w: World, id: nat) {
    w.client.pending != [] && w.client.pending[0].Save? && id in Ids(w.client.pending[0].records)
  }

  /** The last save of the event that has finished in this page's life failed. */
  ghost predicate LastSaveFailed(ws: seq<World>, ls: seq<Label>, id: nat, n: nat)
    requires |ws| == |ls| + 1 && n <= |ls|
  {
    exists i: nat :: FailedSince(ws, ls, id, i, n)
  }

  ghost predicate FailedSince(ws: seq<World>, ls: seq<Label>, id: nat, i: nat, n: nat)
    requires |ws| == |ls| + 1 && n <= |ls|
  {
    && i < n && ls[i].WriteFailsStep? && SavesNow(ws[i], id)
    && forall k :: i < k < n ==> !ls[k].CrashStep? && !(ls[k].WriteStep? && SavesNow(ws[k], id))
  }

  lemma StaleStep(w: World, s: Label, l: Limits, id: nat)
    requires Enabled(w, s)
    ensures id in Do(w, s, l).stale
            <==> (s.WriteFailsStep? && SavesNow(w, id))
                 || (id in w.stale && !s.CrashStep? && !(s.WriteStep? && SavesNow(w, id)))
  {
  }

  lemma {:induction false} StaleExactly(durable: seq<Stored>, known: set<nat>, l: Limits, ws: seq<World>, ls: seq<Label>, id: nat, n: nat)
    requires PageRun(durable, known, l, ws, ls) && n <= |ls|
    ensures id in ws[n].stale <==> LastSaveFailed(ws, ls, id, n)
    decreases n
  {
    if n > 0 {
      StaleExactly(durable, known, l, ws, ls, id, n - 1);
      StaleStep(ws[n - 1], ls[n - 1], l, id);
      LastSaveNext(ws, ls, id, n);
    }
  }

  lemma LastSaveNext(ws: seq<World>, ls: seq<Label>, id: nat, n: nat)
    requires |ws| == |ls| + 1 && 0 < n <= |ls|
    ensures LastSaveFailed(ws, ls, id, n)
            <==> (ls[n - 1].WriteFailsStep? && SavesNow(ws[n - 1], id))
                 || (LastSaveFailed(ws, ls, id, n - 1) && !ls[n - 1].CrashStep? && !(ls[n - 1].WriteStep? && SavesNow(ws[n - 1], id)))
  {
    var m: nat := n - 1;
    if ls[m].WriteFailsStep? && SavesNow(ws[m], id) {
      assert FailedSince(ws, ls, id, m, n);
    } else if i: nat :| FailedSince(ws, ls, id, i, n) {
      assert FailedSince(ws, ls, id, i, m);
    } else if i: nat :| FailedSince(ws, ls, id, i, m) {
      if !ls[m].CrashStep? && !(ls[m].WriteStep? && SavesNow(ws[m], id)) { assert FailedSince(ws, ls, id, i, n); }
    }
  }

  // ----- The outbox has the attempts right -------------------------------------------------------

  ghost predicate StoredAs(durable: seq<Stored>, x: Record) { exists y :: y in durable && y.record == x }

  /**
   * In every reachable state and for every urgent record in memory: the last pending save of it carries exactly
   * that record, attempts included; and if none is pending, exactly that record is stored if and only if the
   * outbox has not given the event up for good and the last finished save of it did not fail.
   */
  lemma OutboxHasTheAttempts(durable: seq<Stored>, known: set<nat>, l: Limits, ws: seq<World>, ls: seq<Label>, x: Record)
    requires PageRun(durable, known, l, ws, ls) && x in Memory(ws[|ls|].client) && x.priority == Immediate
    ensures var w := ws[|ls|]; var copies := PendingCopies(w.client.pending, x.event.id);
            match LastMention(w.client.pending, x.event.id)
            case LastRemoved => false
            case LastSaved => copies != [] && copies[|copies| - 1] == x
            case Unmentioned =>
              StoredAs(w.durable, x)
              <==> !GaveUp(ws, ls, l, x.event.id, |ls|) && !LastSaveFailed(ws, ls, x.event.id, |ls|)
  {
    var w := ws[|ls|];
    var id := x.event.id;
    UrgentEventsAreSecured(durable, known, l, ws, ls);
    RunKeepsCopies(durable, known, l, ws, ls, |ls|);
    NotRemoved(durable, known, l, ws, ls, id);
    CopiesMention(w.client.pending, id);
    assert CopyOf(w, x);
    if LastMention(w.client.pending, id) == Unmentioned {
      SecuredReachesTheOutbox(durable, known, l, ws, ls, id);
      StaleExactly(durable, known, l, ws, ls, id, |ls|);
      StoredAsHeld(w, x);
    }
  }

  lemma NotRemoved(durable: seq<Stored>, known: set<nat>, l: Limits, ws: seq<World>, ls: seq<Label>, id: nat)
    requires PageRun(durable, known, l, ws, ls) && Owed(ws[|ls|], id)
    ensures LastMention(ws[|ls|].client.pending, id) != LastRemoved
  {
    ReachedIsSafe(durable, known, l, ws, ls, |ls|);
    SecuredExactly(ws[|ls|], l, id);
  }

  lemma StoredAsHeld(w: World, x: Record)
    requires CopyOf(w, x) && PendingCopies(w.client.pending, x.event.id) == []
    ensures StoredAs(w.durable, x) <==> x.event.id in StoredIds(w.durable) && x.event.id !in w.stale
  {
    if x.event.id in StoredIds(w.durable) {
      var y :| y in w.durable && IdOf(y) == x.event.id;
      assert Precedes(y.record, [], x.event.id in w.stale, x);
    }
  }

  /** So after a crash the next life goes on with the attempts the event had, if it is live and validates. */
  lemma AttemptsSurviveACrash(durable: seq<Stored>, known: set<nat>, l: Limits, before: seq<World>, steps: seq<Label>,
                              ws: seq<World>, ls: seq<Label>, j: nat, x: Record)
    requires PageRun(durable, known, l, before, steps) && Restart(before[|steps|], l, ws, ls, j)
    requires x in Memory(before[|steps|].client) && x.priority == Immediate
    requires LastMention(before[|steps|].client.pending, x.event.id) == Unmentioned
    requires !GaveUp(before, steps, l, x.event.id, |steps|) && !LastSaveFailed(before, steps, x.event.id, |steps|)
    ensures StoredAs(before[|steps|].durable, x)
    ensures forall y ::
              y in before[|steps|].durable && y.record == x && Loadable(y, l.ttlMs, ls[j].now) && IdOf(y) !in ls[|ls| - 1].invalid ==>
                x in ws[|ls|].client.queue
  {
    OutboxHasTheAttempts(durable, known, l, before, steps, x);
    ReachedIsSafe(durable, known, l, before, steps, |steps|);
    StoredIsQueuedAgain(before[|steps|], l, ws, ls, j);
  }
}
