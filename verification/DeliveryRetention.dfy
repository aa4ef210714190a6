/** When the outbox gives up nothing: no write fails, nothing grows too old, everything validates and it all fits. */
module DeliveryRetention {
  import opened Events
  import opened EventQueues
  import opened QueueProperties
  import opened QueueAttempts
  import opened Outbox
  import opened Delivery
  import opened DeliverySafety
  import opened DeliveryRuns
  import opened DeliveryLosses

  function EventBytes(events: seq<Event>): nat {
    if events == [] then 0 else events[0].bytes + EventBytes(events[1..])
  }

  /** Distinct events that fit the outbox all together. */
  ghost predicate FitsOutbox(taken: seq<Event>, l: Limits) {
    && (forall i, j :: 0 <= i < j < |taken| ==> taken[i].id != taken[j].id)
    && |taken| <= l.maxEvents && EventBytes(taken) <= l.maxBytes
  }

  /** No write fails, every stored entry is still live when the outbox looks at it, and what it loads validates. */
  ghost predicate Untroubled(w: World, s: Label, l: Limits) {
    match s
    case WriteFailsStep => false
    case WriteStep(now, _) => forall x :: x in w.durable ==> LiveAt(x, l.ttlMs, now)
    case LoadStep(now, _) => forall x :: x in w.durable ==> Loadable(x, l.ttlMs, now)
    case RestoreStep(invalid) => w.client.startup.Loaded? ==> Ids(w.client.startup.records) !! invalid
    case _ => true
  }

  ghost predicate Undisturbed(ws: seq<World>, ls: seq<Label>, l: Limits)
    requires |ws| == |ls| + 1
  {
    forall i :: 0 <= i < |ls| ==> Untroubled(ws[i], ls[i], l)
  }

  ghost predicate UrgentFrom(records: seq<Record>, taken: seq<Event>) {
    forall x :: x in records && x.priority == Immediate ==> x.event in taken
  }

  ghost predicate SavesFrom(pending: seq<Write>, taken: seq<Event>) {
    forall p :: p in pending && p.Save? ==> SavedFrom(p.records, taken)
  }

  ghost predicate SavedFrom(records: seq<Record>, taken: seq<Event>) {
    forall x :: x in records ==> x.event in taken && x.attempts < MAX_ATTEMPTS
  }

  ghost predicate StoredFrom(durable: seq<Stored>, taken: seq<Event>) {
    forall x :: x in durable ==> x.record.event in taken
  }

  /** Everything urgent the client holds, saves or has stored is one of these events. */
  ghost predicate AllFrom(w: World, taken: seq<Event>) {
    && UrgentFrom(w.client.queue, taken) && UrgentFrom(InFlight(w.client), taken)
    && SavesFrom(w.client.pending, taken) && StoredFrom(w.durable, taken)
    && (w.client.startup.Loaded? ==> UrgentFrom(w.client.startup.records, taken))
    && !w.client.startup.Clearing?
  }

  lemma CaptureFrom(w: World, w': World, r: Record, taken: seq<Event>)
    requires AllFrom(w, taken) && r.attempts == 0 && (r.priority == Immediate ==> r.event in taken)
    requires w'.client == Capture(w.client, r) && w'.durable == w.durable
    ensures AllFrom(w', taken)
  {
    EvictedFromQueue(w.client.queue, r);
    var e := EnqueueSpec(w.client.queue, r);
    var removed := RemovePersisted(w.client.pending, UrgentIds(e.evicted));
    assert SavesFrom(removed, taken);
    assert SavedFrom([r], taken) || r.priority == Batch;
    assert InFlight(w'.client) == InFlight(w.client);
  }

  /** A flush operation moves on without new records. */
  lemma FlushFrom(w: World, w': World, taken: seq<Event>)
    requires AllFrom(w, taken)
    requires UrgentFrom(w'.client.queue, taken) && UrgentFrom(InFlight(w'.client), taken)
    requires w'.client.pending == w.client.pending && w'.client.startup == w.client.startup
    requires forall x :: x in w'.durable ==> x in w.durable
    ensures AllFrom(w', taken)
  {
  }

  lemma FailFrom(w: World, w': World, k: nat, taken: seq<Event>)
    requires AllFrom(w, taken) && k in w.client.ops && w.client.ops[k].Sending? && InFlight(w.client) == w.client.ops[k].records
    requires w'.client == Fail(w.client, k) && w'.durable == w.durable && InFlight(w'.client) == []
    ensures AllFrom(w', taken)
  {
    var c := w.client;
    var records := c.ops[k].records;
    var f := RetrySpec(c.queue, records);
    RetriedFrom(records, taken);
    PrependMembers(c.queue, f.retried);
    OfPriorityMembers(f.retried, Immediate);
    assert SavedFrom(UrgentOnly(f.retried), taken);
    assert SavesFrom(Persist(c.pending, UrgentOnly(f.retried)), taken);
  }

  lemma RetriedFrom(records: seq<Record>, taken: seq<Event>)
    requires UrgentFrom(records, taken)
    ensures UrgentFrom(Reattempted(records, false), taken)
    ensures forall x :: x in Reattempted(records, false) ==> x.attempts < MAX_ATTEMPTS
  {
    forall x | x in Reattempted(records, false) ensures x.attempts < MAX_ATTEMPTS && (x.priority == Immediate ==> x.event in taken) {
      ReattemptedFrom(records, false, x);
    }
  }

  lemma LoadFrom(w: World, w': World, now: int, listed: seq<Stored>, l: Limits, taken: seq<Event>)
    requires AllFrom(w, taken) && UniqueIds(w.durable) && multiset(listed) == multiset(w.durable)
    requires w'.client == FinishLoad(w.client, LoadSpec(listed, l.ttlMs, now)) && w'.durable == LoadableOnly(listed, l.ttlMs, now)
    ensures AllFrom(w', taken)
  {
    UniqueIdsPermuted(w.durable, listed);
    SameStored(w.durable, listed);
    LoadMeaning(listed, l.ttlMs, now);
    assert InFlight(w'.client) == InFlight(w.client);
    forall r | r in LoadSpec(listed, l.ttlMs, now) ensures r.event in taken {
      var x :| x in listed && Loadable(x, l.ttlMs, now) && x.record == r;
    }
  }

  lemma RestoreFrom(w: World, w': World, invalid: set<nat>, taken: seq<Event>)
    requires AllFrom(w, taken) && w.client.startup.Loaded? && Ids(w.client.startup.records) !! invalid
    requires w'.client == Delivery.Restore(w.client, invalid) && w'.durable == w.durable
    ensures AllFrom(w', taken)
  {
    var c := w.client;
    AllValid(c.startup.records, invalid);
    RestoreMembers(c.queue, c.startup.records);
    assert InFlight(w'.client) == InFlight(c);
  }

  lemma {:induction false} AllValid(records: seq<Record>, invalid: set<nat>)
    requires Ids(records) !! invalid
    ensures Valid(records, invalid) == records
  {
    if records != [] {
      assert records[0].event.id in Ids(records) && Ids(records[1..]) <= Ids(records);
      AllValid(records[1..], invalid);
      assert records == [records[0]] + records[1..];
    }
  }

  lemma {:induction false} RestoreMembers(q: seq<Record>, records: seq<Record>)
    ensures forall x :: x in RestoreSpec(q, records).queue ==> x in q || x in records
  {
    if records != [] {
      var n := |records| - 1;
      RestoreMembers(q, records[..n]);
      EvictedFromQueue(RestoreSpec(q, records[..n]).queue, records[n]);
    }
  }

  lemma SaveFrom(w: World, w': World, now: int, listed: seq<Stored>, l: Limits, taken: seq<Event>)
    requires AllFrom(w, taken) && UniqueIds(w.durable) && multiset(listed) == multiset(w.durable)
    requires w.client.pending != [] && w.client.pending[0].Save?
    requires w'.client == FinishWrite(w.client)
    requires w'.durable == SaveSpec(listed, SCOPE, w.client.pending[0].records, now, l).retained
    ensures AllFrom(w', taken)
  {
    var records := w.client.pending[0].records;
    assert w.client.pending[0] in w.client.pending;
    UniqueIdsPermuted(w.durable, listed);
    SameStored(w.durable, listed);
    assert InFlight(w'.client) == InFlight(w.client);
    if records != [] {
      RetainedIn(listed, records, now, l);
      MergedFrom(listed, records, now, taken);
    }
  }

  lemma MergedFrom(listed: seq<Stored>, records: seq<Record>, now: int, taken: seq<Event>)
    requires UniqueIds(listed) && StoredFrom(listed, taken) && SavedFrom(records, taken)
    ensures StoredFrom(Merged(listed, SCOPE, records, now), taken)
  {
    MergedMeaning(listed, SCOPE, records, now);
    forall x | x in Merged(listed, SCOPE, records, now) ensures x.record.event in taken {
      assert MergedEntry(x, listed, SCOPE, records, now);
      NewestMeaning(records, IdOf(x));
    }
  }

  // ----- One step --------------------------------------------------------------------------------

  lemma FlushStepFrom(w: World, s: Label, l: Limits, taken: seq<Event>)
    requires Inv(w, l) && Enabled(w, s) && AllFrom(w, taken)
    requires s.FlushStep? || s.PassReadyStep? || s.AcknowledgeStep? || s.FinishRemovalStep? || s.SettleStep? || s.ResumeStep?
    ensures AllFrom(Do(w, s, l), taken)
  {
    var w' := Do(w, s, l);
    match s
    case FlushStep(options) => FlushMoves(w.client, options); FlushFrom(w, w', taken);
    case FinishRemovalStep(k, removed) =>
      WithoutIdsMembers(w.durable, Ids(w.client.ops[k].records));
      assert InFlight(w'.client) == [];
      FlushFrom(w, w', taken);
    case ResumeStep =>
      var next := w.client.(callbacks := w.client.callbacks[1..], followUp := None);
      if w.client.followUp.Some? { FlushMoves(next, w.client.followUp.value); }
      assert InFlight(next) == InFlight(w.client);
      FlushFrom(w, w', taken);
    case PassReadyStep(_) => assert InFlight(w'.client) == []; FlushFrom(w, w', taken);
    case AcknowledgeStep(_) => assert InFlight(w'.client) == []; FlushFrom(w, w', taken);
    case SettleStep(_) => assert InFlight(w'.client) == []; FlushFrom(w, w', taken);
  }

  lemma DrainFrom(w: World, k: nat, now: nat, l: Limits, taken: seq<Event>)
    requires Inv(w, l) && Enabled(w, DrainStep(k, now)) && AllFrom(w, taken)
    ensures AllFrom(Do(w, DrainStep(k, now), l), taken)
  {
    var w' := Do(w, DrainStep(k, now), l);
    var d := FlushDrain(w.client.queue, w.client.ops[k].options, now);
    DrainedFromQueue(w.client.queue, w.client.ops[k].options, now);
    assert InFlight(w'.client) == d.drained;
    FlushFrom(w, w', taken);
  }

  lemma RemoveFrom(w: World, w': World, ids: set<nat>, taken: seq<Event>)
    requires AllFrom(w, taken) && w.client.pending != []
    requires w'.client == FinishWrite(w.client) && w'.durable == WithoutIds(w.durable, ids)
    ensures AllFrom(w', taken)
  {
    WithoutIdsMembers(w.durable, ids);
    assert InFlight(w'.client) == InFlight(w.client);
  }

  lemma WriteFrom(w: World, now: int, listed: seq<Stored>, l: Limits, taken: seq<Event>)
    requires Inv(w, l) && Enabled(w, WriteStep(now, listed)) && AllFrom(w, taken)
    ensures AllFrom(Do(w, WriteStep(now, listed), l), taken)
  {
    match w.client.pending[0]
    case Save(_) => SaveFrom(w, Do(w, WriteStep(now, listed), l), now, listed, l, taken);
    case Remove(ids) => RemoveFrom(w, Do(w, WriteStep(now, listed), l), IdSet(ids), taken);
  }

  lemma StepFrom(w: World, s: Label, l: Limits, taken: seq<Event>)
    requires Inv(w, l) && Enabled(w, s) && AllFrom(w, taken) && Untroubled(w, s, l)
    requires s.CaptureStep? && s.record.priority == Immediate ==> s.record.event in taken
    ensures AllFrom(Do(w, s, l), taken)
  {
    if s.CaptureStep? { CaptureFrom(w, Do(w, s, l), s.record, taken); }
    else if s.DrainStep? { DrainFrom(w, s.op, s.clock, l, taken); }
    else if s.FailStep? { FailFrom(w, Do(w, s, l), s.op, taken); }
    else if s.LoadStep? || s.LoadFailsStep? || s.RestoreStep? || s.FinishStartupStep? { StartupStepFrom(w, s, l, taken); }
    else if s.WriteStep? { WriteFrom(w, s.now, s.listed, l, taken); }
    else if !s.CrashStep? { FlushStepFrom(w, s, l, taken); }
  }

  lemma StartupStepFrom(w: World, s: Label, l: Limits, taken: seq<Event>)
    requires Inv(w, l) && Enabled(w, s) && AllFrom(w, taken) && Untroubled(w, s, l)
    requires s.LoadStep? || s.LoadFailsStep? || s.RestoreStep? || s.FinishStartupStep?
    ensures AllFrom(Do(w, s, l), taken)
  {
    match s
    case LoadStep(now, listed) => LoadFrom(w, Do(w, s, l), now, listed, l, taken);
    case RestoreStep(invalid) => RestoreFrom(w, Do(w, s, l), invalid, taken);
    case LoadFailsStep => assert InFlight(Do(w, s, l).client) == InFlight(w.client);
    case FinishStartupStep(_) => assert false;
  }

  /** Entries of distinct ids that are all among some events are no more and no bigger than those. */
  lemma {:induction false} AmongFits(c: seq<Stored>, taken: seq<Event>)
    requires UniqueIds(c) && StoredFrom(c, taken)
    ensures |c| <= |taken| && Size(c) <= EventBytes(taken)
  {
    if c != [] {
      var i :| 0 <= i < |taken| && taken[i] == c[0].record.event;
      var rest := taken[..i] + taken[i + 1..];
      EventBytesWithout(taken, i);
      forall x | x in c[1..] ensures x.record.event in rest {
        var j :| 0 <= j < |taken| && taken[j] == x.record.event;
        var k :| 0 < k < |c| && c[k] == x;
        assert j != i;
        assert taken[j] == rest[if j < i then j else j - 1];
      }
      AmongFits(c[1..], rest);
    }
  }

  lemma {:induction false} EventBytesWithout(events: seq<Event>, i: nat)
    requires i < |events|
    ensures EventBytes(events) == EventBytes(events[..i] + events[i + 1..]) + events[i].bytes
  {
    var rest := events[..i] + events[i + 1..];
    if i > 0 {
      assert rest[0] == events[0] && rest[1..] == events[1..][..i - 1] + events[1..][i..];
      EventBytesWithout(events[1..], i - 1);
    } else {
      assert rest == events[1..];
    }
  }

  lemma {:induction false} RetainedIsSmaller(c: seq<Stored>, l: Limits)
    ensures |RetainNewest(c, l)| <= |c| && Size(RetainNewest(c, l)) <= Size(c)
  {
    if c != [] {
      RetainedIsSmaller(c[1..], l);
      SizeAppend(RetainNewest(c[1..], l), [c[0]]);
    }
  }

  /** What fits altogether leaves no entry crowded out. */
  lemma NotCrowded(c: seq<Stored>, l: Limits, x: Stored)
    requires |c| <= l.maxEvents && Size(c) <= l.maxBytes
    ensures !Crowded(c, l, x)
  {
    forall i | 0 <= i < |c| ensures !NoRoomAt(c, l, i) {
      RetainedIsSmaller(c[i + 1..], l);
      SizeAround(c, i);
    }
  }

  lemma {:induction false} SizeAround(c: seq<Stored>, i: nat)
    requires i < |c|
    ensures c[i].record.event.bytes + Size(c[i + 1..]) <= Size(c)
  {
    if i > 0 {
      assert c[1..][i - 1] == c[i] && c[1..][i..] == c[i + 1..];
      SizeAround(c[1..], i - 1);
    }
  }

  lemma SaveKeepsAll(w: World, now: int, listed: seq<Stored>, l: Limits, taken: seq<Event>, x: Stored)
    requires Inv(w, l) && Enabled(w, WriteStep(now, listed)) && AllFrom(w, taken) && FitsOutbox(taken, l)
    requires Untroubled(w, WriteStep(now, listed), l) && w.client.pending[0].Save?
    ensures !SaveGivesUp(listed, w.client.pending[0].records, now, l, x)
  {
    var records := w.client.pending[0].records;
    var c := Outbox.Candidates(listed, SCOPE, records, now, l.ttlMs);
    assert w.client.pending[0] in w.client.pending;
    UniqueIdsPermuted(w.durable, listed);
    SameStored(w.durable, listed);
    if records != [] && x in Merged(listed, SCOPE, records, now) {
      MergedLive(listed, records, now, l, taken, x);
      MergedFrom(listed, records, now, taken);
      CandidatesMeaning(listed, SCOPE, records, now, l.ttlMs);
      AmongFits(c, taken);
      NotCrowded(c, l, x);
    }
  }

  lemma MergedLive(listed: seq<Stored>, records: seq<Record>, now: int, l: Limits, taken: seq<Event>, x: Stored)
    requires ValidLimits(l) && UniqueIds(listed) && SavedFrom(records, taken) && x in Merged(listed, SCOPE, records, now)
    requires forall y :: y in listed ==> LiveAt(y, l.ttlMs, now)
    ensures LiveAt(x, l.ttlMs, now)
  {
    MergedMeaning(listed, SCOPE, records, now);
    assert MergedEntry(x, listed, SCOPE, records, now);
    NewestMeaning(records, IdOf(x));
    if IdOf(x) in Ids(records) {
      if y :| y in listed && IdOf(y) == IdOf(x) { assert x.storedAt == y.storedAt; }
    }
  }

  lemma NoneGivenUp(w: World, s: Label, l: Limits, taken: seq<Event>, id: nat)
    requires Inv(w, l) && Enabled(w, s) && AllFrom(w, taken) && Untroubled(w, s, l) && FitsOutbox(taken, l)
    ensures !GivenUp(w, s, l, id)
  {
    if s.WriteStep? && w.client.pending[0].Save? {
      forall x ensures !SaveGivesUp(s.listed, w.client.pending[0].records, s.now, l, x) {
        SaveKeepsAll(w, s.now, s.listed, l, taken, x);
      }
    }
  }

  lemma StepLosesNothing(w: World, s: Label, l: Limits, taken: seq<Event>)
    requires Inv(w, l) && Enabled(w, s) && AllFrom(w, taken) && Untroubled(w, s, l) && FitsOutbox(taken, l) && w.lost == {}
    ensures Do(w, s, l).lost == {}
  {
    if !s.CrashStep? {
      forall id ensures id !in Do(w, s, l).lost {
        LossesExactly(w, s, l, id);
        NoneGivenUp(w, s, l, taken, id);
      }
    }
  }

  // ----- Every run -------------------------------------------------------------------------------

  ghost predicate TakesOnly(ls: seq<Label>, taken: seq<Event>) {
    forall i :: 0 <= i < |ls| && ls[i].CaptureStep? && ls[i].record.priority == Immediate ==> ls[i].record.event in taken
  }

  lemma {:induction false} NothingLost(durable: seq<Stored>, known: set<nat>, l: Limits, ws: seq<World>, ls: seq<Label>,
                                       taken: seq<Event>, i: nat)
    requires PageRun(durable, known, l, ws, ls) && Undisturbed(ws, ls, l) && FitsOutbox(taken, l)
    requires StoredFrom(durable, taken) && TakesOnly(ls, taken) && i <= |ls|
    ensures AllFrom(ws[i], taken) && ws[i].lost == {}
  {
    if i > 0 {
      NothingLost(durable, known, l, ws, ls, taken, i - 1);
      NothingLostAt(durable, known, l, ws, ls, taken, i - 1);
    }
  }

  lemma NothingLostAt(durable: seq<Stored>, known: set<nat>, l: Limits, ws: seq<World>, ls: seq<Label>, taken: seq<Event>, i: nat)
    requires PageRun(durable, known, l, ws, ls) && i < |ls| && Untroubled(ws[i], ls[i], l) && FitsOutbox(taken, l)
    requires ls[i].CaptureStep? && ls[i].record.priority == Immediate ==> ls[i].record.event in taken
    requires AllFrom(ws[i], taken) && ws[i].lost == {}
    ensures AllFrom(ws[i + 1], taken) && ws[i + 1].lost == {}
  {
    ReachedIsSafe(durable, known, l, ws, ls, i);
    StepFrom(ws[i], ls[i], l, taken);
    StepLosesNothing(ws[i], ls[i], l, taken);
  }
}
