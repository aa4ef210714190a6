/** What becomes of every event the client has taken on, urgent or not. */
module DeliveryAccounts {
  import opened Events
  import opened EventQueues
  import opened QueueProperties
  import opened QueueAttempts
  import opened QueueDelivery
  import opened Outbox
  import opened Delivery
  import opened DeliverySafety
  import opened DeliveryRuns
  import opened DeliveryRestart

  /** Queued, in flight, acknowledged or reported dropped. */
  function Accounted(w: World): set<nat> {
    Ids(w.client.queue) + Ids(InFlight(w.client)) + w.acked + w.dropped
  }

  /** A restore pushes the event out of the queue; nothing reports it. */
  ghost predicate PushedOut(w: World, s: Label, id: nat) {
    && s.RestoreStep? && w.client.startup.Loaded? && id in Ids(w.client.queue)
    && id !in Ids(RestoreSpec(w.client.queue, Valid(w.client.startup.records, s.invalid)).queue)
  }

  // ----- One step --------------------------------------------------------------------------------

  lemma IdsOfParts(a: seq<Record>, b: seq<Record>, all: multiset<Record>)
    requires multiset(a) + multiset(b) == all
    ensures forall id :: id in Ids(a) + Ids(b) <==> exists x :: x in all && x.event.id == id
  {
    forall id ensures id in Ids(a) + Ids(b) <==> exists x :: x in all && x.event.id == id {
      if x :| (x in a || x in b) && x.event.id == id { assert x in all; }
    }
  }

  lemma SameIds(a: seq<Record>, b: seq<Record>, c: seq<Record>, d: seq<Record>)
    requires multiset(a) + multiset(b) == multiset(c) + multiset(d)
    ensures Ids(a) + Ids(b) == Ids(c) + Ids(d)
  {
    IdsOfParts(a, b, multiset(a) + multiset(b));
    IdsOfParts(c, d, multiset(a) + multiset(b));
  }

  lemma QueuedOrEvicted(q: seq<Record>, r: Record)
    ensures var e := EnqueueSpec(q, r);
            && Ids(q) <= Ids(e.queue) + Ids(e.evicted) <= Ids(q) + {r.event.id}
            && (e.verdict == Accepted ==> r in e.queue)
  {
    var k := EvictionsNeeded(q, r.event.bytes, Evictable(q, r.priority), 0);
    EvictedConserves(q, k);
    assert multiset(q) == multiset(q) + multiset([]);
    SameIds(Evicted(q, k), EvictionOrder(q)[..k], q, []);
  }

  lemma CaptureAccounts(w: World, r: Record, l: Limits)
    requires Enabled(w, CaptureStep(r))
    ensures var w' := Do(w, CaptureStep(r), l);
            && Accounted(w) <= Accounted(w') <= Accounted(w) + {r.event.id}
            && (EnqueueSpec(w.client.queue, r).verdict == Accepted ==> r.event.id in Accounted(w'))
  {
    QueuedOrEvicted(w.client.queue, r);
    assert InFlight(Do(w, CaptureStep(r), l).client) == InFlight(w.client);
  }

  lemma DrainSplits(q: seq<Record>, options: FlushOptions, now: nat)
    ensures var d := FlushDrain(q, options, now); Ids(d.drained) + Ids(d.queue) == Ids(q)
  {
    var d := FlushDrain(q, options, now);
    DrainPartitions(q, FLUSH_LIMIT, MaximumBytes(options), options.priority, now);
    assert multiset(q) == multiset(q) + multiset([]);
    SameIds(d.drained, d.queue, q, []);
  }

  /** Some of the queue goes in flight where nothing was. */
  lemma SentFromQueue(w: World, w': World, drained: seq<Record>)
    requires InFlight(w.client) == [] && InFlight(w'.client) == drained
    requires Ids(drained) + Ids(w'.client.queue) == Ids(w.client.queue) && w'.acked == w.acked && w'.dropped == w.dropped
    ensures Accounted(w') == Accounted(w)
  {
  }

  lemma DrainAccounts(w: World, k: nat, now: nat, l: Limits)
    requires SingleFlight(w.client) && Enabled(w, DrainStep(k, now))
    ensures Accounted(Do(w, DrainStep(k, now), l)) == Accounted(w)
  {
    DrainSplits(w.client.queue, w.client.ops[k].options, now);
    SentFromQueue(w, Do(w, DrainStep(k, now), l), FlushDrain(w.client.queue, w.client.ops[k].options, now).drained);
  }

  lemma ReattemptedSameIds(records: seq<Record>)
    ensures Ids(AllReattempted(records)) == Ids(records)
  {
    var again := AllReattempted(records);
    forall x | x in records ensures x.event.id in Ids(again) {
      var i :| 0 <= i < |records| && records[i] == x;
      assert again[i] in again;
    }
    forall x | x in again ensures x.event.id in Ids(records) {
      var i :| 0 <= i < |again| && again[i] == x;
      assert records[i] in records;
    }
  }

  lemma RetryAccounts(q: seq<Record>, records: seq<Record>)
    requires NoneOversize(records)
    ensures var f := RetrySpec(q, records); Ids(f.queue) + Ids(f.dropped) == Ids(q) + Ids(records)
  {
    var f := RetrySpec(q, records);
    NoneOversizeAgain(records);
    RetryConserves(q, records);
    SameIds(f.queue, f.dropped, q, AllReattempted(records));
    ReattemptedSameIds(records);
  }

  lemma FailAccounts(w: World, k: nat, l: Limits)
    requires SingleFlight(w.client) && MemoryOk(w) && Enabled(w, FailStep(k))
    ensures Accounted(Do(w, FailStep(k), l)) == Accounted(w)
  {
    var records := w.client.ops[k].records;
    assert InFlight(w.client) == records && InFlight(Do(w, FailStep(k), l).client) == [];
    InFlightSmall(w, records);
    RetryAccounts(w.client.queue, records);
  }

  lemma RestoreAccounts(w: World, invalid: set<nat>, l: Limits)
    requires Enabled(w, RestoreStep(invalid))
    ensures var w' := Do(w, RestoreStep(invalid), l);
            forall id :: id in Accounted(w) ==> id in Accounted(w') || PushedOut(w, RestoreStep(invalid), id)
  {
    assert InFlight(Do(w, RestoreStep(invalid), l).client) == InFlight(w.client);
  }

  /** No other step adds or takes anything. */
  lemma OthersAccount(w: World, s: Label, l: Limits)
    requires SingleFlight(w.client) && Enabled(w, s) && MovesNoRecord(s)
    ensures Accounted(Do(w, s, l)) == Accounted(w)
  {
    NoRecordMoves(w, s, l);
  }

  /** Only a restore takes an event off the account. */
  lemma StepAccounts(w: World, s: Label, l: Limits, id: nat)
    requires Inv(w, l) && Enabled(w, s) && !s.CrashStep? && id in Accounted(w)
    ensures id in Accounted(Do(w, s, l)) || PushedOut(w, s, id)
  {
    match s
    case CaptureStep(r) => CaptureAccounts(w, r, l);
    case DrainStep(k, now) => DrainAccounts(w, k, now, l);
    case FailStep(k) => FailAccounts(w, k, l);
    case RestoreStep(invalid) => RestoreAccounts(w, invalid, l);
    case _ => OthersAccount(w, s, l);
  }

  /** An event the client has known and no longer accounts for, once the restore is over. */
  ghost predicate Gone(w: World, id: nat) {
    && id in w.known && id !in Accounted(w)
    && !w.client.startup.Loading? && !w.client.startup.Loaded?
  }

  lemma StepGone(w: World, s: Label, l: Limits, id: nat)
    requires Inv(w, l) && Enabled(w, s) && !s.CrashStep? && Gone(w, id)
    ensures Gone(Do(w, s, l), id)
  {
    match s
    case CaptureStep(r) => CaptureAccounts(w, r, l);
    case DrainStep(k, now) => DrainAccounts(w, k, now, l);
    case FailStep(k) => FailAccounts(w, k, l);
    case _ => OthersAccount(w, s, l);
  }

  lemma PushedOutIsGone(w: World, s: Label, l: Limits, id: nat)
    requires MemoryOk(w) && StartupOk(w) && Enabled(w, s) && PushedOut(w, s, id)
    ensures Gone(Do(w, s, l), id)
  {
    QueuedIsHeld(w, id);
    NothingSentYet(Do(w, s, l).client, w);
  }

  lemma QueuedIsHeld(w: World, id: nat)
    requires MemoryOk(w) && id in Ids(w.client.queue)
    ensures id in w.known && id !in w.acked && id !in w.dropped
  {
    var x :| x in w.client.queue && x.event.id == id;
    assert x in Memory(w.client) && Held(w, x);
  }

  lemma NothingSentYet(c: Client, w: World)
    requires StartupOk(w) && !w.client.startup.Ready? && c.ops == w.client.ops && c.current == w.client.current
    ensures InFlight(c) == []
  {
  }

  // ----- When a restore pushes something out -----------------------------------------------------

  /** A restore pushes something out exactly when what is queued and what is restored do not fit together. */
  lemma PushesOutExactly(w: World, invalid: set<nat>, l: Limits)
    requires Inv(w, l) && Enabled(w, RestoreStep(invalid))
    ensures (exists id :: PushedOut(w, RestoreStep(invalid), id))
            <==> !WithinCapacity(w.client.queue + Valid(w.client.startup.records, invalid))
  {
    var q, valid := w.client.queue, Valid(w.client.startup.records, invalid);
    var k := RestoreQueuesTheValid(w, invalid, l);
    RestoreEvictsSome(w, invalid, l, k);
    PushedOutMeaning(w, invalid, valid, Evicted(q, k) + valid);
  }

  lemma RestoreEvictsSome(w: World, invalid: set<nat>, l: Limits, k: nat)
    requires Inv(w, l) && w.client.startup.Loaded? && k <= |w.client.queue|
    ensures var q, valid := w.client.queue, Valid(w.client.startup.records, invalid);
            (exists id :: id in Ids(q) && id !in Ids(Evicted(q, k) + valid)) <==> k > 0
  {
    RestorableRecords(w, invalid, l);
    QueueIsDistinct(w);
    SomeEvicted(w.client.queue, Valid(w.client.startup.records, invalid), k);
  }

  lemma PushedOutMeaning(w: World, invalid: set<nat>, valid: seq<Record>, left: seq<Record>)
    requires w.client.startup.Loaded? && valid == Valid(w.client.startup.records, invalid)
    requires RestoreSpec(w.client.queue, valid).queue == left
    ensures forall id :: PushedOut(w, RestoreStep(invalid), id) <==> id in Ids(w.client.queue) && id !in Ids(left)
  {
  }

  lemma QueueIsDistinct(w: World)
    requires MemoryOk(w)
    ensures Distinct(multiset(w.client.queue))
  {
    DistinctPart(Memory(w.client), multiset(w.client.queue));
  }

  lemma SomeEvicted(q: seq<Record>, valid: seq<Record>, k: nat)
    requires Distinct(multiset(q)) && k <= |q| && forall r :: r in valid ==> r.event.id !in Ids(q)
    ensures (exists id :: id in Ids(q) && id !in Ids(Evicted(q, k) + valid)) <==> k > 0
  {
    if k == 0 {
      EvictedNone(q);
      assert forall x :: x in q ==> x in Evicted(q, k) + valid;
    } else {
      FirstEvicted(q, valid, k);
    }
  }

  lemma FirstEvicted(q: seq<Record>, valid: seq<Record>, k: nat)
    requires Distinct(multiset(q)) && 0 < k <= |q| && forall r :: r in valid ==> r.event.id !in Ids(q)
    ensures exists id :: id in Ids(q) && id !in Ids(Evicted(q, k) + valid)
  {
    EvictedConserves(q, k);
    var gone := EvictionOrder(q)[..k];
    var x := gone[0];
    assert x in multiset(gone) && x in multiset(q);
    GoneApart(multiset(q), multiset(Evicted(q, k)), gone);
    assert forall y :: y in Evicted(q, k) ==> y in multiset(Evicted(q, k));
    assert x.event.id in Ids(q) && x.event.id !in Ids(Evicted(q, k) + valid);
  }

  // ----- Every run -------------------------------------------------------------------------------

  /** Some step from `i` to `n` pushed the event out. */
  ghost predicate PushedOutSince(ws: seq<World>, ls: seq<Label>, i: nat, n: nat, id: nat)
    requires |ws| == |ls| + 1 && n <= |ls|
  {
    exists j :: i <= j < n && PushedOut(ws[j], ls[j], id)
  }

  lemma PushedOutLater(ws: seq<World>, ls: seq<Label>, i: nat, n: nat, id: nat)
    requires |ws| == |ls| + 1 && i < n <= |ls|
    ensures PushedOutSince(ws, ls, i, n, id) <==> PushedOutSince(ws, ls, i, n - 1, id) || PushedOut(ws[n - 1], ls[n - 1], id)
  {
  }

  /** The step keeps the event on the account or pushes it out, and keeps it off once it is gone. */
  ghost predicate Keeps(w: World, s: Label, w': World, id: nat) {
    && (id in Accounted(w) ==> id in Accounted(w') || PushedOut(w, s, id))
    && (Gone(w, id) || PushedOut(w, s, id) ==> Gone(w', id))
  }

  lemma EachStepKeeps(durable: seq<Stored>, known: set<nat>, l: Limits, ws: seq<World>, ls: seq<Label>, i: nat, id: nat)
    requires PageRun(durable, known, l, ws, ls) && i < |ls| && !ls[i].CrashStep?
    ensures Keeps(ws[i], ls[i], ws[i + 1], id)
  {
    ReachedIsSafe(durable, known, l, ws, ls, i);
    if id in Accounted(ws[i]) { StepAccounts(ws[i], ls[i], l, id); }
    if Gone(ws[i], id) { StepGone(ws[i], ls[i], l, id); }
    if PushedOut(ws[i], ls[i], id) { PushedOutIsGone(ws[i], ls[i], l, id); }
  }

  /** Pushed out since the `i`-th step, and gone, or still accounted for. */
  ghost predicate Traced(ws: seq<World>, ls: seq<Label>, i: nat, n: nat, id: nat)
    requires |ws| == |ls| + 1 && n <= |ls|
  {
    if PushedOutSince(ws, ls, i, n, id) then Gone(ws[n], id) else id in Accounted(ws[n])
  }

  lemma TracedNext(ws: seq<World>, ls: seq<Label>, i: nat, n: nat, id: nat)
    requires |ws| == |ls| + 1 && i < n <= |ls|
    requires Traced(ws, ls, i, n - 1, id) && Keeps(ws[n - 1], ls[n - 1], ws[n], id)
    ensures Traced(ws, ls, i, n, id)
  {
    PushedOutLater(ws, ls, i, n, id);
  }

  lemma {:induction false} TracedThroughout(ws: seq<World>, ls: seq<Label>, i: nat, n: nat, id: nat)
    requires |ws| == |ls| + 1 && i <= n <= |ls| && id in Accounted(ws[i])
    requires forall k :: i <= k < n ==> Keeps(ws[k], ls[k], ws[k + 1], id)
    ensures Traced(ws, ls, i, n, id)
    decreases n
  {
    if i < n {
      TracedThroughout(ws, ls, i, n - 1, id);
      TracedNext(ws, ls, i, n, id);
    }
  }

  /**
   * Whatever the client has once accounted for stays queued, in flight, acknowledged or reported dropped for the
   * rest of the page's life, exactly if no restore has pushed it out.
   */
  lemma EverythingIsAccountedFor(durable: seq<Stored>, known: set<nat>, l: Limits, ws: seq<World>, ls: seq<Label>, i: nat, n: nat, id: nat)
    requires PageRun(durable, known, l, ws, ls) && i <= n <= |ls| && id in Accounted(ws[i])
    requires forall k :: i <= k < n ==> !ls[k].CrashStep?
    ensures id in Accounted(ws[n]) <==> !PushedOutSince(ws, ls, i, n, id)
  {
    forall k | i <= k < n ensures Keeps(ws[k], ls[k], ws[k + 1], id) {
      EachStepKeeps(durable, known, l, ws, ls, k, id);
    }
    TracedThroughout(ws, ls, i, n, id);
  }

  /** So every event that capture accepted is, at every later point of the page's life, in one of those places. */
  lemma AcceptedAreAccountedFor(durable: seq<Stored>, known: set<nat>, l: Limits, ws: seq<World>, ls: seq<Label>,
                                i: nat, n: nat, r: Record)
    requires PageRun(durable, known, l, ws, ls) && i < n <= |ls| && ls[i] == CaptureStep(r)
    requires EnqueueSpec(ws[i].client.queue, r).verdict == Accepted
    requires forall k :: i <= k < n ==> !ls[k].CrashStep?
    ensures r.event.id in Accounted(ws[n]) <==> !PushedOutSince(ws, ls, i + 1, n, r.event.id)
  {
    CaptureAccounts(ws[i], r, l);
    EverythingIsAccountedFor(durable, known, l, ws, ls, i + 1, n, r.event.id);
  }
}
