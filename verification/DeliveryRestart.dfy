/** A page dies and starts again: what the next life finds and queues, whatever happens in between. */
module DeliveryRestart {
  import opened Events
  import opened EventQueues
  import opened QueueProperties
  import opened StableSorting
  import opened Outbox
  import opened Delivery
  import opened DeliverySafety
  import opened DeliveryRuns
  import opened DeliveryLosses
  import opened DeliveryTheorems

  // ----- What the restore brings in ----------------------------------------------------------------

  lemma {:induction false} ValidUrgents(records: seq<Record>, invalid: set<nat>)
    requires DistinctIds(records)
    ensures var valid := Valid(records, invalid);
            && DistinctIds(valid) && |valid| <= |records| && Bytes(valid) <= Bytes(records)
            && (forall r :: r in valid <==> r in records && r.event.id !in invalid)
  {
    if records != [] {
      var first, rest := records[0], records[1..];
      ValidUrgents(rest, invalid);
      assert records == [first] + rest;
      assert forall i :: 0 <= i < |rest| ==> rest[i].event.id != first.event.id;
      if first.event.id !in invalid {
        var more := Valid(rest, invalid);
        assert Valid(records, invalid) == [first] + more && ([first] + more)[1..] == more;
        assert forall i :: 0 <= i < |more| ==> more[i] in more;
      } else {
        assert Valid(records, invalid) == Valid(rest, invalid);
      }
    }
  }

  /** The order of the loaded records is kept. */
  lemma {:induction false} ValidSorted(records: seq<Record>, invalid: set<nat>, key: Record -> int)
    requires Sorted(records, key)
    ensures Sorted(Valid(records, invalid), key)
    ensures forall r :: r in Valid(records, invalid) ==> r in records
  {
    if records != [] {
      ValidSorted(records[1..], invalid, key);
      assert forall r :: r in records[1..] ==> key(records[0]) <= key(r);
    }
  }

  /**
   * Restoring onto whatever was captured since the start queues every valid loaded record, in order, at the end,
   * and evicts the fewest of the others that make room.
   */
  lemma RestoreQueuesTheValid(w: World, invalid: set<nat>, l: Limits) returns (k: nat)
    requires Inv(w, l) && Enabled(w, RestoreStep(invalid))
    ensures var q, valid := w.client.queue, Valid(w.client.startup.records, invalid);
            && LeastForRestore(q, valid, k)
            && Do(w, RestoreStep(invalid), l).client.queue == Evicted(q, k) + valid
            && (k == 0 <==> WithinCapacity(q + valid))
  {
    var c := w.client;
    RestorableRecords(w, invalid, l);
    k := RestoreOntoAny(c.queue, Valid(c.startup.records, invalid));
    EvictedNone(c.queue);
    assert k > 0 ==> !WithinCapacity(Evicted(c.queue, 0) + Valid(c.startup.records, invalid));
  }

  /** The valid records are distinct and urgent, fit on their own, and none is queued. */
  lemma RestorableRecords(w: World, invalid: set<nat>, l: Limits)
    requires Inv(w, l) && w.client.startup.Loaded?
    ensures var valid := Valid(w.client.startup.records, invalid);
            && DistinctIds(valid) && WithinCapacity(valid)
            && forall r :: r in valid ==> r.priority == Immediate && r.event.id !in Ids(w.client.queue)
  {
    var c := w.client;
    DistinctSequence(c.startup.records);
    ValidUrgents(c.startup.records, invalid);
    forall r | r in Valid(c.startup.records, invalid) ensures r.priority == Immediate && r.event.id !in Ids(c.queue) {
      forall x | x in c.queue ensures x.event.id != r.event.id {
        assert x in Memory(c);
      }
    }
  }

  // ----- From the start to the restore -------------------------------------------------------------

  /** The page dies in `w`; its next life loads at step `j` and restores in the last step of the run. */
  ghost predicate Restart(w: World, l: Limits, ws: seq<World>, ls: seq<Label>, j: nat) {
    && PageRun(w.durable, w.known, l, ws, ls) && NoCrash(ls)
    && j < |ls| - 1 && ls[j].LoadStep? && ls[|ls| - 1].RestoreStep?
  }

  /** Such a run is how the protocol goes on after a crash. */
  lemma CrashRestarts(w: World, l: Limits)
    requires Inv(w, l)
    ensures PageRun(w.durable, w.known, l, [Do(w, CrashStep, l)], [])
  {
  }

  /** Until the outbox has been read nothing touches it. */
  lemma StepBeforeLoad(w: World, s: Label, l: Limits)
    requires StartupOk(w) && Enabled(w, s) && !s.CrashStep? && Do(w, s, l).client.startup.Loading?
    ensures w.client.startup.Loading? && Do(w, s, l).durable == w.durable
  {
  }

  lemma {:induction false} UntouchedBeforeLoad(durable: seq<Stored>, known: set<nat>, l: Limits, ws: seq<World>, ls: seq<Label>, i: nat)
    requires PageRun(durable, known, l, ws, ls) && NoCrash(ls)
    requires i <= |ls| && ws[i].client.startup.Loading?
    ensures ws[i].durable == durable
  {
    if i > 0 {
      StartupOkAt(durable, known, l, ws, ls, i - 1);
      StepBeforeLoad(ws[i - 1], ls[i - 1], l);
      UntouchedBeforeLoad(durable, known, l, ws, ls, i - 1);
    }
  }

  lemma StartupOkAt(durable: seq<Stored>, known: set<nat>, l: Limits, ws: seq<World>, ls: seq<Label>, i: nat)
    requires PageRun(durable, known, l, ws, ls) && i <= |ls|
    ensures StartupOk(ws[i])
  {
    ReachedIsSafe(durable, known, l, ws, ls, i);
  }

  /** Once read, the records wait unchanged for the restore. */
  lemma StepAfterLoad(w: World, s: Label, l: Limits)
    requires Enabled(w, s) && !s.CrashStep? && !w.client.startup.Loading?
    ensures var w' := Do(w, s, l);
            !w'.client.startup.Loading? && (w'.client.startup.Loaded? ==> w'.client.startup == w.client.startup)
  {
  }

  lemma {:induction false} UnchangedAfterLoad(ws: seq<World>, ls: seq<Label>, l: Limits, j: nat, i: nat)
    requires IsRun(ws, ls, l) && NoCrash(ls) && j < i <= |ls| && ls[j].LoadStep?
    ensures !ws[i].client.startup.Loading?
    ensures ws[i].client.startup.Loaded? ==> ws[i].client.startup == Loaded(LoadSpec(ls[j].listed, l.ttlMs, ls[j].now))
  {
    if i > j + 1 {
      UnchangedAfterLoad(ws, ls, l, j, i - 1);
      StepAfterLoad(ws[i - 1], ls[i - 1], l);
    } else {
      assert ws[j + 1] == Do(ws[j], ls[j], l);
    }
  }

  /** What the load reads is what the page left, and what waits for the restore is what it loaded. */
  lemma RestartLoads(w: World, l: Limits, ws: seq<World>, ls: seq<Label>, j: nat)
    requires Restart(w, l, ws, ls, j)
    ensures multiset(ls[j].listed) == multiset(w.durable)
    ensures ws[|ls| - 1].client.startup == Loaded(LoadSpec(ls[j].listed, l.ttlMs, ls[j].now))
  {
    LoadReads(w, l, ws, ls, j);
    UnchangedAfterLoad(ws, ls, l, j, |ls| - 1);
  }

  lemma LoadReads(w: World, l: Limits, ws: seq<World>, ls: seq<Label>, j: nat)
    requires Restart(w, l, ws, ls, j)
    ensures multiset(ls[j].listed) == multiset(w.durable)
  {
    assert Enabled(ws[j], ls[j]);
    UntouchedBeforeLoad(w.durable, w.known, l, ws, ls, j);
  }

  // ----- What a restart recovers -------------------------------------------------------------------

  /** The records the restart brings back. */
  function Recovered(ls: seq<Label>, l: Limits, j: nat): seq<Record>
    requires j < |ls| && ls[j].LoadStep? && ls[|ls| - 1].RestoreStep?
  {
    Valid(LoadSpec(ls[j].listed, l.ttlMs, ls[j].now), ls[|ls| - 1].invalid)
  }

  /**
   * Whatever is captured and attempted between the start and the restore, the queue then ends with exactly the
   * live urgent records of the outbox that validate, oldest event first; before them stands what was queued, less
   * the fewest evictions that make room.
   */
  lemma RestartRecoversTheOutbox(w: World, l: Limits, ws: seq<World>, ls: seq<Label>, j: nat) returns (k: nat)
    requires Inv(w, l) && Restart(w, l, ws, ls, j)
    ensures var q := ws[|ls| - 1].client.queue;
            && LeastForRestore(q, Recovered(ls, l, j), k)
            && ws[|ls|].client.queue == Evicted(q, k) + Recovered(ls, l, j) && Ids(q) !! Ids(Recovered(ls, l, j))
    ensures forall r :: r in Recovered(ls, l, j) <==>
              r.event.id !in ls[|ls| - 1].invalid && exists x :: x in w.durable && Loadable(x, l.ttlMs, ls[j].now) && x.record == r
    ensures Sorted(Recovered(ls, l, j), (r: Record) => r.event.timestamp)
  {
    var n := |ls| - 1;
    var listed, now, invalid := ls[j].listed, ls[j].now, ls[n].invalid;
    RestartLoads(w, l, ws, ls, j);
    ReachedIsSafe(w.durable, w.known, l, ws, ls, n);
    k := RestoreQueuesTheValid(ws[n], invalid, l);
    LoadedRecords(w, l, listed, now);
    DistinctSequence(LoadSpec(listed, l.ttlMs, now));
    ValidUrgents(LoadSpec(listed, l.ttlMs, now), invalid);
    ValidSorted(LoadSpec(listed, l.ttlMs, now), invalid, (r: Record) => r.event.timestamp);
    RecoveredApart(ws[n], LoadSpec(listed, l.ttlMs, now), invalid, l);
  }

  lemma RecoveredApart(w: World, records: seq<Record>, invalid: set<nat>, l: Limits)
    requires Inv(w, l) && w.client.startup == Loaded(records)
    requires forall r :: r in Valid(records, invalid) ==> r in records
    ensures Ids(w.client.queue) !! Ids(Valid(records, invalid))
  {
    forall x | x in w.client.queue ensures x.event.id !in Ids(records) {
      assert x in Memory(w.client);
    }
  }

  lemma LoadedRecords(w: World, l: Limits, listed: seq<Stored>, now: int)
    requires Inv(w, l) && multiset(listed) == multiset(w.durable)
    ensures var loaded := LoadSpec(listed, l.ttlMs, now);
            && Distinct(multiset(loaded)) && Sorted(loaded, (r: Record) => r.event.timestamp)
            && forall r :: r in loaded <==> exists x :: x in w.durable && Loadable(x, l.ttlMs, now) && x.record == r
  {
    UniqueIdsPermuted(w.durable, listed);
    SameStored(w.durable, listed);
    LoadMeaning(listed, l.ttlMs, now);
  }

  /**
   * A crash that lands once the writes that concern an owed urgent event have run: the event is stored exactly if
   * the outbox has not given it up for good, and then the next life queues it again, whatever else happens before
   * its restore, unless it is too old by then or does not validate.
   */
  lemma CrashLosesNoSavedEvent(durable: seq<Stored>, known: set<nat>, l: Limits, before: seq<World>, steps: seq<Label>,
                               ws: seq<World>, ls: seq<Label>, j: nat, id: nat)
    requires PageRun(durable, known, l, before, steps) && Restart(before[|steps|], l, ws, ls, j)
    requires Owed(before[|steps|], id) && LastMention(before[|steps|].client.pending, id) == Unmentioned
    ensures var w := before[|steps|];
            && (id in StoredIds(w.durable) <==> !GaveUp(before, steps, l, id, |steps|))
            && forall x :: x in w.durable && IdOf(x) == id && Loadable(x, l.ttlMs, ls[j].now) && id !in ls[|ls| - 1].invalid ==>
                 x.record in ws[|ls|].client.queue
  {
    var w := before[|steps|];
    SecuredReachesTheOutbox(durable, known, l, before, steps, id);
    ReachedIsSafe(durable, known, l, before, steps, |steps|);
    StoredIsQueuedAgain(w, l, ws, ls, j);
  }

  /** Whatever the outbox holds at a crash is queued again, if it is live and validates. */
  lemma StoredIsQueuedAgain(w: World, l: Limits, ws: seq<World>, ls: seq<Label>, j: nat)
    requires Inv(w, l) && Restart(w, l, ws, ls, j)
    ensures forall x :: x in w.durable && Loadable(x, l.ttlMs, ls[j].now) && IdOf(x) !in ls[|ls| - 1].invalid ==>
              x.record in ws[|ls|].client.queue
  {
    var k := RestartRecoversTheOutbox(w, l, ws, ls, j);
    forall x | x in w.durable && Loadable(x, l.ttlMs, ls[j].now) && IdOf(x) !in ls[|ls| - 1].invalid
      ensures x.record in ws[|ls|].client.queue
    {
      assert x.record in Recovered(ls, l, j);
    }
  }
}
