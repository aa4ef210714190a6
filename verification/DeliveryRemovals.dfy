/** What has to leave the outbox leaves it and stays away: invalid, delivered and dropped events. */
module DeliveryRemovals {
  import opened Events
  import opened EventQueues
  import opened QueueProperties
  import opened QueueDelivery
  import opened QueueAttempts
  import opened Outbox
  import opened Delivery
  import opened DeliverySafety
  import opened DeliveryRuns
  import opened DeliveryOrder
  import opened DeliveryCopies

  /** No crash from the `i`-th state to the `n`-th. */
  ghost predicate OneLife(ls: seq<Label>, i: nat, n: nat)
    requires n <= |ls|
  {
    forall k :: i <= k < n ==> !ls[k].CrashStep?
  }

  /** Step `k` is one of a run, taken in a state in which the invariant holds, and no crash. */
  ghost predicate Goes(ws: seq<World>, ls: seq<Label>, l: Limits, k: nat)
    requires |ws| == |ls| + 1 && k < |ls|
  {
    Inv(ws[k], l) && Enabled(ws[k], ls[k]) && !ls[k].CrashStep? && ws[k + 1] == Do(ws[k], ls[k], l)
  }

  ghost predicate GoesOn(ws: seq<World>, ls: seq<Label>, l: Limits, i: nat, n: nat) {
    |ws| == |ls| + 1 && i <= n <= |ls| && forall k :: i <= k < n ==> Goes(ws, ls, l, k)
  }

  lemma LifeGoesOn(durable: seq<Stored>, known: set<nat>, l: Limits, ws: seq<World>, ls: seq<Label>, i: nat, n: nat)
    requires PageRun(durable, known, l, ws, ls) && i <= n <= |ls| && OneLife(ls, i, n)
    ensures GoesOn(ws, ls, l, i, n)
  {
    forall k | i <= k < n ensures Goes(ws, ls, l, k) {
      ReachedIsSafe(durable, known, l, ws, ls, k);
    }
  }

  /** An event this client has known and does not hold, nor will a restore bring it back. */
  ghost predicate Unheld(w: World, id: nat) {
    && id in w.known && (forall x :: x in Memory(w.client) ==> x.event.id != id)
    && (w.client.startup.Loading? || w.client.startup.Loaded? ==> id in w.captured)
  }

  ghost predicate NoSave(pending: seq<Write>, id: nat) {
    forall p :: p in pending && p.Save? ==> id !in Ids(p.records)
  }

  // ----- One step --------------------------------------------------------------------------------

  lemma CaptureUnheld(w: World, r: Record, l: Limits, id: nat)
    requires Inv(w, l) && Enabled(w, CaptureStep(r)) && Unheld(w, id)
    ensures Unheld(Do(w, CaptureStep(r), l), id)
  {
    CapturedMemory(w, Do(w, CaptureStep(r), l), r);
  }

  lemma FailUnheld(w: World, k: nat, l: Limits, id: nat)
    requires Inv(w, l) && Enabled(w, FailStep(k)) && Unheld(w, id)
    ensures Unheld(Do(w, FailStep(k), l), id)
  {
    var records := w.client.ops[k].records;
    assert InFlight(w.client) == records;
    forall x | x in Memory(Do(w, FailStep(k), l).client) ensures x.event.id != id {
      FailedMemory(w, k, l, x);
      HeldBefore(w, records, x);
    }
  }

  lemma HeldBefore(w: World, records: seq<Record>, x: Record)
    requires InFlight(w.client) == records
    requires x in w.client.queue || (x.attempts > 0 && x.(attempts := x.attempts - 1) in records)
    ensures exists y :: y in Memory(w.client) && y.event.id == x.event.id
  {
    if x in w.client.queue {
      assert x in multiset(w.client.queue) && x in Memory(w.client);
    } else {
      var y := x.(attempts := x.attempts - 1);
      assert y in multiset(records) && y in Memory(w.client);
    }
  }

  lemma RestoreUnheld(w: World, invalid: set<nat>, l: Limits, id: nat)
    requires Inv(w, l) && Enabled(w, RestoreStep(invalid)) && Unheld(w, id)
    ensures Unheld(Do(w, RestoreStep(invalid), l), id)
  {
    RestoredMemory(w, Do(w, RestoreStep(invalid), l), invalid);
  }

  /** Loading and writing move no record either. */
  lemma OutboxStepUnheld(w: World, s: Label, l: Limits, id: nat)
    requires Enabled(w, s) && (s.LoadStep? || s.WriteStep? || s.WriteFailsStep?) && Unheld(w, id)
    ensures Unheld(Do(w, s, l), id)
  {
    var w' := Do(w, s, l);
    SameMemory(w.client, w'.client);
    assert w'.captured == w.captured && w'.known == w.known;
  }

  lemma SameMemory(c: Client, c': Client)
    requires c'.queue == c.queue && c'.ops == c.ops && c'.current == c.current
    ensures Memory(c') == Memory(c)
  {
  }

  lemma StepUnheld(w: World, s: Label, l: Limits, id: nat)
    requires Inv(w, l) && Enabled(w, s) && !s.CrashStep? && Unheld(w, id)
    ensures Unheld(Do(w, s, l), id)
  {
    if s.CaptureStep? { CaptureUnheld(w, s.record, l, id); }
    else if s.FailStep? { FailUnheld(w, s.op, l, id); }
    else if s.RestoreStep? { RestoreUnheld(w, s.invalid, l, id); }
    else if s.LoadStep? || s.WriteStep? || s.WriteFailsStep? { OutboxStepUnheld(w, s, l, id); }
    else {
      OthersBringNothing(w, s, l);
      OthersKeepTheOutbox(w, s, l);
      UnheldStays(w, Do(w, s, l), id);
    }
  }

  lemma UnheldStays(w: World, w': World, id: nat)
    requires Unheld(w, id) && w.known <= w'.known && w'.captured == w.captured
    requires forall x :: x in Memory(w'.client) ==> x in Memory(w.client)
    requires w'.client.startup == w.client.startup || w'.client.startup.Ready?
    ensures Unheld(w', id)
  {
  }

  /** Nothing is put on the chain of writes that saves an event the client does not hold. */
  lemma NothingSaves(w: World, s: Label, l: Limits, id: nat)
    requires Inv(w, l) && Enabled(w, s) && !s.CrashStep? && Unheld(w, id)
    ensures NoSave(Issued(w.client, s), id)
  {
    if s.FailStep? { FailSavesNothing(w, s.op, id); }
    else if s.CaptureStep? { CaptureSavesNew(w.client, s.record, id); }
  }

  lemma CaptureSavesNew(c: Client, r: Record, id: nat)
    requires r.event.id != id
    ensures NoSave(Issued(c, CaptureStep(r)), id)
  {
    var e := EnqueueSpec(c.queue, r);
    WritesOf([], UrgentIds(e.evicted), []);
  }

  lemma FailSavesNothing(w: World, k: nat, id: nat)
    requires SingleFlight(w.client) && Enabled(w, FailStep(k)) && Unheld(w, id)
    ensures NoSave(Issued(w.client, FailStep(k)), id)
  {
    var records := w.client.ops[k].records;
    assert InFlight(w.client) == records;
    FailSavesHeld(w, records, id);
    SavesOnly(UrgentOnly(Reattempted(records, false)), UrgentIds(RetrySpec(w.client.queue, records).dropped), id);
  }

  lemma SavesOnly(saved: seq<Record>, ids: seq<nat>, id: nat)
    requires id !in Ids(saved)
    ensures NoSave(Persist([], saved) + RemovePersisted([], ids), id)
  {
  }

  lemma FailSavesHeld(w: World, records: seq<Record>, id: nat)
    requires InFlight(w.client) == records && Unheld(w, id)
    ensures id !in Ids(UrgentOnly(Reattempted(records, false)))
  {
    OfPriorityMembers(Reattempted(records, false), Immediate);
    forall x | x in Reattempted(records, false) ensures x.event.id != id {
      ReattemptedFrom(records, false, x);
      HeldBefore(w, records, x);
    }
  }

  lemma PendingAfter(w: World, s: Label, l: Limits)
    requires Enabled(w, s) && !s.CrashStep?
    ensures Do(w, s, l).client.pending
            == if s.WriteStep? || s.WriteFailsStep? then w.client.pending[1..] else w.client.pending + Issued(w.client, s)
  {
    if !s.WriteStep? && !s.WriteFailsStep? { IssuedAppends(w, s, l); }
  }

  lemma NoSaveStays(w: World, s: Label, l: Limits, id: nat)
    requires Inv(w, l) && Enabled(w, s) && !s.CrashStep? && Unheld(w, id) && NoSave(w.client.pending, id)
    ensures NoSave(Do(w, s, l).client.pending, id)
  {
    PendingAfter(w, s, l);
    NothingSaves(w, s, l, id);
  }

  /** Only a save of it stores an event that is not stored. */
  lemma StaysAway(w: World, s: Label, l: Limits, id: nat)
    requires Inv(w, l) && Enabled(w, s) && !s.CrashStep? && id !in StoredIds(w.durable)
    requires s.WriteStep? && w.client.pending[0].Save? ==> id !in Ids(w.client.pending[0].records)
    ensures id !in StoredIds(Do(w, s, l).durable)
  {
    match s
    case LoadStep(now, listed) =>
      UniqueIdsPermuted(w.durable, listed);
      LoadMeaning(listed, l.ttlMs, now);
    case WriteStep(now, listed) =>
      UniqueIdsPermuted(w.durable, listed);
      match w.client.pending[0] {
        case Save(records) => SaveIds(listed, records, now, l);
        case Remove(ids) => WithoutIdsMeaning(w.durable, IdSet(ids));
      }
    case FinishRemovalStep(k, _) => WithoutIdsMeaning(w.durable, Ids(w.client.ops[k].records));
    case FinishStartupStep(_) => WithoutIdsMeaning(w.durable, w.client.startup.ids);
    case _ =>
  }

  /** Not held, not stored and not about to be. */
  ghost predicate Away(w: World, id: nat) {
    Unheld(w, id) && NoSave(w.client.pending, id) && id !in StoredIds(w.durable)
  }

  lemma StepAway(w: World, s: Label, l: Limits, id: nat)
    requires Inv(w, l) && Enabled(w, s) && !s.CrashStep? && Away(w, id)
    ensures Away(Do(w, s, l), id)
  {
    StepUnheld(w, s, l, id);
    NoSaveStays(w, s, l, id);
    StaysAway(w, s, l, id);
  }

  lemma {:induction false} AwayForGood(ws: seq<World>, ls: seq<Label>, l: Limits, i: nat, n: nat, id: nat)
    requires GoesOn(ws, ls, l, i, n) && Away(ws[i], id)
    ensures Away(ws[n], id)
    decreases n
  {
    if i < n {
      AwayForGood(ws, ls, l, i, n - 1, id);
      assert Goes(ws, ls, l, n - 1);
      StepAway(ws[n - 1], ls[n - 1], l, id);
    }
  }

  // ----- Events that do not validate -------------------------------------------------------------

  /** Of the events a restore finds, those that do not validate are to be cleared away, and no others. */
  lemma RestoreClears(w: World, invalid: set<nat>, l: Limits)
    requires Enabled(w, RestoreStep(invalid))
    ensures var bad := Ids(w.client.startup.records) * invalid; var next := Do(w, RestoreStep(invalid), l).client.startup;
            next == if bad == {} then Ready else Clearing(bad)
  {
    AllKeptExactly(w.client.startup.records, invalid);
  }

  lemma {:induction false} AllKeptExactly(records: seq<Record>, invalid: set<nat>)
    ensures |Valid(records, invalid)| <= |records|
    ensures |Valid(records, invalid)| == |records| <==> Ids(records) * invalid == {}
  {
    if records != [] {
      var first, rest := records[0], records[1..];
      AllKeptExactly(rest, invalid);
      assert records == [first] + rest;
      assert Ids(records) == {first.event.id} + Ids(rest);
      if first.event.id in invalid {
        assert first.event.id in Ids(records) * invalid;
      } else {
        assert Ids(records) * invalid == Ids(rest) * invalid;
      }
    }
  }

  /** What is being cleared away is not held, and no save of it is pending. */
  ghost predicate ToClear(w: World, ids: set<nat>) {
    && (w.client.startup.Clearing? ==> w.client.startup.ids == ids)
    && forall id :: id in ids ==> Unheld(w, id) && NoSave(w.client.pending, id)
  }

  lemma InvalidUnheld(w: World, invalid: set<nat>, l: Limits, id: nat)
    requires StartupOk(w) && StartupCopies(w) && StoredIds(w.durable) <= w.known && Enabled(w, RestoreStep(invalid))
    requires id in Ids(w.client.startup.records) * invalid
    ensures var w' := Do(w, RestoreStep(invalid), l); Unheld(w', id) && NoSave(w'.client.pending, id)
  {
    var w' := Do(w, RestoreStep(invalid), l);
    assert id in StoredIds(w.durable) && id !in w.captured;
    forall x | x in Memory(w'.client) ensures x.event.id != id {
      ValidOrHeld(w, w', invalid, x);
    }
  }

  lemma ValidOrHeld(w: World, w': World, invalid: set<nat>, x: Record)
    requires StartupOk(w) && w.client.startup.Loaded? && w'.client == Delivery.Restore(w.client, invalid) && x in Memory(w'.client)
    ensures x.event.id in w.captured || x.event.id !in invalid
  {
    var valid := Valid(w.client.startup.records, invalid);
    RestoreBrings(w.client.queue, valid);
    ValidMeaning(w.client.startup.records, invalid);
    assert InFlight(w'.client) == InFlight(w.client);
    BroughtIn(w'.client.queue, w.client.queue, valid);
    if x !in valid { assert x in Memory(w.client); }
  }

  lemma ClearBegins(w: World, invalid: set<nat>, l: Limits)
    requires Inv(w, l) && Copies(w) && Enabled(w, RestoreStep(invalid))
    ensures ToClear(Do(w, RestoreStep(invalid), l), Ids(w.client.startup.records) * invalid)
  {
    RestoreClears(w, invalid, l);
    forall id | id in Ids(w.client.startup.records) * invalid
      ensures Unheld(Do(w, RestoreStep(invalid), l), id) && NoSave(Do(w, RestoreStep(invalid), l).client.pending, id)
    {
      InvalidUnheld(w, invalid, l, id);
    }
  }

  lemma StartupMoves(w: World, s: Label, l: Limits)
    requires Enabled(w, s) && !s.CrashStep? && !w.client.startup.Loading? && !w.client.startup.Loaded?
    ensures var next := Do(w, s, l).client.startup; next == if s.FinishStartupStep? then Ready else w.client.startup
  {
  }

  ghost predicate Restored(w: World) { w.client.startup.Clearing? || w.client.startup.Ready? }

  lemma {:induction false} ClearKept(ws: seq<World>, ls: seq<Label>, l: Limits, r: nat, n: nat, ids: set<nat>)
    requires GoesOn(ws, ls, l, r, n) && ToClear(ws[r], ids) && Restored(ws[r])
    ensures ToClear(ws[n], ids) && Restored(ws[n])
    decreases n
  {
    if r < n {
      ClearKept(ws, ls, l, r, n - 1, ids);
      assert Goes(ws, ls, l, n - 1);
      ClearStep(ws[n - 1], ls[n - 1], l, ids);
    }
  }

  lemma ClearStep(w: World, s: Label, l: Limits, ids: set<nat>)
    requires Inv(w, l) && Enabled(w, s) && !s.CrashStep? && ToClear(w, ids) && Restored(w)
    ensures ToClear(Do(w, s, l), ids) && Restored(Do(w, s, l))
  {
    StartupMoves(w, s, l);
    forall id | id in ids ensures Unheld(Do(w, s, l), id) && NoSave(Do(w, s, l).client.pending, id) {
      StepUnheld(w, s, l, id);
      NoSaveStays(w, s, l, id);
    }
  }

  /**
   * The removal that ends startup takes exactly the loaded events that do not validate out of the outbox, and
   * they are not stored again in this life.
   */
  lemma InvalidAreCleared(durable: seq<Stored>, known: set<nat>, l: Limits, ws: seq<World>, ls: seq<Label>, r: nat, f: nat, n: nat)
    requires PageRun(durable, known, l, ws, ls) && r < f < n <= |ls| && OneLife(ls, r, n)
    requires ls[r].RestoreStep? && ls[f] == FinishStartupStep(true)
    ensures var invalid := Ids(ws[r].client.startup.records) * ls[r].invalid;
            && StoredIds(ws[f + 1].durable) == StoredIds(ws[f].durable) - invalid
            && StoredIds(ws[n].durable) !! invalid
  {
    var invalid := Ids(ws[r].client.startup.records) * ls[r].invalid;
    LifeGoesOn(durable, known, l, ws, ls, r, n);
    RunKeepsCopies(durable, known, l, ws, ls, r);
    assert Goes(ws, ls, l, r) && Goes(ws, ls, l, f);
    ClearBegins(ws[r], ls[r].invalid, l);
    RestoreClears(ws[r], ls[r].invalid, l);
    ClearKept(ws, ls, l, r + 1, f, invalid);
    Cleared(ws[f], l, invalid);
    forall id | id in invalid ensures id !in StoredIds(ws[n].durable) {
      AwayForGood(ws, ls, l, f + 1, n, id);
    }
  }

  lemma Cleared(w: World, l: Limits, ids: set<nat>)
    requires Inv(w, l) && Enabled(w, FinishStartupStep(true)) && ToClear(w, ids)
    ensures var w' := Do(w, FinishStartupStep(true), l);
            StoredIds(w'.durable) == StoredIds(w.durable) - ids && forall id :: id in ids ==> Away(w', id)
  {
    var w' := Do(w, FinishStartupStep(true), l);
    WithoutIdsMeaning(w.durable, ids);
    forall id | id in ids ensures Away(w', id) {
      StepUnheld(w, FinishStartupStep(true), l, id);
    }
  }

  // ----- Delivered events ------------------------------------------------------------------------

  /** Operation `k` carries the records it drained until it is over. */
  ghost predicate Carries(c: Client, k: nat, records: seq<Record>) {
    && k < c.nextOp
    && (k in c.ops ==>
          match c.ops[k]
          case Sending(sent) => sent == records
          case Removing(sent) => sent == records
          case Settled(_) => true
          case _ => false)
  }

  lemma CarriesStep(w: World, s: Label, l: Limits, k: nat, records: seq<Record>)
    requires Enabled(w, s) && !s.CrashStep? && Carries(w.client, k, records)
    ensures Carries(Do(w, s, l).client, k, records)
  {
    if !MovesFlush(s) { OpsStay(w, s, l); }
  }

  lemma CarryBegins(w: World, k: nat, now: nat, l: Limits)
    requires SingleFlight(w.client) && Enabled(w, DrainStep(k, now))
    ensures Carries(Do(w, DrainStep(k, now), l).client, k, FlushDrain(w.client.queue, w.client.ops[k].options, now).drained)
  {
  }

  lemma {:induction false} CarriesOn(ws: seq<World>, ls: seq<Label>, l: Limits, d: nat, n: nat, k: nat, records: seq<Record>)
    requires GoesOn(ws, ls, l, d, n) && Carries(ws[d].client, k, records)
    ensures Carries(ws[n].client, k, records)
    decreases n
  {
    if d < n {
      CarriesOn(ws, ls, l, d, n - 1, k, records);
      assert Goes(ws, ls, l, n - 1);
      CarriesStep(ws[n - 1], ls[n - 1], l, k, records);
    }
  }

  lemma DeliveredUnheld(w: World, l: Limits, id: nat)
    requires Inv(w, l) && id in w.acked
    ensures Unheld(w, id)
  {
    forall x | x in Memory(w.client) ensures x.event.id != id {
      assert Held(w, x);
    }
  }

  lemma RemovalTakes(w: World, k: nat, l: Limits)
    requires Inv(w, l) && Enabled(w, FinishRemovalStep(k, true))
    ensures var w' := Do(w, FinishRemovalStep(k, true), l); var ids := Ids(w.client.ops[k].records);
            && StoredIds(w'.durable) == StoredIds(w.durable) - ids
            && forall id :: id in ids && NoSave(w.client.pending, id) ==> Away(w', id)
  {
    var w' := Do(w, FinishRemovalStep(k, true), l);
    WithoutIdsMeaning(w.durable, Ids(w.client.ops[k].records));
    forall id | id in Ids(w.client.ops[k].records) && NoSave(w.client.pending, id) ensures Away(w', id) {
      DeliveredUnheld(w, l, id);
      StepUnheld(w, FinishRemovalStep(k, true), l, id);
    }
  }

  /**
   * The removal after a delivery takes exactly the events that were drained and sent out of the outbox; and those
   * of which no save is pending at that moment are not stored again in this life.
   */
  lemma DeliveredAreRemoved(durable: seq<Stored>, known: set<nat>, l: Limits, ws: seq<World>, ls: seq<Label>,
                            k: nat, now: nat, d: nat, f: nat, n: nat)
    requires PageRun(durable, known, l, ws, ls) && d < f < n <= |ls| && OneLife(ls, d, n)
    requires ls[d] == DrainStep(k, now) && ls[f] == FinishRemovalStep(k, true)
    ensures k in ws[d].client.ops && ws[d].client.ops[k].AwaitWrites?
    ensures var sent := FlushDrain(ws[d].client.queue, ws[d].client.ops[k].options, now).drained;
            && StoredIds(ws[f + 1].durable) == StoredIds(ws[f].durable) - Ids(sent)
            && forall id :: id in Ids(sent) && NoSave(ws[f].client.pending, id) ==> id !in StoredIds(ws[n].durable)
  {
    LifeGoesOn(durable, known, l, ws, ls, d, n);
    assert Goes(ws, ls, l, d) && Goes(ws, ls, l, f);
    var sent := FlushDrain(ws[d].client.queue, ws[d].client.ops[k].options, now).drained;
    CarryBegins(ws[d], k, now, l);
    CarriesOn(ws, ls, l, d + 1, f, k, sent);
    RemovalTakes(ws[f], k, l);
    forall id | id in Ids(sent) && NoSave(ws[f].client.pending, id) ensures id !in StoredIds(ws[n].durable) {
      AwayForGood(ws, ls, l, f + 1, n, id);
    }
  }

  // ----- Events delivered that were known when the flush went on ---------------------------------

  lemma SendingSavesNothing(w: World, s: Label, l: Limits, k: nat, records: seq<Record>, id: nat)
    requires Inv(w, l) && Enabled(w, s) && !s.CrashStep? && id in w.known && NoSave(w.client.pending, id)
    requires Carries(w.client, k, records) && k in w.client.ops && !w.client.ops[k].Settled?
    requires k in Do(w, s, l).client.ops && !Do(w, s, l).client.ops[k].Settled?
    ensures NoSave(Do(w, s, l).client.pending, id) && id in Do(w, s, l).known
  {
    KnownGrows(w, s, l);
    PendingAfter(w, s, l);
    if s.CaptureStep? { CaptureSavesNew(w.client, s.record, id); }
    assert !s.FailStep?;
  }

  /** The operation is sending or removing. */
  ghost predicate Delivering(w: World, k: nat) { k in w.client.ops && (w.client.ops[k].Sending? || w.client.ops[k].Removing?) }

  lemma DeliveringBefore(w: World, s: Label, l: Limits, k: nat, records: seq<Record>)
    requires Enabled(w, s) && !s.CrashStep? && Carries(w.client, k, records) && Delivering(Do(w, s, l), k)
    ensures Delivering(w, k)
  {
    if !MovesFlush(s) { OpsStay(w, s, l); }
  }

  lemma {:induction false} StillNoSave(ws: seq<World>, ls: seq<Label>, l: Limits, d: nat, n: nat, k: nat, records: seq<Record>, id: nat)
    requires GoesOn(ws, ls, l, d, n) && Carries(ws[d].client, k, records) && Delivering(ws[n], k)
    requires NoSave(ws[d].client.pending, id) && id in ws[d].known
    ensures NoSave(ws[n].client.pending, id) && id in ws[n].known
    decreases n
  {
    if d < n {
      CarriesOn(ws, ls, l, d, n - 1, k, records);
      assert Goes(ws, ls, l, n - 1);
      DeliveringBefore(ws[n - 1], ls[n - 1], l, k, records);
      StillNoSave(ws, ls, l, d, n - 1, k, records, id);
      SendingSavesNothing(ws[n - 1], ls[n - 1], l, k, records, id);
    }
  }

  lemma NoSaveAtDrain(w: World, k: nat, now: nat, ticket: nat, known: set<nat>, id: nat)
    requires Enabled(w, DrainStep(k, now)) && Waits(w, k, ticket, known) && id in known
    ensures NoSave(w.client.pending, id) && id in w.known
  {
    var c := w.client;
    forall p | p in c.pending && p.Save? ensures id !in Ids(p.records) {
      var i :| 0 <= i < |c.pending| && c.pending[i] == p;
      assert c.done + i >= ticket;
    }
  }

  /**
   * So an event that was known when its flush had waited for the restore, and that it delivered and removed, is
   * out of the outbox for the rest of this life.
   */
  lemma DeliveredStayRemoved(durable: seq<Stored>, known: set<nat>, l: Limits, ws: seq<World>, ls: seq<Label>,
                             k: nat, now: nat, p: nat, d: nat, f: nat, n: nat, id: nat)
    requires PageRun(durable, known, l, ws, ls) && p < d < f < n <= |ls| && OneLife(ls, p, n)
    requires ls[p] == PassReadyStep(k) && ls[d] == DrainStep(k, now) && ls[f] == FinishRemovalStep(k, true)
    requires id in ws[p].known && id in Ids(FlushDrain(ws[d].client.queue, ws[d].client.ops[k].options, now).drained)
    ensures id !in StoredIds(ws[n].durable)
  {
    LifeGoesOn(durable, known, l, ws, ls, d, n);
    WaitingKept(durable, known, l, ws, ls, k, p, d);
    DeliveredAreRemoved(durable, known, l, ws, ls, k, now, d, f, n);
    assert Goes(ws, ls, l, d) && Goes(ws, ls, l, f);
    var sent := FlushDrain(ws[d].client.queue, ws[d].client.ops[k].options, now).drained;
    NoSaveAtDrain(ws[d], k, now, ws[p].client.done + |ws[p].client.pending|, ws[p].known, id);
    CarryBegins(ws[d], k, now, l);
    StillNoSave(ws, ls, l, d + 1, f, k, sent, id);
  }

  // ----- A save that comes too late --------------------------------------------------------------

  const DEFAULTS := FlushOptions(false, None)

  lemma OnlyOneInside<T>(a: seq<T>, b: seq<T>, x: T)
    requires multiset(a) + multiset(b) == multiset{x} && a != []
    ensures a == [x] && b == []
  {
    assert |multiset(a) + multiset(b)| == |a| + |b|;
    assert a[0] in multiset(a) + multiset(b);
  }

  lemma OneSentAlone(r: Record, now: nat)
    requires r.event.bytes <= MAX_EVENT_BYTES && Clock(now)
    ensures FlushDrain([r], DEFAULTS, now) == DrainOutcome([], [r])
  {
    DefaultDrainTakesSome([r], now);
    DrainPartitions([r], FLUSH_LIMIT, MaximumBytes(DEFAULTS), None, now);
    OnlyOneInside(FlushDrain([r], DEFAULTS, now).drained, FlushDrain([r], DEFAULTS, now).queue, r);
  }

  lemma SavedAlone(r: Record, now: int, l: Limits)
    requires ValidLimits(l) && r.attempts == 0 && r.event.bytes <= l.maxBytes
    ensures r.event.id in StoredIds(SaveSpec([], SCOPE, [r], now, l).retained)
  {
    SaveKeepsNewArrival([], SCOPE, r, now, l);
    assert IdOf(Stored(SCOPE, r, now)) == r.event.id;
  }

  /** The client has one operation, in this phase, and the save of one event is pending. */
  ghost predicate Late(w: World, r: Record, phase: Phase) {
    && w.client.startup.Ready? && w.client.pending == [Save([r])] && w.client.done == 0 && w.durable == []
    && w.client.ops == map[0 := phase] && (phase.Removing? || phase.Settled? ==> r.event.id in w.acked)
  }

  lemma LateCapture(w: World, r: Record, l: Limits)
    requires w == Start([], {}).(client := NEW_CLIENT.(startup := Ready, ops := map[0 := AwaitWrites(DEFAULTS, 0)], current := Some(0), nextOp := 1))
    requires r.priority == Immediate && r.attempts == 0 && r.event.bytes <= MAX_EVENT_BYTES
    ensures Enabled(w, CaptureStep(r)) && Late(Do(w, CaptureStep(r), l), r, AwaitWrites(DEFAULTS, 0))
    ensures Do(w, CaptureStep(r), l).client.queue == [r]
  {
    EnqueueWithRoom([], r);
    assert [] + [r] == [r];
  }

  lemma LateDrain(w: World, r: Record, now: nat, l: Limits)
    requires Late(w, r, AwaitWrites(DEFAULTS, 0)) && w.client.queue == [r] && r.event.bytes <= MAX_EVENT_BYTES && Clock(now)
    ensures Enabled(w, DrainStep(0, now)) && Late(Do(w, DrainStep(0, now), l), r, Sending([r]))
  {
    OneSentAlone(r, now);
  }

  lemma LateDelivery(w: World, r: Record, l: Limits)
    requires Late(w, r, Sending([r]))
    ensures Enabled(w, AcknowledgeStep(0)) && Late(Do(w, AcknowledgeStep(0), l), r, Removing([r]))
  {
    assert r in [r];
  }

  lemma LateRemoval(w: World, r: Record, l: Limits)
    requires Late(w, r, Removing([r]))
    ensures Enabled(w, FinishRemovalStep(0, true))
    ensures Late(Do(w, FinishRemovalStep(0, true), l), r, Settled(|w.client.queue|))
  {
  }

  lemma LateSave(w: World, r: Record, n: nat, now: int, l: Limits)
    requires Late(w, r, Settled(n)) && ValidLimits(l) && r.attempts == 0 && r.event.bytes <= l.maxBytes
    ensures Enabled(w, WriteStep(now, [])) && r.event.id in StoredIds(Do(w, WriteStep(now, []), l).durable)
  {
    SavedAlone(r, now, l);
  }

  /** One step more of a run. */
  lemma Then(ws: seq<World>, ls: seq<Label>, l: Limits, s: Label) returns (w: World, worlds: seq<World>, steps: seq<Label>)
    requires IsRun(ws, ls, l) && Enabled(ws[|ls|], s)
    ensures w == Do(ws[|ls|], s, l) && worlds == ws + [w] && steps == ls + [s] && IsRun(worlds, steps, l)
  {
    w, worlds, steps := Do(ws[|ls|], s, l), ws + [Do(ws[|ls|], s, l)], ls + [s];
    RunGrows(ws, ls, l, s);
  }

  /** A flush has waited for the restore, and an urgent event is captured after that. */
  lemma CapturedLate(r: Record, l: Limits) returns (ws: seq<World>, ls: seq<Label>)
    requires r.priority == Immediate && r.attempts == 0 && r.event.bytes <= MAX_EVENT_BYTES
    ensures ls == [LoadFailsStep, FlushStep(DEFAULTS), PassReadyStep(0), CaptureStep(r)]
    ensures IsRun(ws, ls, l) && ws[0] == Start([], {}) && Late(ws[4], r, AwaitWrites(DEFAULTS, 0)) && ws[4].client.queue == [r]
  {
    var w;
    ws, ls := [Start([], {})], [];
    w, ws, ls := Then(ws, ls, l, LoadFailsStep);
    w, ws, ls := Then(ws, ls, l, FlushStep(DEFAULTS));
    w, ws, ls := Then(ws, ls, l, PassReadyStep(0));
    LateCapture(w, r, l);
    w, ws, ls := Then(ws, ls, l, CaptureStep(r));
  }

  /** It is drained, delivered and removed while its save is pending. */
  lemma RemovedEarly(r: Record, l: Limits, now: nat) returns (ws: seq<World>, ls: seq<Label>, n: nat)
    requires r.priority == Immediate && r.attempts == 0 && r.event.bytes <= MAX_EVENT_BYTES && Clock(now)
    ensures IsRun(ws, ls, l) && ws[0] == Start([], {}) && |ls| == 7 && ls[6] == FinishRemovalStep(0, true)
    ensures Late(ws[7], r, Settled(n))
  {
    var w;
    ws, ls := CapturedLate(r, l);
    LateDrain(ws[4], r, now, l);
    w, ws, ls := Then(ws, ls, l, DrainStep(0, now));
    LateDelivery(w, r, l);
    w, ws, ls := Then(ws, ls, l, AcknowledgeStep(0));
    LateRemoval(w, r, l);
    n := |w.client.queue|;
    w, ws, ls := Then(ws, ls, l, FinishRemovalStep(0, true));
  }

  /** Delivered and removed before its save has run, an event is stored by that save, for the next life to find. */
  lemma LateSaveReturns(r: Record, l: Limits, now: nat) returns (ws: seq<World>, ls: seq<Label>)
    requires ValidLimits(l) && r.priority == Immediate && r.attempts == 0 && r.event.bytes <= MAX_EVENT_BYTES
    requires r.event.bytes <= l.maxBytes && Clock(now)
    ensures IsRun(ws, ls, l) && ws[0] == Start([], {}) && |ls| == 8 && ls[6] == FinishRemovalStep(0, true)
    ensures r.event.id in ws[7].acked && r.event.id !in StoredIds(ws[7].durable) && r.event.id in StoredIds(ws[8].durable)
  {
    var w, n;
    ws, ls, n := RemovedEarly(r, l, now);
    LateSave(ws[7], r, n, now, l);
    w, ws, ls := Then(ws, ls, l, WriteStep(now, []));
  }

  // ----- Events the queue dropped ----------------------------------------------------------------

  /** The step makes the queue drop the urgent event and report it. */
  ghost predicate DropsUrgent(w: World, s: Label, id: nat) {
    match s
    case CaptureStep(r) => exists x :: x in EnqueueSpec(w.client.queue, r).evicted && x.priority == Immediate && x.event.id == id
    case FailStep(k) =>
      && k in w.client.ops && w.client.ops[k].Sending?
      && exists x :: x in RetrySpec(w.client.queue, w.client.ops[k].records).dropped && x.priority == Immediate && x.event.id == id
    case _ => false
  }

  /** A removal of the event failed between the `i`-th state and the `n`-th. */
  ghost predicate RemovalFailed(ws: seq<World>, ls: seq<Label>, id: nat, i: nat, n: nat)
    requires |ws| == |ls| + 1 && n <= |ls|
  {
    exists j :: i <= j < n && FailsToRemove(ws[j], ls[j], id)
  }

  ghost predicate FailsToRemove(w: World, s: Label, id: nat) {
    && s.WriteFailsStep? && w.client.pending != [] && w.client.pending[0].Remove? && id in w.client.pending[0].ids
  }

  /** A dropped event: not held, and its removal is pending, has been done, or has failed. */
  ghost predicate Discarded(w: World, id: nat, failed: bool) {
    && Unheld(w, id)
    && match LastMention(w.client.pending, id)
       case LastSaved => false
       case LastRemoved => true
       case Unmentioned => failed || id !in StoredIds(w.durable)
  }

  lemma DroppedUnheld(w: World, l: Limits, id: nat)
    requires Inv(w, l) && id in w.dropped
    ensures Unheld(w, id)
  {
    forall x | x in Memory(w.client) ensures x.event.id != id {
      assert Held(w, x);
    }
  }

  lemma DropDiscards(w: World, s: Label, l: Limits, id: nat)
    requires Inv(w, l) && Enabled(w, s) && DropsUrgent(w, s, id)
    ensures Discarded(Do(w, s, l), id, false)
  {
    StepPreserves(w, s, l);
    match s
    case CaptureStep(r) => CaptureDiscards(w, r, l, id);
    case FailStep(k) => FailDiscards(w, k, l, id);
  }

  lemma CaptureDiscards(w: World, r: Record, l: Limits, id: nat)
    requires Inv(w, l) && Enabled(w, CaptureStep(r)) && Inv(Do(w, CaptureStep(r), l), l) && DropsUrgent(w, CaptureStep(r), id)
    ensures Discarded(Do(w, CaptureStep(r), l), id, false)
  {
    var e := EnqueueSpec(w.client.queue, r);
    UrgentIdsMeaning(e.evicted);
    CaptureMentions(w.client, r, id);
    EvictedKnown(w, r);
    DroppedUnheld(Do(w, CaptureStep(r), l), l, id);
  }

  lemma FailDiscards(w: World, k: nat, l: Limits, id: nat)
    requires Inv(w, l) && Enabled(w, FailStep(k)) && Inv(Do(w, FailStep(k), l), l) && DropsUrgent(w, FailStep(k), id)
    ensures Discarded(Do(w, FailStep(k), l), id, false)
  {
    UrgentIdsMeaning(RetrySpec(w.client.queue, w.client.ops[k].records).dropped);
    FailMentions(w.client, k, id);
    DroppedUnheld(Do(w, FailStep(k), l), l, id);
  }

  lemma {:induction false} MentionMore(pending: seq<Write>, more: seq<Write>, id: nat)
    requires NoSave(more, id)
    ensures LastMention(pending + more, id) == LastMention(pending, id) || LastMention(pending + more, id) == LastRemoved
    decreases |more|
  {
    if more == [] {
      assert pending + more == pending;
    } else {
      var n := |more| - 1;
      MentionMore(pending, more[..n], id);
      assert pending + more == (pending + more[..n]) + [more[n]];
      MentionAppend(pending + more[..n], more[n], id);
    }
  }

  lemma OtherStepDiscarded(w: World, s: Label, l: Limits, id: nat, failed: bool)
    requires Inv(w, l) && Enabled(w, s) && !s.CrashStep? && !s.WriteStep? && !s.WriteFailsStep? && Discarded(w, id, failed)
    ensures Discarded(Do(w, s, l), id, failed)
  {
    StepUnheld(w, s, l, id);
    PendingAfter(w, s, l);
    NothingSaves(w, s, l, id);
    MentionMore(w.client.pending, Issued(w.client, s), id);
    if id !in StoredIds(w.durable) { StaysAway(w, s, l, id); }
  }

  lemma WriteDiscarded(w: World, s: Label, l: Limits, id: nat, failed: bool)
    requires Inv(w, l) && Enabled(w, s) && (s.WriteStep? || s.WriteFailsStep?) && Discarded(w, id, failed)
    ensures Discarded(Do(w, s, l), id, failed || FailsToRemove(w, s, id))
  {
    StepUnheld(w, s, l, id);
    MentionHead(w.client.pending, id);
    var p := w.client.pending[0];
    if MentionIn(p, id) == Unmentioned && id !in StoredIds(w.durable) { StaysAway(w, s, l, id); }
    if s.WriteStep? && p.Remove? { WithoutIdsMeaning(w.durable, IdSet(p.ids)); }
  }

  lemma StepDiscarded(w: World, s: Label, l: Limits, id: nat, failed: bool)
    requires Inv(w, l) && Enabled(w, s) && !s.CrashStep? && Discarded(w, id, failed)
    ensures Discarded(Do(w, s, l), id, failed || FailsToRemove(w, s, id))
  {
    if s.WriteStep? || s.WriteFailsStep? { WriteDiscarded(w, s, l, id, failed); } else { OtherStepDiscarded(w, s, l, id, failed); }
  }

  lemma {:induction false} StaysDiscarded(ws: seq<World>, ls: seq<Label>, l: Limits, i: nat, n: nat, id: nat)
    requires GoesOn(ws, ls, l, i, n) && Discarded(ws[i], id, false)
    ensures Discarded(ws[n], id, RemovalFailed(ws, ls, id, i, n))
    decreases n
  {
    if i < n {
      StaysDiscarded(ws, ls, l, i, n - 1, id);
      assert Goes(ws, ls, l, n - 1);
      StepDiscarded(ws[n - 1], ls[n - 1], l, id, RemovalFailed(ws, ls, id, i, n - 1));
      RemovalFailedLater(ws, ls, id, i, n);
    }
  }

  lemma RemovalFailedLater(ws: seq<World>, ls: seq<Label>, id: nat, i: nat, n: nat)
    requires |ws| == |ls| + 1 && i < n <= |ls|
    ensures RemovalFailed(ws, ls, id, i, n) <==> RemovalFailed(ws, ls, id, i, n - 1) || FailsToRemove(ws[n - 1], ls[n - 1], id)
  {
  }

  /**
   * An urgent event the queue has dropped and reported, evicted or exhausted, is out of the outbox for the rest of
   * this life once its pending removal has run, unless a removal of it failed.
   */
  lemma DroppedAreRemoved(durable: seq<Stored>, known: set<nat>, l: Limits, ws: seq<World>, ls: seq<Label>, i: nat, n: nat, id: nat)
    requires PageRun(durable, known, l, ws, ls) && i < n <= |ls| && OneLife(ls, i, n) && DropsUrgent(ws[i], ls[i], id)
    ensures match LastMention(ws[n].client.pending, id)
            case LastSaved => false
            case LastRemoved => true
            case Unmentioned => id in StoredIds(ws[n].durable) ==> RemovalFailed(ws, ls, id, i + 1, n)
  {
    LifeGoesOn(durable, known, l, ws, ls, i, n);
    assert Goes(ws, ls, l, i);
    DropDiscards(ws[i], ls[i], l, id);
    StaysDiscarded(ws, ls, l, i + 1, n, id);
  }
}
