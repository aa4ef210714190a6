/** The promises of the delivery engine, over every run of the protocol. */
module DeliveryTheorems {
  import opened Events
  import opened QueueProperties
  import opened Outbox
  import opened Delivery
  import opened DeliverySafety
  import opened DeliveryRuns
  import opened DeliveryLosses
  import opened DeliveryRetention

  /** In every reachable state at most one flush operation, so at most one batch, is under way. */
  lemma AtMostOneBatchInFlight(durable: seq<Stored>, known: set<nat>, l: Limits, ws: seq<World>, ls: seq<Label>)
    requires PageRun(durable, known, l, ws, ls)
    ensures var c := ws[|ls|].client;
            && (forall j, k :: j in c.ops && k in c.ops ==> j == k)
            && (forall k :: k in c.ops ==> c.current == Some(k))
  {
    ReachedIsSafe(durable, known, l, ws, ls, |ls|);
  }

  /** Every event the client holds once, never twice, and within the queue's capacity and the attempt limit. */
  lemma MemoryStaysDistinct(durable: seq<Stored>, known: set<nat>, l: Limits, ws: seq<World>, ls: seq<Label>)
    requires PageRun(durable, known, l, ws, ls)
    ensures var w := ws[|ls|];
            && Distinct(Memory(w.client)) && WithinCapacity(w.client.queue)
            && (forall x :: x in Memory(w.client) ==> x.attempts < MAX_DELIVERY_ATTEMPTS)
            && (forall id :: w.sends[id] <= MAX_DELIVERY_ATTEMPTS)
  {
    ReachedIsSafe(durable, known, l, ws, ls, |ls|);
  }

  /** An urgent event the client took on and still owes delivery. */
  ghost predicate Owed(w: World, id: nat) { id in w.accepted && id !in w.acked && id !in w.dropped }

  /**
   * Crash-safe urgent delivery: in every reachable state the client owes every urgent event it holds, queued or in
   * flight; and of those it owes, exactly the ones are in the outbox once the pending writes are applied in order
   * that a pending write saves or that the outbox has not given up for good.
   */
  lemma UrgentEventsAreSecured(durable: seq<Stored>, known: set<nat>, l: Limits, ws: seq<World>, ls: seq<Label>)
    requires PageRun(durable, known, l, ws, ls)
    ensures var w := ws[|ls|];
            && (forall x :: x in Memory(w.client) && x.priority == Immediate ==> Owed(w, x.event.id))
            && (forall id :: Owed(w, id) ==>
                  (Secured(w, id) <==> LastMention(w.client.pending, id) == LastSaved || !GaveUp(ws, ls, l, id, |ls|)))
  {
    ReachedIsSafe(durable, known, l, ws, ls, |ls|);
    var w := ws[|ls|];
    forall id | Owed(w, id)
      ensures Secured(w, id) <==> LastMention(w.client.pending, id) == LastSaved || !GaveUp(ws, ls, l, id, |ls|)
    {
      LedgerIsExact(durable, known, l, ws, ls, id, |ls|);
      SecuredExactly(w, l, id);
    }
    forall x | x in Memory(w.client) && x.priority == Immediate ensures Owed(w, x.event.id) {
      assert Held(w, x);
    }
  }

  /** Once the writes that concern an event it owes have run, the outbox has it exactly if it has not given it up for good. */
  lemma SecuredReachesTheOutbox(durable: seq<Stored>, known: set<nat>, l: Limits, ws: seq<World>, ls: seq<Label>, id: nat)
    requires PageRun(durable, known, l, ws, ls)
    requires Owed(ws[|ls|], id) && LastMention(ws[|ls|].client.pending, id) == Unmentioned
    ensures id in StoredIds(ws[|ls|].durable) <==> !GaveUp(ws, ls, l, id, |ls|)
  {
    ReachedIsSafe(durable, known, l, ws, ls, |ls|);
    LedgerIsExact(durable, known, l, ws, ls, id, |ls|);
    SecuredExactly(ws[|ls|], l, id);
  }

  /**
   * If no write fails, nothing grows too old, every loaded event validates and all urgent events taken on fit
   * the outbox together, then it gives up none: each is stored, once, when the chain of writes has run out.
   */
  lemma NothingIsGivenUp(durable: seq<Stored>, known: set<nat>, l: Limits, ws: seq<World>, ls: seq<Label>, taken: seq<Event>)
    requires PageRun(durable, known, l, ws, ls) && Undisturbed(ws, ls, l) && FitsOutbox(taken, l)
    requires StoredFrom(durable, taken) && TakesOnly(ls, taken)
    ensures var w := ws[|ls|];
            && w.lost == {}
            && (forall id :: Owed(w, id) ==> Secured(w, id))
            && (w.client.pending == [] ==> UniqueIds(w.durable) && forall id :: Owed(w, id) ==> HasId(w.durable, id))
  {
    ReachedIsSafe(durable, known, l, ws, ls, |ls|);
    NothingLost(durable, known, l, ws, ls, taken, |ls|);
    var w := ws[|ls|];
    assert LastMention([], 0) == Unmentioned;
    forall id | w.client.pending == [] && Owed(w, id) ensures HasId(w.durable, id) {
      assert Secured(w, id);
      StoredIdsOf(w.durable, id);
    }
  }
}
