/**
 * The SDK client as an object. Each method is the stretch of code between two awaits. Ghost fields record the run
 * of the delivery protocol the object has made since its page started, and every method is proved to take the
 * protocol's step: the fields are the client of the run's last state and the outbox stores what that state says.
 */
module SpectroClients {
  import opened Events
  import opened EventQueues
  import opened QueueProperties
  import opened QueueAttempts
  import opened Outbox
  import opened DeliverySafety
  import opened DeliveryRuns
  import opened DeliveryLosses
  import D = Delivery
  import T = DeliveryTheorems

  /** The store without some ids of the client's scope. */
  function Forgotten(store: map<Key, Stored>, ids: set<nat>): map<Key, Stored> {
    map k | k in store && (k.0 != D.SCOPE || k.1 !in ids) :: store[k]
  }

  lemma ForgottenEnumerates(durable: seq<Stored>, store: map<Key, Stored>, ids: set<nat>)
    requires Enumerates(durable, store, D.SCOPE) && WellKeyed(store)
    ensures Enumerates(D.WithoutIds(durable, ids), Forgotten(store, ids), D.SCOPE)
  {
    WithoutIdsMembers(durable, ids);
    WithoutIdsUnique(durable, ids);
    forall k | k in Forgotten(store, ids) && k.0 == D.SCOPE ensures store[k] in D.WithoutIds(durable, ids) {
      assert store[k] in durable;
    }
  }

  /** Two listings of a scope differ only in their order. */
  lemma ListingsAgree(a: seq<Stored>, b: seq<Stored>, store: map<Key, Stored>, scope: nat)
    requires Enumerates(a, store, scope) && Enumerates(b, store, scope)
    ensures multiset(a) == multiset(b)
  {
    UniqueIdsCounts(a);
    UniqueIdsCounts(b);
    forall x ensures multiset(a)[x] == multiset(b)[x] {
      assert x in a <==> x in b;
      assert x in multiset(a) <==> x in a;
      assert x in multiset(b) <==> x in b;
    }
  }

  /** The ids of a list, as a list. */
  function IdList(records: seq<Record>): seq<nat> {
    seq(|records|, i requires 0 <= i < |records| => records[i].event.id)
  }

  lemma IdListMeaning(records: seq<Record>)
    ensures D.IdSet(IdList(records)) == Ids(records)
  {
    forall id | id in Ids(records) ensures id in IdList(records) {
      var i :| 0 <= i < |records| && records[i].event.id == id;
      assert IdList(records)[i] == id;
    }
  }

  /** The ids of the records that fail validation or exceed the size limit. */
  function Refused(records: seq<Record>, failing: set<nat>): set<nat> {
    failing + set r | r in records && r.event.bytes > MAX_EVENT_BYTES :: r.event.id
  }

  class SpectroClient {
    const queue: EventQueue
    const outbox: IndexedDbEventOutbox
    var startup: D.Startup
    var pending: seq<D.Write>
    var done: nat
    var ops: map<nat, D.Phase>
    var current: Option<nat>
    var nextOp: nat
    var followUp: Option<FlushOptions>
    var waiters: nat
    var callbacks: seq<nat>

    ghost const durable: seq<Stored>
    ghost const known: set<nat>
    ghost var worlds: seq<D.World>
    ghost var steps: seq<D.Label>

    /** The recorded run is one of the protocol, from the start of this page on. */
    ghost predicate RunOk()
      reads this
    {
      PageRun(durable, known, outbox.limits, worlds, steps)
    }

    /** The state the run has reached. */
    ghost function Now(): D.World
      reads this
      requires RunOk()
    {
      worlds[|steps|]
    }

    ghost function State(): D.Client
      reads this, queue
    {
      D.Client(queue.events, startup, pending, done, ops, current, nextOp, followUp, waiters, callbacks)
    }

    ghost predicate Valid()
      reads this, queue, outbox
    {
      && queue.Valid() && outbox.Valid()
      && RunOk() && State() == Now().client && Enumerates(Now().durable, outbox.store, D.SCOPE)
    }

    /** The run has gone one step further. */
    ghost predicate Took(before: seq<D.World>, earlier: seq<D.Label>, s: D.Label)
      reads this
    {
      && RunOk() && |before| == |earlier| + 1 && D.Enabled(before[|earlier|], s)
      && steps == earlier + [s] && worlds == before + [D.Do(before[|earlier|], s, outbox.limits)]
    }

    /** A page starts with what an earlier one, with the same limits, left in its scope. */
    constructor (outbox: IndexedDbEventOutbox, ghost durable: seq<Stored>, ghost known: set<nat>)
      requires outbox.Valid() && Leftover(durable, outbox.limits) && Enumerates(durable, outbox.store, D.SCOPE)
      ensures Valid() && fresh(queue) && this.outbox == outbox && Now() == D.Start(durable, known) && steps == []
    {
      queue := new EventQueue();
      this.outbox := outbox;
      startup, pending, done := D.Loading, [], 0;
      ops, current, nextOp := map[], None, 0;
      followUp, waiters, callbacks := None, 0, [];
      this.durable, this.known, worlds, steps := durable, known, [D.Start(durable, known)], [];
    }

    /** Record a step of the run. */
    ghost method Advance(s: D.Label)
      requires RunOk() && D.Enabled(Now(), s)
      modifies this`worlds, this`steps
      ensures Took(old(worlds), old(steps), s)
    {
      RunGrows(worlds, steps, outbox.limits, s);
      worlds := worlds + [D.Do(Now(), s, outbox.limits)];
      steps := steps + [s];
    }

    /** `valid` stands for the name pattern and schema checks; an event that fails them changes nothing. */
    method Capture(event: Event, priority: Priority, valid: bool) returns (id: Option<nat>)
      requires Valid() && event.id !in Now().known
      modifies this`pending, queue, this`worlds, this`steps
      ensures Valid()
      ensures if !valid || event.bytes > MAX_EVENT_BYTES then id == None && worlds == old(worlds) && steps == old(steps)
              else
                && Took(old(worlds), old(steps), D.CaptureStep(Record(event, priority, 0)))
                && id == if EnqueueSpec(old(queue.events), Record(event, priority, 0)).verdict == Accepted then Some(event.id) else None
    {
      if !valid || event.bytes > MAX_EVENT_BYTES {
        return None;
      }
      Advance(D.CaptureStep(Record(event, priority, 0)));
      var accepted := Admit(Record(event, priority, 0));
      id := if accepted then Some(event.id) else None;
    }

    /** Queue a captured event, forget what it pushed out, and save it if it is urgent. */
    method Admit(record: Record) returns (accepted: bool)
      requires queue.Valid()
      modifies this`pending, queue
      ensures queue.Valid() && State() == D.Capture(old(State()), record)
      ensures accepted <==> EnqueueSpec(old(queue.events), record).verdict == Accepted
    {
      var verdict, _, droppedRecords := queue.Enqueue(record);
      RemovePersisted(D.UrgentIds(droppedRecords));
      accepted := verdict == Accepted;
      if accepted && record.priority == Immediate { Persist([record]); }
    }

    method Persist(records: seq<Record>)
      modifies this`pending
      ensures pending == D.Persist(old(pending), records)
    {
      if |records| != 0 { pending := pending + [D.Save(records)]; }
    }

    method RemovePersisted(ids: seq<nat>)
      modifies this`pending
      ensures pending == D.RemovePersisted(old(pending), ids)
    {
      if |ids| != 0 { pending := pending + [D.Remove(ids)]; }
    }

    method Flush(options: FlushOptions)
      requires Valid()
      modifies this`followUp, this`waiters, this`ops, this`current, this`nextOp, this`worlds, this`steps
      ensures Valid() && Took(old(worlds), old(steps), D.FlushStep(options))
    {
      Advance(D.FlushStep(options));
      JoinOrStart(options);
    }

    /** Join the operation in flight, or start one. */
    method JoinOrStart(options: FlushOptions)
      modifies this`followUp, this`waiters, this`ops, this`current, this`nextOp
      ensures State() == D.Flush(old(State()), options)
    {
      if current.Some? {
        followUp := Some(D.MergeFlushOptions(followUp, options));
        waiters := waiters + 1;
      } else {
        ops := ops[nextOp := D.AwaitReady(options)];
        current := Some(nextOp);
        nextOp := nextOp + 1;
      }
    }

    method PassReady(op: nat)
      requires Valid() && op in ops && ops[op].AwaitReady? && startup.Ready?
      modifies this`ops, this`worlds, this`steps
      ensures Valid() && Took(old(worlds), old(steps), D.PassReadyStep(op))
    {
      Advance(D.PassReadyStep(op));
      ops := ops[op := D.AwaitWrites(ops[op].options, done + |pending|)];
    }

    /** Drain; an empty drain ends the flush, otherwise the records go to the transport. */
    method Drain(op: nat, now: nat)
      requires Valid() && op in ops && ops[op].AwaitWrites? && done >= ops[op].ticket
      modifies this`ops, queue, this`worlds, this`steps
      ensures Valid() && Took(old(worlds), old(steps), D.DrainStep(op, now))
    {
      Advance(D.DrainStep(op, now));
      var options := ops[op].options;
      var records := queue.Drain(FLUSH_LIMIT, MaximumBytes(options), options.priority, now);
      var size := queue.Size();
      ops := ops[op := if |records| == 0 then D.Settled(size) else D.Sending(records)];
    }

    method Acknowledge(op: nat)
      requires Valid() && op in ops && ops[op].Sending?
      modifies this`ops, this`worlds, this`steps
      ensures Valid() && Took(old(worlds), old(steps), D.AcknowledgeStep(op))
    {
      Advance(D.AcknowledgeStep(op));
      ops := ops[op := D.Removing(ops[op].records)];
    }

    /** The removal after a send settles; `removed` is false when the outbox failed it. */
    method FinishRemoval(op: nat, removed: bool)
      requires Valid() && op in ops && ops[op].Removing?
      modifies this`ops, outbox`store, this`worlds, this`steps
      ensures Valid() && Took(old(worlds), old(steps), D.FinishRemovalStep(op, removed))
      ensures outbox.store == if removed then Forgotten(old(outbox.store), Ids(old(ops[op].records))) else old(outbox.store)
    {
      var records := ops[op].records;
      if removed {
        ForgottenEnumerates(Now().durable, outbox.store, Ids(records));
        Forget(IdList(records));
        IdListMeaning(records);
      }
      Advance(D.FinishRemovalStep(op, removed));
      var size := queue.Size();
      ops := ops[op := D.Settled(size)];
    }

    method Forget(ids: seq<nat>)
      requires outbox.Valid()
      modifies outbox`store
      ensures outbox.Valid() && outbox.store == Forgotten(old(outbox.store), D.IdSet(ids))
    {
      outbox.Remove(D.SCOPE, ids);
    }

    method Fail(op: nat)
      requires Valid() && op in ops && ops[op].Sending?
      modifies this`ops, this`pending, queue, this`worlds, this`steps
      ensures Valid() && Took(old(worlds), old(steps), D.FailStep(op))
    {
      Advance(D.FailStep(op));
      GiveBack(op);
    }

    /** Retry what has attempts left, save it if urgent, and forget what was given up. */
    method GiveBack(op: nat)
      requires queue.Valid() && op in ops && ops[op].Sending?
      modifies this`ops, this`pending, queue
      ensures queue.Valid() && State() == D.Fail(old(State()), op)
    {
      var retried, _, droppedRecords := queue.Retry(ops[op].records);
      Persist(D.UrgentOnly(retried));
      RemovePersisted(D.UrgentIds(droppedRecords));
      var size := queue.Size();
      ops := ops[op := D.Settled(size)];
    }

    method Settle(op: nat)
      requires Valid() && op in ops && ops[op].Settled?
      modifies this`ops, this`current, this`callbacks, this`waiters, this`worlds, this`steps
      ensures Valid() && Took(old(worlds), old(steps), D.SettleStep(op))
    {
      Advance(D.SettleStep(op));
      Close(op);
    }

    /** The operation is over: it is no longer in flight and its joined calls may go on. */
    method Close(op: nat)
      requires op in ops && ops[op].Settled?
      modifies this`ops, this`current, this`callbacks, this`waiters
      ensures State() == D.Settle(old(State()), op)
    {
      var remaining := ops[op].remaining;
      if current == Some(op) {
        current := None;
        callbacks := callbacks + seq(waiters, _ => remaining);
        waiters := 0;
      }
      ops := map k | k in ops && k != op :: ops[k];
    }

    method Resume()
      requires Valid() && callbacks != []
      modifies this`followUp, this`waiters, this`ops, this`current, this`nextOp, this`callbacks, this`worlds, this`steps
      ensures Valid() && Took(old(worlds), old(steps), D.ResumeStep)
    {
      Advance(D.ResumeStep);
      var remaining := callbacks[0];
      callbacks := callbacks[1..];
      var options := followUp;
      followUp := None;
      if options.Some? && remaining != 0 { JoinOrStart(options.value); }
    }

    /** The outbox answers the load that the constructor began. */
    method FinishLoad(now: int) returns (ghost listed: seq<Stored>)
      requires Valid() && startup.Loading?
      modifies this`startup, outbox`store, this`worlds, this`steps
      ensures Valid() && Took(old(worlds), old(steps), D.LoadStep(now, listed))
    {
      var records, existing := outbox.Load(D.SCOPE, now);
      listed := existing;
      ListingsAgree(existing, Now().durable, old(outbox.store), D.SCOPE);
      Advance(D.LoadStep(now, existing));
      startup := D.Loaded(records);
    }

    /** The load fails: the client goes on without what an earlier page left. */
    method FailLoad()
      requires Valid() && startup.Loading?
      modifies this`startup, this`worlds, this`steps
      ensures Valid() && Took(old(worlds), old(steps), D.LoadFailsStep)
    {
      Advance(D.LoadFailsStep);
      startup := D.Ready;
    }

    /** Queue what validates; `failing` are the ids the schema check refuses. */
    method Restore(failing: set<nat>)
      requires Valid() && startup.Loaded?
      modifies this`startup, queue, this`worlds, this`steps
      ensures Valid() && Took(old(worlds), old(steps), D.RestoreStep(Refused(old(startup.records), failing)))
    {
      var records := startup.records;
      var invalid := Refused(records, failing);
      Advance(D.RestoreStep(invalid));
      var valid := D.Valid(records, invalid);
      var _, _ := queue.Restore(valid);
      startup := if |valid| < |records| then D.Clearing(Ids(records) * invalid) else D.Ready;
    }

    /** The removal of invalid records settles, failed or not. */
    method FinishStartup(invalidIds: seq<nat>, removed: bool)
      requires Valid() && startup.Clearing? && D.IdSet(invalidIds) == startup.ids
      modifies this`startup, outbox`store, this`worlds, this`steps
      ensures Valid() && Took(old(worlds), old(steps), D.FinishStartupStep(removed))
      ensures outbox.store == if removed then Forgotten(old(outbox.store), old(startup.ids)) else old(outbox.store)
    {
      if removed {
        ForgottenEnumerates(Now().durable, outbox.store, startup.ids);
        Forget(invalidIds);
      }
      Advance(D.FinishStartupStep(removed));
      startup := D.Ready;
    }

    /** Run the durable write at the head of the chain; `fails` is a write the outbox refuses. */
    method RunWrite(now: int, fails: bool) returns (ghost listed: seq<Stored>)
      requires Valid() && startup.Ready? && pending != []
      modifies this`pending, this`done, outbox`store, this`worlds, this`steps
      ensures Valid()
      ensures if fails then outbox.store == old(outbox.store) && Took(old(worlds), old(steps), D.WriteFailsStep)
              else Took(old(worlds), old(steps), D.WriteStep(now, listed))
    {
      if fails {
        listed := [];
        SkipWrite();
      } else {
        listed := WriteHead(now, Now().durable);
        Advance(D.WriteStep(now, listed));
        Unlink();
      }
    }

    /** The outbox refuses the write at the head of the chain. */
    method SkipWrite()
      requires Valid() && startup.Ready? && pending != []
      modifies this`pending, this`done, this`worlds, this`steps
      ensures Valid() && Took(old(worlds), old(steps), D.WriteFailsStep)
    {
      Advance(D.WriteFailsStep);
      Unlink();
    }

    /** The write at the head of the chain is finished. */
    method Unlink()
      requires pending != []
      modifies this`pending, this`done
      ensures State() == D.FinishWrite(old(State()))
    {
      pending := pending[1..];
      done := done + 1;
    }

    /** What the outbox does for the write at the head of the chain. */
    method WriteHead(now: int, ghost durable: seq<Stored>) returns (ghost listed: seq<Stored>)
      requires outbox.Valid() && pending != [] && Enumerates(durable, outbox.store, D.SCOPE)
      modifies outbox`store
      ensures outbox.Valid() && multiset(listed) == multiset(durable)
      ensures match pending[0]
              case Save(records) => Enumerates(SaveSpec(listed, D.SCOPE, records, now, outbox.limits).retained, outbox.store, D.SCOPE)
              case Remove(ids) => Enumerates(D.WithoutIds(durable, D.IdSet(ids)), outbox.store, D.SCOPE)
    {
      match pending[0] {
        case Save(records) =>
          var _, existing, retained := outbox.Save(D.SCOPE, records, now);
          listed := existing;
          ListingsAgree(existing, durable, old(outbox.store), D.SCOPE);
        case Remove(ids) =>
          listed := durable;
          ForgottenEnumerates(durable, outbox.store, D.IdSet(ids));
          Forget(ids);
      }
    }
  }

  // ----- What the protocol's promises say of the object ------------------------------------------------

  /**
   * At every moment of an object's life: one flush at most is under way, its queue is within bounds, no event was
   * sent more than eight times, and once no write is pending the urgent events it still holds are in the store,
   * except exactly those the outbox has given up for good.
   */
  lemma ObjectKeepsPromises(c: SpectroClient)
    requires c.Valid()
    ensures forall j, k :: j in c.ops && k in c.ops ==> j == k
    ensures WithinCapacity(c.queue.events) && forall id :: c.Now().sends[id] <= MAX_DELIVERY_ATTEMPTS
    ensures c.pending == [] ==>
              forall x :: x in c.queue.events && x.priority == Immediate ==>
                ((D.SCOPE, x.event.id) in c.outbox.store
                 <==> !GaveUp(c.worlds, c.steps, c.outbox.limits, x.event.id, |c.steps|))
  {
    var w := c.Now();
    ReachedIsSafe(c.durable, c.known, c.outbox.limits, c.worlds, c.steps, |c.steps|);
    T.AtMostOneBatchInFlight(c.durable, c.known, c.outbox.limits, c.worlds, c.steps);
    T.MemoryStaysDistinct(c.durable, c.known, c.outbox.limits, c.worlds, c.steps);
    T.UrgentEventsAreSecured(c.durable, c.known, c.outbox.limits, c.worlds, c.steps);
    forall x | c.pending == [] && x in c.queue.events && x.priority == Immediate
      ensures (D.SCOPE, x.event.id) in c.outbox.store
              <==> !GaveUp(c.worlds, c.steps, c.outbox.limits, x.event.id, |c.steps|)
    {
      assert x in Memory(w.client);
      T.SecuredReachesTheOutbox(c.durable, c.known, c.outbox.limits, c.worlds, c.steps, x.event.id);
      StoredUnderItsKey(w.durable, c.outbox.store, x.event.id);
    }
  }

  lemma StoredUnderItsKey(durable: seq<Stored>, store: map<Key, Stored>, id: nat)
    requires Enumerates(durable, store, D.SCOPE) && WellKeyed(store)
    ensures id in D.StoredIds(durable) <==> (D.SCOPE, id) in store
  {
    StoredIdsOf(durable, id);
    if y :| y in durable && IdOf(y) == id { assert KeyOf(y) in store; }
    if (D.SCOPE, id) in store { assert store[(D.SCOPE, id)] in durable; }
  }

  /** What the object leaves in the store is what the next page's object may start with. */
  lemma ObjectLeavesAStart(c: SpectroClient)
    requires c.Valid()
    ensures Leftover(c.Now().durable, c.outbox.limits) && Enumerates(c.Now().durable, c.outbox.store, D.SCOPE)
  {
    ReachedIsSafe(c.durable, c.known, c.outbox.limits, c.worlds, c.steps, |c.steps|);
    SafeStateLeaves(c.Now(), c.outbox.limits);
  }
}
