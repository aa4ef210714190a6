/**
 * The delivery protocol as a step machine. A client step is what runs between two awaits of the SDK client;
 * a world step is a client step or something the environment does: the outbox finishes a write, the network
 * answers, the page dies. Any enabled step may come next.
 */
module Delivery {
  import opened Events
  import opened EventQueues
  import opened QueueAttempts
  import opened Outbox

  /** One link of the chain of durable writes. */
  datatype Write = Save(records: seq<Record>) | Remove(ids: seq<nat>)

  /** Where one flush operation stands; each constructor is one await. */
  datatype Phase =
    | AwaitReady(options: FlushOptions)
    | AwaitWrites(options: FlushOptions, ticket: nat)
    | Sending(records: seq<Record>)
    | Removing(records: seq<Record>)
    | Settled(remaining: nat)

  datatype Startup = Loading | Loaded(records: seq<Record>) | Clearing(ids: set<nat>) | Ready

  /**
   * `pending` are the durable writes issued and not finished and `done` counts the finished ones; `ops` are the
   * flush operations under way, `current` the one new flush calls join, `waiters` how many calls have joined it
   * and `callbacks` the joined calls whose operation is over, with the size it left.
   */
  datatype Client = Client(
    queue: seq<Record>,
    startup: Startup,
    pending: seq<Write>,
    done: nat,
    ops: map<nat, Phase>,
    current: Option<nat>,
    nextOp: nat,
    followUp: Option<FlushOptions>,
    waiters: nat,
    callbacks: seq<nat>)

  const NEW_CLIENT := Client([], Loading, [], 0, map[], None, 0, None, 0, [])

  // ----- Client steps ----------------------------------------------------------------------------

  function UrgentIds(records: seq<Record>): seq<nat> {
    if records == [] then []
    else (if records[0].priority == Immediate then [records[0].event.id] else []) + UrgentIds(records[1..])
  }

  function Persist(pending: seq<Write>, records: seq<Record>): seq<Write> {
    if records == [] then pending else pending + [Save(records)]
  }

  function RemovePersisted(pending: seq<Write>, ids: seq<nat>): seq<Write> {
    if ids == [] then pending else pending + [Remove(ids)]
  }

  /** A validated event arrives. */
  function Capture(c: Client, r: Record): Client {
    var e := EnqueueSpec(c.queue, r);
    var removed := RemovePersisted(c.pending, UrgentIds(e.evicted));
    c.(queue := e.queue,
       pending := if e.verdict == Accepted && r.priority == Immediate then Persist(removed, [r]) else removed)
  }

  function MergeFlushOptions(current: Option<FlushOptions>, next: FlushOptions): FlushOptions {
    var before := if current.Some? then current.value else FlushOptions(false, None);
    FlushOptions(
      before.keepalive || next.keepalive,
      if before.priority == Some(Immediate) || next.priority == Some(Immediate) then Some(Immediate)
      else if before.priority == Some(Batch) || next.priority == Some(Batch) then Some(Batch)
      else None)
  }

  /** `flush`: join the operation in flight, or start one. */
  function Flush(c: Client, options: FlushOptions): Client {
    if c.current.Some? then
      c.(followUp := Some(MergeFlushOptions(c.followUp, options)), waiters := c.waiters + 1)
    else
      c.(ops := c.ops[c.nextOp := AwaitReady(options)], current := Some(c.nextOp), nextOp := c.nextOp + 1)
  }

  /** The restore is over, so the flush goes on to wait for every durable write issued so far. */
  function PassReady(c: Client, k: nat): Client
    requires k in c.ops && c.ops[k].AwaitReady?
  {
    c.(ops := c.ops[k := AwaitWrites(c.ops[k].options, c.done + |c.pending|)])
  }

  function Drain(c: Client, k: nat, now: nat): Client
    requires k in c.ops && c.ops[k].AwaitWrites?
  {
    var d := FlushDrain(c.queue, c.ops[k].options, now);
    if d.drained == [] then c.(ops := c.ops[k := Settled(|d.queue|)], queue := d.queue)
    else c.(ops := c.ops[k := Sending(d.drained)], queue := d.queue)
  }

  function Acknowledge(c: Client, k: nat): Client
    requires k in c.ops && c.ops[k].Sending?
  {
    c.(ops := c.ops[k := Removing(c.ops[k].records)])
  }

  function FinishRemoval(c: Client, k: nat): Client
    requires k in c.ops && c.ops[k].Removing?
  {
    c.(ops := c.ops[k := Settled(|c.queue|)])
  }

  function UrgentOnly(records: seq<Record>): seq<Record> { OfPriority(records, Immediate) }

  /** The send failed: retry what has attempts left, save that, then remove what was given up. */
  function Fail(c: Client, k: nat): Client
    requires k in c.ops && c.ops[k].Sending?
  {
    var f := RetrySpec(c.queue, c.ops[k].records);
    c.(queue := f.queue,
       pending := RemovePersisted(Persist(c.pending, UrgentOnly(f.retried)), UrgentIds(f.dropped)),
       ops := c.ops[k := Settled(|f.queue|)])
  }

  /** The operation's promise settles: it is no longer in flight and its joined calls become runnable. */
  function Settle(c: Client, k: nat): Client
    requires k in c.ops && c.ops[k].Settled?
  {
    var rest := c.(ops := map j | j in c.ops && j != k :: c.ops[j]);
    if c.current == Some(k)
    then rest.(current := None, callbacks := c.callbacks + seq(c.waiters, _ => c.ops[k].remaining), waiters := 0)
    else rest
  }

  /** A joined call resumes: the first one takes the merged options and flushes again if anything is left. */
  function Resume(c: Client): Client
    requires c.callbacks != []
  {
    var next := c.(callbacks := c.callbacks[1..], followUp := None);
    if c.followUp.Some? && c.callbacks[0] != 0 then Flush(next, c.followUp.value) else next
  }

  function FinishLoad(c: Client, records: seq<Record>): Client { c.(startup := Loaded(records)) }

  function Valid(records: seq<Record>, invalid: set<nat>): seq<Record> {
    if records == [] then []
    else (if records[0].event.id in invalid then [] else [records[0]]) + Valid(records[1..], invalid)
  }

  /** The loaded records that pass validation go into the queue; the others are about to be deleted. */
  function Restore(c: Client, invalid: set<nat>): Client
    requires c.startup.Loaded?
  {
    var valid := Valid(c.startup.records, invalid);
    c.(queue := RestoreSpec(c.queue, valid).queue,
       startup := if |valid| < |c.startup.records| then Clearing(Ids(c.startup.records) * invalid) else Ready)
  }

  function FinishStartup(c: Client): Client { c.(startup := Ready) }

  function FinishWrite(c: Client): Client
    requires c.pending != []
  {
    c.(pending := c.pending[1..], done := c.done + 1)
  }

  // ----- The world -------------------------------------------------------------------------------

  /**
   * `durable` is the outbox of the client's scope. The sets record what happened in the life of this client:
   * urgent events it took on (captured and accepted, or found in the outbox), acknowledged, reported dropped by
   * the queue, and given up by the outbox and not stored again since; `stale` are the events whose last finished
   * save failed, `captured` all ids captured, `sends` every delivery attempt, and `known` every id ever seen, in
   * this life or before.
   */
  datatype World = World(
    client: Client,
    durable: seq<Stored>,
    accepted: set<nat>,
    acked: set<nat>,
    dropped: set<nat>,
    lost: set<nat>,
    stale: set<nat>,
    captured: set<nat>,
    sends: multiset<nat>,
    known: set<nat>)

  function StoredIds(s: seq<Stored>): set<nat> { set x | x in s :: IdOf(x) }

  /** A page starts with whatever an earlier life left in the outbox. */
  function Start(durable: seq<Stored>, known: set<nat>): World {
    World(NEW_CLIENT, durable, StoredIds(durable), {}, {}, {}, {}, {}, multiset{}, known + StoredIds(durable))
  }

  datatype Label =
    | CaptureStep(record: Record)
    | FlushStep(options: FlushOptions)
    | PassReadyStep(op: nat)
    | DrainStep(op: nat, clock: nat)
    | AcknowledgeStep(op: nat)
    | FinishRemovalStep(op: nat, removed: bool)
    | FailStep(op: nat)
    | SettleStep(op: nat)
    | ResumeStep
    | LoadStep(now: int, listed: seq<Stored>)
    | LoadFailsStep
    | RestoreStep(invalid: set<nat>)
    | FinishStartupStep(removed: bool)
    | WriteStep(now: int, listed: seq<Stored>)
    | WriteFailsStep
    | CrashStep

  ghost predicate Enabled(w: World, l: Label) {
    var c := w.client;
    match l
    case CaptureStep(r) => r.attempts == 0 && r.event.id !in w.known && r.event.bytes <= MAX_EVENT_BYTES
    case FlushStep(_) => true
    case PassReadyStep(k) => k in c.ops && c.ops[k].AwaitReady? && c.startup.Ready?
    case DrainStep(k, _) => k in c.ops && c.ops[k].AwaitWrites? && c.done >= c.ops[k].ticket
    case AcknowledgeStep(k) => k in c.ops && c.ops[k].Sending?
    case FinishRemovalStep(k, _) => k in c.ops && c.ops[k].Removing?
    case FailStep(k) => k in c.ops && c.ops[k].Sending?
    case SettleStep(k) => k in c.ops && c.ops[k].Settled?
    case ResumeStep => c.callbacks != []
    case LoadStep(_, listed) => c.startup.Loading? && multiset(listed) == multiset(w.durable)
    case LoadFailsStep => c.startup.Loading?
    case RestoreStep(invalid) =>
      c.startup.Loaded? && forall r :: r in c.startup.records && r.event.bytes > MAX_EVENT_BYTES ==> r.event.id in invalid
    case FinishStartupStep(_) => c.startup.Clearing?
    case WriteStep(_, listed) => c.startup.Ready? && c.pending != [] && multiset(listed) == multiset(w.durable)
    case WriteFailsStep => c.startup.Ready? && c.pending != []
    case CrashStep => true
  }

  /** Delete some ids from the outbox. */
  function WithoutIds(s: seq<Stored>, ids: set<nat>): seq<Stored> {
    if s == [] then [] else (if IdOf(s[0]) in ids then [] else [s[0]]) + WithoutIds(s[1..], ids)
  }

  function IdSet(ids: seq<nat>): set<nat> { set i | i in ids }

  const SCOPE: nat := 0

  ghost function Do(w: World, l: Label, limits: Limits): World
    requires Enabled(w, l)
  {
    var c := w.client;
    match l
    case CaptureStep(r) =>
      var e := EnqueueSpec(c.queue, r);
      w.(client := Capture(c, r),
         accepted := w.accepted + (if e.verdict == Accepted && r.priority == Immediate then {r.event.id} else {}),
         dropped := w.dropped + Ids(e.evicted),
         captured := w.captured + {r.event.id},
         known := w.known + {r.event.id})
    case FlushStep(options) => w.(client := Flush(c, options))
    case PassReadyStep(k) => w.(client := PassReady(c, k))
    case DrainStep(k, now) =>
      w.(client := Drain(c, k, now),
         sends := w.sends + multiset(Ids(FlushDrain(c.queue, c.ops[k].options, now).drained)))
    case AcknowledgeStep(k) => w.(client := Acknowledge(c, k), acked := w.acked + Ids(c.ops[k].records))
    case FinishRemovalStep(k, removed) =>
      w.(client := FinishRemoval(c, k),
         durable := if removed then WithoutIds(w.durable, Ids(c.ops[k].records)) else w.durable)
    case FailStep(k) =>
      w.(client := Fail(c, k), dropped := w.dropped + Ids(RetrySpec(c.queue, c.ops[k].records).dropped))
    case SettleStep(k) => w.(client := Settle(c, k))
    case ResumeStep => w.(client := Resume(c))
    case LoadStep(now, listed) =>
      var kept := LoadableOnly(listed, limits.ttlMs, now);
      w.(client := FinishLoad(c, LoadSpec(listed, limits.ttlMs, now)),
         durable := kept,
         lost := w.lost + (StoredIds(w.durable) - StoredIds(kept)))
    case LoadFailsStep => w.(client := FinishStartup(c))
    case RestoreStep(invalid) => w.(client := Restore(c, invalid))
    case FinishStartupStep(removed) =>
      w.(client := FinishStartup(c),
         durable := if removed then WithoutIds(w.durable, c.startup.ids) else w.durable,
         lost := w.lost + (if removed then c.startup.ids else {}))
    case WriteStep(now, listed) =>
      (match c.pending[0]
       case Save(records) =>
         var kept := SaveSpec(listed, SCOPE, records, now, limits).retained;
         w.(client := FinishWrite(c),
            durable := kept,
            lost := w.lost + StoredIds(w.durable) + Ids(records) - StoredIds(kept),
            stale := w.stale - Ids(records))
       case Remove(ids) =>
         w.(client := FinishWrite(c), durable := WithoutIds(w.durable, IdSet(ids))))
    case WriteFailsStep =>
      var unsaved := if c.pending[0].Save? then Ids(c.pending[0].records) else {};
      w.(client := FinishWrite(c),
         lost := w.lost + (unsaved - StoredIds(w.durable)),
         stale := w.stale + unsaved)
    case CrashStep => Start(w.durable, w.known)
  }
}
