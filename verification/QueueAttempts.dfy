/** Delivery attempts run out: failed flushes keep order, spend attempts, and end with an empty queue. */
module QueueAttempts {
  import opened Events
  import opened EventQueues
  import opened QueueProperties
  import opened QueueDelivery

  datatype FlushOptions = FlushOptions(keepalive: bool, priority: Option<Priority>)

  function MaximumBytes(options: FlushOptions): nat {
    if options.keepalive then MAX_KEEPALIVE_ENVELOPE_BYTES else MAX_ENVELOPE_BYTES
  }

  const FLUSH_LIMIT: nat := 100

  function FlushDrain(q: seq<Record>, options: FlushOptions, now: nat): DrainOutcome {
    DrainSpec(q, FLUSH_LIMIT, MaximumBytes(options), options.priority, now)
  }

  /** The queue after a whole flush with no capture in between: acknowledged, or failed and retried. */
  function FlushSpec(q: seq<Record>, options: FlushOptions, now: nat, delivered: bool): seq<Record> {
    var d := FlushDrain(q, options, now);
    if delivered then d.queue else RetrySpec(d.queue, d.drained).queue
  }

  // ----- A failed flush --------------------------------------------------------------------------

  /** Prepending what fits evicts nothing and keeps both orders. */
  lemma {:induction false} PrependWithRoom(q: seq<Record>, records: seq<Record>)
    requires WithinCapacity(records + q)
    ensures PrependSpec(q, records) == PrependOutcome(records + q, [])
    decreases |records|
  {
    if records == [] {
      assert records + q == q;
    } else {
      assert records + q == [records[0]] + (records[1..] + q);
      BytesAppend([records[0]], records[1..] + q);
      PrependWithRoom(q, records[1..]);
      LengthsAddUp(records[1..] + q);
    }
  }

  lemma {:induction false} ReattemptedShrinks(records: seq<Record>)
    ensures |Reattempted(records, false)| <= |records| && Bytes(Reattempted(records, false)) <= Bytes(records)
  {
    if records != [] {
      var n := |records| - 1;
      ReattemptedShrinks(records[..n]);
      assert records == records[..n] + [records[n]];
      BytesAppend(records[..n], [records[n]]);
      var next := NextAttempt(records[n]);
      BytesAppend(Reattempted(records[..n], false), if next.attempts < MAX_DELIVERY_ATTEMPTS then [next] else []);
    }
  }

  /**
   * A failed flush with no capture in between evicts nothing: the drained records that have attempts left go
   * back, one attempt later, in front of the retained ones, and only exhausted records are reported.
   */
  lemma FailedFlushKeepsOrder(q: seq<Record>, options: FlushOptions, now: nat)
    requires WithinCapacity(q)
    ensures var d := FlushDrain(q, options, now);
            RetrySpec(d.queue, d.drained)
            == RetryOutcome(Reattempted(d.drained, false) + d.queue, Reattempted(d.drained, false), Reattempted(d.drained, true))
  {
    var d := FlushDrain(q, options, now);
    PickBytes(q, Chosen(q, FLUSH_LIMIT, MaximumBytes(options), options.priority, now));
    ReattemptedShrinks(d.drained);
    BytesAppend(Reattempted(d.drained, false), d.queue);
    PrependWithRoom(d.queue, Reattempted(d.drained, false));
  }

  // ----- Attempts left ---------------------------------------------------------------------------

  /** Every queued record has an attempt left. */
  ghost predicate Live(q: seq<Record>) {
    forall r :: r in q ==> r.attempts < MAX_DELIVERY_ATTEMPTS
  }

  function AttemptsLeft(q: seq<Record>): int {
    if q == [] then 0 else MAX_DELIVERY_ATTEMPTS - q[0].attempts + AttemptsLeft(q[1..])
  }

  lemma {:induction false} AttemptsLeftAppend(a: seq<Record>, b: seq<Record>)
    ensures AttemptsLeft(a + b) == AttemptsLeft(a) + AttemptsLeft(b)
  {
    if a == [] {
      assert a + b == b;
    } else {
      assert (a + b)[1..] == a[1..] + b;
      AttemptsLeftAppend(a[1..], b);
    }
  }

  lemma {:induction false} LiveMeansPositive(q: seq<Record>)
    requires Live(q)
    ensures AttemptsLeft(q) >= |q|
  {
    if q != [] {
      assert q[0] in q;
      LiveMeansPositive(q[1..]);
    }
  }

  lemma {:induction false} PickAttempts(q: seq<Record>, chosen: seq<nat>)
    ensures AttemptsLeft(q) == AttemptsLeft(Pick(q, chosen, true)) + AttemptsLeft(Pick(q, chosen, false))
  {
    if q != [] {
      var n := |q| - 1;
      PickAttempts(q[..n], chosen);
      assert q == q[..n] + [q[n]];
      AttemptsLeftAppend(q[..n], [q[n]]);
      var last := if n in chosen then [q[n]] else [];
      var other := if n in chosen then [] else [q[n]];
      AttemptsLeftAppend(Pick(q[..n], chosen, true), last);
      AttemptsLeftAppend(Pick(q[..n], chosen, false), other);
    }
  }

  lemma {:induction false} ReattemptedAttempts(records: seq<Record>)
    requires Live(records)
    ensures AttemptsLeft(Reattempted(records, false)) == AttemptsLeft(records) - |records|
    ensures Live(Reattempted(records, false))
  {
    if records != [] {
      var n := |records| - 1;
      assert records == records[..n] + [records[n]];
      ReattemptedAttempts(records[..n]);
      AttemptsLeftAppend(records[..n], [records[n]]);
      var next := NextAttempt(records[n]);
      AttemptsLeftAppend(Reattempted(records[..n], false), if next.attempts < MAX_DELIVERY_ATTEMPTS then [next] else []);
      assert records[n] in records;
    }
  }

  lemma DrainedFromQueue(q: seq<Record>, options: FlushOptions, now: nat)
    ensures var d := FlushDrain(q, options, now);
            && (forall r :: r in d.drained ==> r in q)
            && (forall r :: r in d.queue ==> r in q)
  {
    var d := FlushDrain(q, options, now);
    DrainPartitions(q, FLUSH_LIMIT, MaximumBytes(options), options.priority, now);
    BothPartsIn(d.drained, d.queue, q);
  }

  lemma BothPartsIn<T>(a: seq<T>, b: seq<T>, all: seq<T>)
    requires multiset(a) + multiset(b) == multiset(all)
    ensures (forall x :: x in a ==> x in all) && (forall x :: x in b ==> x in all)
  {
    assert forall x :: x in a || x in b ==> x in multiset(all);
  }

  /** Delivered or failed, a flush spends at least one attempt for every record it sent; a failure, exactly one. */
  lemma FlushSpendsAttempts(q: seq<Record>, options: FlushOptions, now: nat, delivered: bool)
    requires Live(q) && WithinCapacity(q)
    ensures var next := FlushSpec(q, options, now, delivered); var sent := |FlushDrain(q, options, now).drained|;
            && Live(next) && WithinCapacity(next)
            && AttemptsLeft(next) <= AttemptsLeft(q) - sent
            && (!delivered ==> AttemptsLeft(next) == AttemptsLeft(q) - sent)
  {
    var d := FlushDrain(q, options, now);
    var chosen := Chosen(q, FLUSH_LIMIT, MaximumBytes(options), options.priority, now);
    PickAttempts(q, chosen);
    PickBytes(q, chosen);
    DrainedFromQueue(q, options, now);
    LiveMeansPositive(d.drained);
    if !delivered {
      FailedFlushKeepsOrder(q, options, now);
      ReattemptedAttempts(d.drained);
      AttemptsLeftAppend(Reattempted(d.drained, false), d.queue);
      ReattemptedShrinks(d.drained);
      BytesAppend(Reattempted(d.drained, false), d.queue);
    }
  }

  function Pow10(k: nat): nat { if k == 0 then 1 else 10 * Pow10(k - 1) }

  lemma {:induction false} DigitsBound(n: nat, k: nat)
    requires k > 0 && n < Pow10(k)
    ensures Digits(n) <= k
  {
    if n >= 10 { DigitsBound(n / 10, k - 1); }
  }

  /** Millisecond clocks stay far below a hundred digits. */
  predicate Clock(now: nat) { now < Pow10(100) }

  const DEFAULT_OPTIONS := FlushOptions(false, None)

  /** Every event a client queues is at most 64 KiB. */
  ghost predicate EventsBounded(q: seq<Record>) {
    forall r :: r in q ==> r.event.bytes <= MAX_EVENT_BYTES
  }

  lemma OneEventFits(r: Record, now: nat)
    requires r.event.bytes <= MAX_EVENT_BYTES && Clock(now)
    ensures EnvelopeBytes(now, [r]) <= MAX_ENVELOPE_BYTES
  {
    DigitsBound(now, 100);
    assert Bytes([r]) == r.event.bytes;
  }

  // ----- When a flush makes progress -------------------------------------------------------------

  /** Some candidate fits the envelope by itself. */
  ghost predicate SomeFits(q: seq<Record>, options: FlushOptions, now: nat) {
    exists i :: i in Candidates(q, options.priority) && i < |q| && EnvelopeBytes(now, [q[i]]) <= MaximumBytes(options)
  }

  /** A flush sends something exactly when some candidate fits the envelope by itself, whatever its options. */
  lemma FlushMakesProgress(q: seq<Record>, options: FlushOptions, now: nat)
    ensures FlushDrain(q, options, now).drained != [] <==> SomeFits(q, options, now)
  {
    var drained := FlushDrain(q, options, now).drained;
    var chosen := Chosen(q, FLUSH_LIMIT, MaximumBytes(options), options.priority, now);
    DrainedMatchesPacked(q, FLUSH_LIMIT, MaximumBytes(options), options.priority, now);
    assert |multiset(drained)| == |multiset(At(q, chosen))|;
    if drained == [] {
      assert chosen == [];
      forall i | i in Candidates(q, options.priority) && i < |q| ensures EnvelopeBytes(now, [q[i]]) > MaximumBytes(options) {
        DrainIsMaximal(q, FLUSH_LIMIT, MaximumBytes(options), options.priority, now, i);
        assert [] + [q[i]] == [q[i]];
      }
    } else {
      DrainedFits(q, options, now, chosen[0]);
    }
  }

  /** Whatever a flush sends would fit by itself. */
  lemma DrainedFits(q: seq<Record>, options: FlushOptions, now: nat, i: nat)
    requires i in Chosen(q, FLUSH_LIMIT, MaximumBytes(options), options.priority, now)
    ensures i in Candidates(q, options.priority) && i < |q| && EnvelopeBytes(now, [q[i]]) <= MaximumBytes(options)
  {
    var chosen := Chosen(q, FLUSH_LIMIT, MaximumBytes(options), options.priority, now);
    CandidatesInRange(q, options.priority);
    PackedFromCandidates(q, Candidates(q, options.priority), FLUSH_LIMIT, MaximumBytes(options), now);
    var k :| 0 <= k < |chosen| && chosen[k] == i;
    assert At(q, chosen)[k] == q[i];
    BytesAtLeast(At(q, chosen), q[i]);
    assert Bytes([q[i]]) == q[i].event.bytes;
  }

  lemma {:induction false} BytesAtLeast(q: seq<Record>, x: Record)
    requires x in q
    ensures Bytes(q) >= x.event.bytes
  {
    if x != q[0] { BytesAtLeast(q[1..], x); }
  }

  /** A default flush of a queue with anything in it sends something. */
  lemma DefaultDrainTakesSome(q: seq<Record>, now: nat)
    requires q != [] && EventsBounded(q) && Clock(now)
    ensures FlushDrain(q, DEFAULT_OPTIONS, now).drained != []
  {
    assert q[0] in q;
    OneEventFits(q[0], now);
    assert AllBelow(|q|)[0] == 0;
    FlushMakesProgress(q, DEFAULT_OPTIONS, now);
  }

  /** An urgent flush that is not keepalive sends something exactly when an urgent record is queued. */
  lemma UrgentFlushNeedsUrgency(q: seq<Record>, now: nat)
    requires EventsBounded(q) && Clock(now)
    ensures FlushDrain(q, FlushOptions(false, Some(Immediate)), now).drained != [] <==> exists i: nat :: IsUrgent(q, i)
  {
    FlushMakesProgress(q, FlushOptions(false, Some(Immediate)), now);
    SelectionIsExact(q);
    if i: nat :| IsUrgent(q, i) {
      assert q[i] in q;
      OneEventFits(q[i], now);
    }
    forall i: nat | IsContext(q, i) ensures exists j: nat :: IsUrgent(q, j) {
      var j :| i < j < |q| && ContextOf(q, i, j);
      assert IsUrgent(q, j);
    }
  }

  /** A drain that takes nothing leaves the queue as it was. */
  lemma NothingTaken(q: seq<Record>, limit: nat, maximumBytes: nat, priority: Option<Priority>, now: nat)
    requires DrainSpec(q, limit, maximumBytes, priority, now).drained == []
    ensures DrainSpec(q, limit, maximumBytes, priority, now).queue == q
  {
    var chosen := Chosen(q, limit, maximumBytes, priority, now);
    DrainedMatchesPacked(q, limit, maximumBytes, priority, now);
    assert |multiset(At(q, chosen))| == 0;
    PickNone(q);
  }

  /** A flush, delivered or failed, leaves the queue as it was exactly when no candidate fits by itself. */
  lemma FlushStallsExactly(q: seq<Record>, options: FlushOptions, now: nat, delivered: bool)
    requires Live(q) && WithinCapacity(q)
    ensures FlushSpec(q, options, now, delivered) == q <==> !SomeFits(q, options, now)
  {
    FlushMakesProgress(q, options, now);
    if FlushDrain(q, options, now).drained == [] {
      NothingTaken(q, FLUSH_LIMIT, MaximumBytes(options), options.priority, now);
    } else {
      FlushSpendsAttempts(q, options, now, delivered);
    }
  }

  /** A keepalive flush stalls exactly when every queued event is too big for the keepalive envelope. */
  lemma KeepaliveStallsExactly(q: seq<Record>, now: nat, delivered: bool)
    requires Live(q) && WithinCapacity(q)
    ensures FlushSpec(q, FlushOptions(true, None), now, delivered) == q
            <==> forall r :: r in q ==> HeaderBytes(now) + ITEM_BYTES + r.event.bytes > MAX_KEEPALIVE_ENVELOPE_BYTES
  {
    var options := FlushOptions(true, None);
    FlushStallsExactly(q, options, now, delivered);
    forall i | 0 <= i < |q|
      ensures i in Candidates(q, None) && EnvelopeBytes(now, [q[i]]) == HeaderBytes(now) + ITEM_BYTES + q[i].event.bytes
    {
      assert AllBelow(|q|)[i] == i;
      assert Bytes([q[i]]) == q[i].event.bytes;
    }
  }

  // ----- Repeated flushes ------------------------------------------------------------------------

  lemma FlushKeepsBounded(q: seq<Record>, options: FlushOptions, now: nat, delivered: bool)
    requires EventsBounded(q) && WithinCapacity(q)
    ensures EventsBounded(FlushSpec(q, options, now, delivered))
  {
    DrainedFromQueue(q, options, now);
    FailedFlushKeepsOrder(q, options, now);
    ReattemptedBounded(FlushDrain(q, options, now).drained);
  }

  lemma ReattemptedBounded(records: seq<Record>)
    requires EventsBounded(records)
    ensures EventsBounded(Reattempted(records, false))
  {
    forall r | r in Reattempted(records, false) ensures r.event.bytes <= MAX_EVENT_BYTES {
      ReattemptedFrom(records, false, r);
    }
  }

  datatype Attempt = Attempt(now: nat, delivered: bool)

  function Flushes(q: seq<Record>, attempts: seq<Attempt>): seq<Record>
    decreases |attempts|
  {
    if attempts == [] then q
    else Flushes(FlushSpec(q, DEFAULT_OPTIONS, attempts[0].now, attempts[0].delivered), attempts[1..])
  }

  /**
   * Whatever the network does, default flushes without new captures empty the queue: after as many of them
   * as there were attempts left, nothing is queued.
   */
  lemma {:induction false} FlushesEmptyTheQueue(q: seq<Record>, attempts: seq<Attempt>)
    requires Live(q) && WithinCapacity(q) && EventsBounded(q)
    requires forall a :: a in attempts ==> Clock(a.now)
    requires |attempts| >= AttemptsLeft(q)
    ensures Flushes(q, attempts) == []
    decreases |attempts|
  {
    LiveMeansPositive(q);
    if attempts != [] {
      var a := attempts[0];
      assert a in attempts;
      var next := FlushSpec(q, DEFAULT_OPTIONS, a.now, a.delivered);
      FlushSpendsAttempts(q, DEFAULT_OPTIONS, a.now, a.delivered);
      FlushKeepsBounded(q, DEFAULT_OPTIONS, a.now, a.delivered);
      if q != [] { DefaultDrainTakesSome(q, a.now); }
      else { LiveMeansPositive(next); }
      FlushesEmptyTheQueue(next, attempts[1..]);
    }
  }
}
