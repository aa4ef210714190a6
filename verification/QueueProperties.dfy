/** What the queue's operations guarantee together: conservation, eviction policy, packing, bounded retries. */
module QueueProperties {
  import opened Events
  import opened Lists
  import opened EventQueues

  // ----- Conservation ----------------------------------------------------------------------------

  lemma Regroup<T>(queue: multiset<T>, now: multiset<T>, earlier: multiset<T>, before: multiset<T>, r: multiset<T>, extra: multiset<T>)
    requires queue + now == before + r + extra
    ensures queue + (earlier + now) == before + earlier + r + extra
  {
    calc {
      queue + (earlier + now);
      (queue + now) + earlier;
      before + r + extra + earlier;
    }
  }

  lemma {:induction false} DropBatchesConserves(q: seq<Record>, k: nat)
    requires k <= |OfPriority(q, Batch)|
    ensures multiset(DropBatches(q, k)) + multiset(OfPriority(q, Batch)[..k]) == multiset(q)
  {
    if k == 0 {
      assert OfPriority(q, Batch)[..0] == [];
    } else if q[0].priority == Batch {
      DropOne(q, k);
      DropBatchesConserves(q[1..], k - 1);
      OneMore(q[0], DropBatches(q[1..], k - 1), OfPriority(q[1..], Batch)[..k - 1], q[1..]);
    } else {
      KeepOne(q, k);
      DropBatchesConserves(q[1..], k);
      OneMore(q[0], DropBatches(q[1..], k), OfPriority(q[1..], Batch)[..k], q[1..]);
    }
  }

  lemma DropOne(q: seq<Record>, k: nat)
    requires q != [] && q[0].priority == Batch && 0 < k <= |OfPriority(q, Batch)|
    ensures k - 1 <= |OfPriority(q[1..], Batch)|
    ensures OfPriority(q, Batch)[..k] == [q[0]] + OfPriority(q[1..], Batch)[..k - 1]
    ensures q == [q[0]] + q[1..]
  {
  }

  lemma KeepOne(q: seq<Record>, k: nat)
    requires q != [] && q[0].priority != Batch && 0 < k <= |OfPriority(q, Batch)|
    ensures OfPriority(q, Batch) == OfPriority(q[1..], Batch)
    ensures q == [q[0]] + q[1..]
  {
  }

  lemma EvictedConserves(q: seq<Record>, k: nat)
    requires k <= |q|
    ensures |EvictionOrder(q)| == |q|
    ensures multiset(Evicted(q, k)) + multiset(EvictionOrder(q)[..k]) == multiset(q)
  {
    LengthsAddUp(q);
    var b, u := OfPriority(q, Batch), OfPriority(q, Immediate);
    if k <= |b| {
      DropBatchesConserves(q, k);
      TakeFirst(b, u, k);
    } else {
      PrioritiesConserve(q);
      MoveFront(b, u, k - |b|);
      TakePast(b, u, k);
    }
  }

  lemma PrioritiesConserve(q: seq<Record>)
    ensures multiset(OfPriority(q, Immediate)) + multiset(OfPriority(q, Batch)) == multiset(q)
  {
    LengthsAddUp(q);
    var b := OfPriority(q, Batch);
    DropBatchesConserves(q, |b|);
    DropAllBatches(q);
    assert b[..|b|] == b;
  }

  lemma MoveFront<T>(b: seq<T>, u: seq<T>, m: nat)
    requires m <= |u|
    ensures multiset(u[m..]) + multiset(b + u[..m]) == multiset(u) + multiset(b)
  {
    assert u == u[..m] + u[m..];
  }

  /** Enqueue loses nothing silently: what was there plus the arrival is what is left, evicted or refused. */
  lemma EnqueueConserves(q: seq<Record>, r: Record)
    ensures var e := EnqueueSpec(q, r);
            multiset(q) + multiset{r}
            == multiset(e.queue) + multiset(e.evicted) + (if e.verdict == Accepted then multiset{} else multiset{r})
  {
    EvictedConserves(q, EvictionsNeeded(q, r.event.bytes, Evictable(q, r.priority), 0));
  }

  predicate Oversize(r: Record) { r.event.bytes > MAX_QUEUED_BYTES }

  ghost predicate NoneOversize(records: seq<Record>) { forall r :: r in records ==> !Oversize(r) }

  lemma PushFrontConserves(q: seq<Record>, r: Record)
    ensures var p := PushFrontSpec(q, r);
            multiset(p.queue) + multiset(p.dropped)
            == multiset(q) + multiset{r} + (if Oversize(r) then multiset{r} else multiset{})
  {
    var k := EvictionsNeeded(q, r.event.bytes, |q|, 0);
    EvictedConserves(q, k);
    EvictedAll(q);
  }

  /** The oversize records of a list, each of which `prepend` reports twice. */
  function OversizeOf(records: seq<Record>): seq<Record> {
    if records == [] then [] else OversizeOf(records[1..]) + (if Oversize(records[0]) then [records[0]] else [])
  }

  lemma PrependStep(q: seq<Record>, r: Record, rest: seq<Record>)
    ensures var before := PrependSpec(q, rest); var after := PrependSpec(q, [r] + rest);
            multiset(after.queue) + multiset(after.dropped)
            == multiset(before.queue) + multiset(before.dropped)
               + multiset{r} + (if Oversize(r) then multiset{r} else multiset{})
  {
    assert ([r] + rest)[1..] == rest;
    var before := PrependSpec(q, rest);
    var first := PushFrontSpec(before.queue, r);
    PushFrontConserves(before.queue, r);
    MultisetConcat(before.dropped, first.dropped);
    Regroup(multiset(first.queue), multiset(first.dropped), multiset(before.dropped), multiset(before.queue),
            multiset{r}, if Oversize(r) then multiset{r} else multiset{});
  }

  lemma {:induction false} PrependAccounts(q: seq<Record>, records: seq<Record>)
    ensures var p := PrependSpec(q, records);
            multiset(p.queue) + multiset(p.dropped) == multiset(q) + multiset(records) + multiset(OversizeOf(records))
  {
    if records != [] {
      var r, rest := records[0], records[1..];
      PrependAccounts(q, rest);
      PrependStep(q, r, rest);
      assert records == [r] + rest;
    }
  }

  lemma {:induction false} OversizeOfEmpty(records: seq<Record>)
    ensures OversizeOf(records) == [] <==> NoneOversize(records)
  {
    if records != [] { OversizeOfEmpty(records[1..]); }
  }

  /** Prepending conserves records exactly when none of them alone exceeds the queue's byte limit. */
  lemma PrependConserves(q: seq<Record>, records: seq<Record>)
    ensures var p := PrependSpec(q, records);
            multiset(p.queue) + multiset(p.dropped) == multiset(q) + multiset(records) <==> NoneOversize(records)
  {
    PrependAccounts(q, records);
    OversizeOfEmpty(records);
    var p := PrependSpec(q, records);
    var expected := multiset(q) + multiset(records);
    if multiset(p.queue) + multiset(p.dropped) == expected {
      assert |expected| == |expected + multiset(OversizeOf(records))|;
    }
  }

  /** The records one attempt later, in their own order. */
  function AllReattempted(records: seq<Record>): seq<Record> {
    seq(|records|, i requires 0 <= i < |records| => NextAttempt(records[i]))
  }

  lemma {:induction false} ReattemptedSplits(records: seq<Record>)
    ensures multiset(Reattempted(records, false)) + multiset(Reattempted(records, true)) == multiset(AllReattempted(records))
  {
    if records != [] {
      var front, next := records[..|records| - 1], NextAttempt(records[|records| - 1]);
      ReattemptedSplits(front);
      OneMoreLast(next, Reattempted(front, false), Reattempted(front, true), AllReattempted(front));
      assert AllReattempted(records) == AllReattempted(front) + [next];
    }
  }

  /**
   * A failed delivery loses nothing silently either: every record, one attempt later, is queued or reported,
   * and reported once, exactly when no record that is retried exceeds the queue's byte limit.
   */
  lemma RetryConserves(q: seq<Record>, records: seq<Record>)
    ensures var f := RetrySpec(q, records);
            multiset(f.queue) + multiset(f.dropped) == multiset(q) + multiset(AllReattempted(records))
            <==> NoneOversize(f.retried)
  {
    ReattemptedSplits(records);
    var retried, exhausted := Reattempted(records, false), Reattempted(records, true);
    PrependConserves(q, retried);
    var p := PrependSpec(q, retried);
    MultisetConcat(exhausted, p.dropped);
    SameBoth(multiset(p.queue) + multiset(p.dropped), multiset(q) + multiset(retried), multiset(exhausted));
    assert multiset(p.queue) + multiset(exhausted + p.dropped) == multiset(p.queue) + multiset(p.dropped) + multiset(exhausted);
    assert multiset(q) + multiset(AllReattempted(records)) == multiset(q) + multiset(retried) + multiset(exhausted);
  }

  lemma SameBoth<T>(a: multiset<T>, b: multiset<T>, more: multiset<T>)
    ensures a + more == b + more <==> a == b
  {
    if a + more == b + more {
      assert a == (a + more) - more;
      assert b == (b + more) - more;
    }
  }

  /** What is retried is no bigger than what failed. */
  lemma NoneOversizeAgain(records: seq<Record>)
    requires NoneOversize(records)
    ensures NoneOversize(Reattempted(records, false))
  {
    forall r | r in Reattempted(records, false) ensures !Oversize(r) {
      ReattemptedFrom(records, false, r);
    }
  }

  lemma {:induction false} ReattemptedFrom(records: seq<Record>, exhausted: bool, r: Record)
    ensures r in Reattempted(records, exhausted)
            <==> r.attempts > 0 && r.(attempts := r.attempts - 1) in records
                 && (r.attempts >= MAX_DELIVERY_ATTEMPTS) == exhausted
  {
    if records != [] {
      var n := |records| - 1;
      ReattemptedFrom(records[..n], exhausted, r);
      assert records == records[..n] + [records[n]];
    }
  }

  // ----- Eviction policy -------------------------------------------------------------------------

  lemma {:induction false} OfPriorityMembers(q: seq<Record>, p: Priority)
    ensures forall r :: r in OfPriority(q, p) <==> r in q && r.priority == p
  {
    if q != [] {
      OfPriorityMembers(q[1..], p);
      assert q == [q[0]] + q[1..];
    }
  }

  lemma {:induction false} OfPriorityAppend(a: seq<Record>, b: seq<Record>, p: Priority)
    ensures OfPriority(a + b, p) == OfPriority(a, p) + OfPriority(b, p)
  {
    if a == [] {
      assert a + b == b;
    } else {
      assert (a + b)[0] == a[0] && (a + b)[1..] == a[1..] + b;
      OfPriorityAppend(a[1..], b, p);
      Associate(if a[0].priority == p then [a[0]] else [], OfPriority(a[1..], p), OfPriority(b, p));
    }
  }

  /**
   * Batch records go first and oldest first. An urgent record goes only for an urgent arrival and only
   * once no batch record is left, and nothing goes that did not have to.
   */
  lemma EnqueueEvictsInOrder(q: seq<Record>, r: Record)
    ensures var e := EnqueueSpec(q, r); var k := |e.evicted|;
            && k <= |q| && e.evicted <= EvictionOrder(q)
            && (forall d :: d in e.evicted && d.priority == Immediate ==>
                  r.priority == Immediate && forall x :: x in OfPriority(q, Batch) ==> x in e.evicted)
            && (forall j :: 0 <= j < k ==> !HasRoom(Evicted(q, j), r.event.bytes))
            && e.queue == Evicted(q, k) + if e.verdict == Accepted then [r] else []
  {
    LengthsAddUp(q);
    var e := EnqueueSpec(q, r);
    forall d | d in e.evicted && d.priority == Immediate
      ensures r.priority == Immediate && forall x :: x in OfPriority(q, Batch) ==> x in e.evicted
    {
      UrgentsGoLast(q, |e.evicted|, d);
    }
  }

  lemma UrgentsGoLast(q: seq<Record>, k: nat, d: Record)
    requires k <= |EvictionOrder(q)| && d in EvictionOrder(q)[..k] && d.priority == Immediate
    ensures k > |OfPriority(q, Batch)|
    ensures forall x :: x in OfPriority(q, Batch) ==> x in EvictionOrder(q)[..k]
  {
    var b := OfPriority(q, Batch);
    OfPriorityMembers(q, Batch);
    var order := EvictionOrder(q);
    assert forall j :: 0 <= j < |b| ==> order[j] == b[j] && b[j] in b;
    var i :| 0 <= i < k && order[i] == d;
    assert order[..k][..|b|] == b;
  }

  /**
   * Exactly when an arrival is refused: a batch record that would not fit beside the urgent ones alone
   * (and then every batch record has gone for nothing), or an urgent record bigger than the whole queue
   * (and then everything has gone and the call throws).
   */
  lemma EnqueueRefusals(q: seq<Record>, r: Record)
    ensures var e := EnqueueSpec(q, r); var urgent := OfPriority(q, Immediate);
            && (e.verdict == Rejected <==> r.priority == Batch && !HasRoom(urgent, r.event.bytes))
            && (e.verdict == Rejected ==> e.queue == urgent && e.evicted == OfPriority(q, Batch))
            && (e.verdict == Threw <==> r.priority == Immediate && Oversize(r))
            && (e.verdict == Threw ==> e.queue == [] && e.evicted == EvictionOrder(q))
  {
    if r.priority == Batch { BatchRefusals(q, r); } else { UrgentRefusals(q, r); }
  }

  lemma BatchRefusals(q: seq<Record>, r: Record)
    requires r.priority == Batch
    ensures var e := EnqueueSpec(q, r); var urgent := OfPriority(q, Immediate);
            && (e.verdict == Rejected <==> !HasRoom(urgent, r.event.bytes)) && e.verdict != Threw
            && (e.verdict == Rejected ==> e.queue == urgent && e.evicted == OfPriority(q, Batch))
  {
    LengthsAddUp(q);
    DropAllBatches(q);
    var k := EvictionsNeeded(q, r.event.bytes, |OfPriority(q, Batch)|, 0);
    if HasRoom(Evicted(q, k), r.event.bytes) { DropBatchesKeepsUrgents(q, k); }
  }

  lemma UrgentRefusals(q: seq<Record>, r: Record)
    requires r.priority == Immediate
    ensures var e := EnqueueSpec(q, r);
            && (e.verdict == Threw <==> Oversize(r)) && e.verdict != Rejected
            && (e.verdict == Threw ==> e.queue == [] && e.evicted == EvictionOrder(q))
  {
    LengthsAddUp(q);
    EvictedAll(q);
  }

  lemma {:induction false} DropBatchesKeepsUrgents(q: seq<Record>, k: nat)
    requires k <= |OfPriority(q, Batch)|
    ensures |DropBatches(q, k)| >= |OfPriority(q, Immediate)|
    ensures Bytes(DropBatches(q, k)) >= Bytes(OfPriority(q, Immediate))
  {
    if q != [] {
      if q[0].priority == Batch {
        assert OfPriority(q, Immediate) == OfPriority(q[1..], Immediate);
        DropBatchesKeepsUrgents(q[1..], if k > 0 then k - 1 else 0);
      } else {
        DropBatchesKeepsUrgents(q[1..], k);
        assert OfPriority(q, Immediate)[1..] == OfPriority(q[1..], Immediate);
        var rest := DropBatches(q[1..], k);
        if k > 0 { assert ([q[0]] + rest)[1..] == rest; }
      }
    }
  }

  // ----- Capacity over every run -----------------------------------------------------------------

  predicate WithinCapacity(q: seq<Record>) {
    |q| <= MAX_QUEUED_EVENTS && Bytes(q) <= MAX_QUEUED_BYTES
  }

  datatype Operation =
    | EnqueueOp(record: Record)
    | RestoreOp(records: seq<Record>)
    | RetryOp(records: seq<Record>)
    | DrainOp(limit: nat, maximumBytes: nat, priority: Option<Priority>, now: nat)

  function Apply(q: seq<Record>, op: Operation): seq<Record> {
    match op
    case EnqueueOp(r) => EnqueueSpec(q, r).queue
    case RestoreOp(records) => RestoreSpec(q, records).queue
    case RetryOp(records) => RetrySpec(q, records).queue
    case DrainOp(limit, maximumBytes, priority, now) => DrainSpec(q, limit, maximumBytes, priority, now).queue
  }

  function Run(ops: seq<Operation>): seq<Record> {
    if ops == [] then [] else Apply(Run(ops[..|ops| - 1]), ops[|ops| - 1])
  }

  lemma EvictedShrinks(q: seq<Record>, k: nat)
    requires k <= |q|
    ensures |Evicted(q, k)| == |q| - k
    ensures Bytes(Evicted(q, k)) <= Bytes(q)
  {
    EvictedConserves(q, k);
    var gone := EvictionOrder(q)[..k];
    assert multiset(Evicted(q, k) + gone) == multiset(q);
    BytesPermuted(Evicted(q, k) + gone, q);
    BytesAppend(Evicted(q, k), gone);
    assert |multiset(Evicted(q, k) + gone)| == |Evicted(q, k)| + k;
  }

  lemma {:induction false} BytesPermuted(a: seq<Record>, b: seq<Record>)
    requires multiset(a) == multiset(b)
    ensures Bytes(a) == Bytes(b) && |a| == |b|
  {
    assert |multiset(a)| == |a| && |multiset(b)| == |b|;
    if a != [] {
      assert a[0] in multiset(b);
      var i :| 0 <= i < |b| && b[i] == a[0];
      BothWithout(a, b, i);
      BytesPermuted(a[1..], b[..i] + b[i + 1..]);
      BytesWithout(b, i);
    }
  }

  lemma EnqueueWithinCapacity(q: seq<Record>, r: Record)
    requires WithinCapacity(q)
    ensures WithinCapacity(EnqueueSpec(q, r).queue)
  {
    var k := EvictionsNeeded(q, r.event.bytes, Evictable(q, r.priority), 0);
    EvictedShrinks(q, k);
    BytesAppend(Evicted(q, k), [r]);
  }

  lemma {:induction false} RestoreWithinCapacity(q: seq<Record>, records: seq<Record>)
    requires WithinCapacity(q)
    ensures WithinCapacity(RestoreSpec(q, records).queue)
  {
    if records != [] {
      var front := records[..|records| - 1];
      RestoreWithinCapacity(q, front);
      EnqueueWithinCapacity(RestoreSpec(q, front).queue, records[|records| - 1]);
    }
  }

  lemma {:induction false} PrependWithinCapacity(q: seq<Record>, records: seq<Record>)
    requires WithinCapacity(q)
    ensures WithinCapacity(PrependSpec(q, records).queue)
  {
    if records != [] {
      PrependWithinCapacity(q, records[1..]);
      var rest := PrependSpec(q, records[1..]).queue;
      var k := EvictionsNeeded(rest, records[0].event.bytes, |rest|, 0);
      EvictedShrinks(rest, k);
      BytesAppend([records[0]], Evicted(rest, k));
    }
  }

  /** Whatever is called in whatever order, the queue never exceeds 500 records or 4 MiB. */
  lemma {:induction false} RunWithinCapacity(ops: seq<Operation>)
    ensures WithinCapacity(Run(ops))
  {
    if ops != [] {
      RunWithinCapacity(ops[..|ops| - 1]);
      ApplyWithinCapacity(Run(ops[..|ops| - 1]), ops[|ops| - 1]);
    }
  }

  lemma ApplyWithinCapacity(q: seq<Record>, op: Operation)
    requires WithinCapacity(q)
    ensures WithinCapacity(Apply(q, op))
  {
    match op
    case EnqueueOp(r) => EnqueueWithinCapacity(q, r);
    case RestoreOp(records) => RestoreWithinCapacity(q, records);
    case RetryOp(records) => PrependWithinCapacity(q, Reattempted(records, false));
    case DrainOp(limit, maximumBytes, priority, now) => PickBytes(q, Chosen(q, limit, maximumBytes, priority, now));
  }

  /** Records that all fit are restored onto an empty queue in full and in order. */
  lemma {:induction false} RestoreOntoEmpty(records: seq<Record>)
    requires WithinCapacity(records) && DistinctIds(records)
    ensures RestoreSpec([], records) == RestoreOutcome(records, |records|, false)
  {
    if records != [] {
      var front := records[..|records| - 1];
      var r := records[|records| - 1];
      assert records == front + [r];
      BytesAppend(front, [r]);
      RestoreOntoEmpty(front);
      EnqueueWithRoom(front, r);
    }
  }

  // ----- Restoring onto a queue in use -------------------------------------------------------------

  lemma {:induction false} UrgentOrder(u: seq<Record>)
    requires forall r :: r in u ==> r.priority == Immediate
    ensures OfPriority(u, Batch) == [] && OfPriority(u, Immediate) == u
  {
    if u != [] {
      assert u[0] in u;
      UrgentOrder(u[1..]);
    }
  }

  lemma {:induction false} DropBatchesInFront(f: seq<Record>, u: seq<Record>, k: nat)
    requires k <= |OfPriority(f, Batch)|
    ensures DropBatches(f + u, k) == DropBatches(f, k) + u
  {
    if f != [] && k > 0 {
      assert (f + u)[0] == f[0] && (f + u)[1..] == f[1..] + u;
      if f[0].priority == Batch {
        DropBatchesInFront(f[1..], u, k - 1);
      } else {
        assert OfPriority(f, Batch) == OfPriority(f[1..], Batch);
        DropBatchesInFront(f[1..], u, k);
      }
    } else if f == [] {
      assert f + u == u;
    }
  }

  /** Urgent records at the end go last: as many evictions as there are records before them leave them alone. */
  lemma EvictedInFront(f: seq<Record>, u: seq<Record>, k: nat)
    requires k <= |f| && forall r :: r in u ==> r.priority == Immediate
    ensures Evicted(f + u, k) == Evicted(f, k) + u
  {
    LengthsAddUp(f);
    LengthsAddUp(f + u);
    UrgentOrder(u);
    OfPriorityAppend(f, u, Batch);
    OfPriorityAppend(f, u, Immediate);
    if k <= |OfPriority(f, Batch)| { DropBatchesInFront(f, u, k); }
  }

  /** What is left after one more eviction. */
  function OneLess(q: seq<Record>): seq<Record>
    requires q != []
  {
    Without(q, if FirstBatch(q) >= 0 then FirstBatch(q) else 0)
  }

  lemma EvictedNext(q: seq<Record>, k: nat)
    requires k < |q|
    ensures Evicted(q, k) != [] && Evicted(q, k + 1) == OneLess(Evicted(q, k))
  {
    EvictionStep(q, k);
  }

  lemma EvictedNone(q: seq<Record>)
    ensures Evicted(q, 0) == q
  {
    LengthsAddUp(q);
  }

  /** Evicting in two goes is evicting in one. */
  lemma {:induction false} EvictedAgain(q: seq<Record>, a: nat, b: nat)
    requires a + b <= |q| && |Evicted(q, a)| == |q| - a
    ensures Evicted(Evicted(q, a), b) == Evicted(q, a + b)
  {
    if b == 0 {
      EvictedNone(Evicted(q, a));
    } else {
      EvictedAgain(q, a, b - 1);
      BothEvictNext(q, Evicted(q, a), a + b - 1, b - 1);
    }
  }

  lemma BothEvictNext(q: seq<Record>, r: seq<Record>, m: nat, n: nat)
    requires m < |q| && n < |r| && Evicted(q, m) == Evicted(r, n)
    ensures Evicted(q, m + 1) == Evicted(r, n + 1)
  {
    EvictedNext(q, m);
    EvictedNext(r, n);
  }

  /** With `k` records evicted from `f` there is room behind `u`, and with fewer there is not. */
  ghost predicate LeastForRoom(f: seq<Record>, u: seq<Record>, bytes: nat, k: nat) {
    && k <= |f| && HasRoom(Evicted(f, k) + u, bytes)
    && forall j :: 0 <= j < k ==> !HasRoom(Evicted(f, j) + u, bytes)
  }

  /** An urgent arrival that fits beside the urgent records at the end pushes out none of them, and as little as it can. */
  lemma EnqueueBehindUrgents(f: seq<Record>, u: seq<Record>, r: Record) returns (k: nat)
    requires r.priority == Immediate && WithinCapacity(u + [r]) && forall x :: x in u ==> x.priority == Immediate
    ensures LeastForRoom(f, u, r.event.bytes, k)
    ensures EnqueueSpec(f + u, r).queue == Evicted(f, k) + (u + [r]) && EnqueueSpec(f + u, r).verdict == Accepted
  {
    k := EvictionsNeeded(f + u, r.event.bytes, |f + u|, 0);
    BytesAppend(u, [r]);
    RoomInFront(f, u, r.event.bytes);
    EvictedInFront(f, u, k);
    forall j | 0 <= j < k ensures !HasRoom(Evicted(f, j) + u, r.event.bytes) {
      EvictedInFront(f, u, j);
    }
    LengthsAddUp(f + u);
    Associate(Evicted(f, k), u, [r]);
  }

  /** Evicting what stands before `u` makes room for anything that fits beside `u`. */
  lemma RoomInFront(f: seq<Record>, u: seq<Record>, bytes: nat)
    requires HasRoom(u, bytes) && forall x :: x in u ==> x.priority == Immediate
    ensures var k := EvictionsNeeded(f + u, bytes, |f + u|, 0); k <= |f| && HasRoom(Evicted(f + u, k), bytes)
  {
    EvictedInFront(f, u, |f|);
    EvictedAll(f);
    assert Evicted(f + u, |f|) == u;
  }

  lemma EvictedMembers(q: seq<Record>, k: nat)
    requires k <= |q|
    ensures forall x :: x in Evicted(q, k) ==> x in q
  {
    EvictedConserves(q, k);
    assert forall x :: x in Evicted(q, k) ==> x in multiset(Evicted(q, k)) && x in multiset(q);
  }

  lemma {:induction false} PrependMembers(q: seq<Record>, records: seq<Record>)
    ensures forall x :: x in PrependSpec(q, records).queue ==> x in q || x in records
  {
    if records != [] {
      PrependMembers(q, records[1..]);
      var rest := PrependSpec(q, records[1..]).queue;
      EvictedMembers(rest, EvictionsNeeded(rest, records[0].event.bytes, |rest|, 0));
    }
  }

  /** With `k` records evicted from `q`, the restored ones fit behind the rest, and with fewer they do not. */
  ghost predicate LeastForRestore(q: seq<Record>, records: seq<Record>, k: nat) {
    && k <= |q| && WithinCapacity(Evicted(q, k) + records)
    && forall j :: 0 <= j < k ==> !WithinCapacity(Evicted(q, j) + records)
  }

  /** One more record is restored behind what `k` evictions have left. */
  lemma RestoreOneMoreEvicts(q: seq<Record>, u: seq<Record>, r: Record, k: nat, more: nat)
    requires LeastForRestore(q, u, k) && LeastForRoom(Evicted(q, k), u, r.event.bytes, more)
    ensures k + more <= |q| && LeastForRestore(q, u + [r], k + more)
    ensures Evicted(Evicted(q, k), more) == Evicted(q, k + more)
  {
    EvictedShrinks(q, k);
    EvictedAgain(q, k, more);
    RoomIsCapacity(Evicted(q, k + more), u, r);
    forall j | 0 <= j < k + more ensures !WithinCapacity(Evicted(q, j) + (u + [r])) {
      RoomIsCapacity(Evicted(q, j), u, r);
      if j >= k { EvictedAgain(q, k, j - k); }
    }
  }

  lemma RoomIsCapacity(f: seq<Record>, u: seq<Record>, r: Record)
    ensures HasRoom(f + u, r.event.bytes) <==> WithinCapacity(f + (u + [r]))
    ensures WithinCapacity(f + (u + [r])) ==> WithinCapacity(f + u)
  {
    Associate(f, u, [r]);
    BytesAppend(f + u, [r]);
  }

  /**
   * Distinct urgent records that fit, none of them queued yet, are restored in full and in order, behind the rest
   * of the queue; of that the fewest go that make room, in eviction order.
   */
  lemma {:induction false} RestoreOntoAny(q: seq<Record>, records: seq<Record>) returns (k: nat)
    requires WithinCapacity(q) && WithinCapacity(records) && DistinctIds(records)
    requires forall r :: r in records ==> r.priority == Immediate && r.event.id !in Ids(q)
    ensures LeastForRestore(q, records, k)
    ensures RestoreSpec(q, records) == RestoreOutcome(Evicted(q, k) + records, |records|, false)
  {
    if records == [] {
      k := 0;
      EvictedNone(q);
      assert q + [] == q;
    } else {
      var u, r := records[..|records| - 1], records[|records| - 1];
      FrontAndLast(records);
      BytesAppend(u, [r]);
      assert r in records && forall x :: x in u ==> x in records && x.event.id != r.event.id;
      var before := RestoreOntoAny(q, u);
      k := RestoreLast(q, u, r, before);
    }
  }

  lemma RestoreLast(q: seq<Record>, u: seq<Record>, r: Record, before: nat) returns (k: nat)
    requires LeastForRestore(q, u, before) && WithinCapacity(u + [r])
    requires RestoreSpec(q, u) == RestoreOutcome(Evicted(q, before) + u, |u|, false)
    requires r.priority == Immediate && forall x :: x in u ==> x.priority == Immediate && x.event.id != r.event.id
    requires r.event.id !in Ids(q)
    ensures LeastForRestore(q, u + [r], k)
    ensures RestoreSpec(q, u + [r]) == RestoreOutcome(Evicted(q, k) + (u + [r]), |u| + 1, false)
  {
    NotQueuedYet(q, u, r, before);
    var more := RestoreBehind(q, u, r, Evicted(q, before));
    RestoreOneMoreEvicts(q, u, r, before, more);
    k := before + more;
  }

  lemma RestoreBehind(q: seq<Record>, u: seq<Record>, r: Record, f: seq<Record>) returns (more: nat)
    requires RestoreSpec(q, u) == RestoreOutcome(f + u, |u|, false) && r.event.id !in Ids(f + u)
    requires r.priority == Immediate && WithinCapacity(u + [r]) && forall x :: x in u ==> x.priority == Immediate
    ensures LeastForRoom(f, u, r.event.bytes, more)
    ensures RestoreSpec(q, u + [r]) == RestoreOutcome(Evicted(f, more) + (u + [r]), |u| + 1, false)
  {
    more := EnqueueBehindUrgents(f, u, r);
    RestoreNext(q, u, r);
  }

  lemma NotQueuedYet(q: seq<Record>, u: seq<Record>, r: Record, k: nat)
    requires k <= |q| && r.event.id !in Ids(q) && forall x :: x in u ==> x.event.id != r.event.id
    ensures r.event.id !in Ids(Evicted(q, k) + u)
  {
    EvictedMembers(q, k);
    assert forall x :: x in Evicted(q, k) + u ==> x in Evicted(q, k) || x in u;
  }

  /** What restoring one more record does. */
  lemma RestoreNext(q: seq<Record>, u: seq<Record>, r: Record)
    ensures var before := RestoreSpec(q, u); var e := EnqueueSpec(before.queue, r);
            RestoreSpec(q, u + [r])
            == if before.threw || r.event.id in Ids(before.queue) then before
               else RestoreOutcome(e.queue, before.restored + (if e.verdict == Accepted then 1 else 0), e.verdict == Threw)
  {
    assert (u + [r])[..|u + [r]| - 1] == u;
  }

  /** So a restore evicts nothing exactly when everything fits together. */
  lemma RestoreEvictsNothing(q: seq<Record>, records: seq<Record>)
    requires WithinCapacity(q) && WithinCapacity(records) && DistinctIds(records)
    requires forall r :: r in records ==> r.priority == Immediate && r.event.id !in Ids(q)
    ensures RestoreSpec(q, records).queue == q + records <==> WithinCapacity(q + records)
  {
    var k := RestoreOntoAny(q, records);
    EvictedShrinks(q, k);
    EvictedNone(q);
    assert k > 0 ==> !WithinCapacity(Evicted(q, 0) + records);
  }

  lemma EnqueueWithRoom(q: seq<Record>, r: Record)
    requires HasRoom(q, r.event.bytes)
    ensures EnqueueSpec(q, r) == EnqueueOutcome(q + [r], [], Accepted)
  {
    LengthsAddUp(q);
  }
}
