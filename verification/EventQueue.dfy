/**
 * The bounded two-priority event queue. The functions on sequences say what each operation means;
 * the class keeps the entries and the byte counter and is proved to do exactly that.
 */
module EventQueues {
  import opened Events

  const MAX_QUEUED_EVENTS: nat := 500
  const MAX_QUEUED_BYTES: nat := 4 * 1024 * 1024
  const MAX_CONTEXT_EVENTS: nat := 8
  const CONTEXT_WINDOW_MS: int := 10000

  // ----- Eviction ------------------------------------------------------------------------------

  function OfPriority(q: seq<Record>, p: Priority): seq<Record> {
    if q == [] then []
    else (if q[0].priority == p then [q[0]] else []) + OfPriority(q[1..], p)
  }

  /** The order in which capacity pressure removes records: batch first, oldest first. */
  function EvictionOrder(q: seq<Record>): seq<Record> {
    OfPriority(q, Batch) + OfPriority(q, Immediate)
  }

  /** `q` without its `k` oldest batch records. */
  function DropBatches(q: seq<Record>, k: nat): seq<Record> {
    if q == [] || k == 0 then q
    else if q[0].priority == Batch then DropBatches(q[1..], k - 1)
    else [q[0]] + DropBatches(q[1..], k)
  }

  /** `q` after the first `k` records of its eviction order have gone. */
  function Evicted(q: seq<Record>, k: nat): seq<Record>
    requires k <= |q|
  {
    var batches := |OfPriority(q, Batch)|;
    LengthsAddUp(q);
    if k <= batches then DropBatches(q, k) else OfPriority(q, Immediate)[k - batches..]
  }

  predicate HasRoom(q: seq<Record>, bytes: nat) {
    |q| < MAX_QUEUED_EVENTS && Bytes(q) + bytes <= MAX_QUEUED_BYTES
  }

  /** The least number of evictions, at least `k` and at most `most`, that makes room (or `most`). */
  function EvictionsNeeded(q: seq<Record>, bytes: nat, most: nat, k: nat): (n: nat)
    requires k <= most <= |q|
    ensures k <= n <= most
    ensures forall j :: k <= j < n ==> !HasRoom(Evicted(q, j), bytes)
    ensures n < most ==> HasRoom(Evicted(q, n), bytes)
    decreases most - k
  {
    if k == most || HasRoom(Evicted(q, k), bytes) then k else EvictionsNeeded(q, bytes, most, k + 1)
  }

  /** How many records an arrival of priority `p` may push out. */
  function Evictable(q: seq<Record>, p: Priority): (n: nat)
    ensures n <= |q|
  {
    LengthsAddUp(q);
    if p == Immediate then |q| else |OfPriority(q, Batch)|
  }

  datatype Verdict = Accepted | Rejected | Threw
  datatype EnqueueOutcome = EnqueueOutcome(queue: seq<Record>, evicted: seq<Record>, verdict: Verdict)

  /** Evict as little as possible, in eviction order, and append if that made room. */
  function EnqueueSpec(q: seq<Record>, r: Record): EnqueueOutcome {
    var k := EvictionsNeeded(q, r.event.bytes, Evictable(q, r.priority), 0);
    LengthsAddUp(q);
    var kept, gone := Evicted(q, k), EvictionOrder(q)[..k];
    if HasRoom(kept, r.event.bytes) then EnqueueOutcome(kept + [r], gone, Accepted)
    else EnqueueOutcome(kept, gone, if r.priority == Immediate then Threw else Rejected)
  }

  datatype RestoreOutcome = RestoreOutcome(queue: seq<Record>, restored: nat, threw: bool)

  /** Enqueue in turn every record whose id is not queued yet, stopping at an exception. */
  function RestoreSpec(q: seq<Record>, records: seq<Record>): RestoreOutcome {
    if records == [] then RestoreOutcome(q, 0, false)
    else
      var before := RestoreSpec(q, records[..|records| - 1]);
      var r := records[|records| - 1];
      if before.threw || r.event.id in Ids(before.queue) then before
      else
        var e := EnqueueSpec(before.queue, r);
        RestoreOutcome(e.queue, before.restored + (if e.verdict == Accepted then 1 else 0), e.verdict == Threw)
  }

  datatype PrependOutcome = PrependOutcome(queue: seq<Record>, dropped: seq<Record>)

  /** Put one record at the front, evicting any record at all if that is what room takes. */
  function PushFrontSpec(q: seq<Record>, r: Record): PrependOutcome {
    var k := EvictionsNeeded(q, r.event.bytes, |q|, 0);
    LengthsAddUp(q);
    var kept, gone := Evicted(q, k), EvictionOrder(q)[..k];
    if HasRoom(kept, r.event.bytes) then PrependOutcome([r] + kept, gone)
    else PrependOutcome(kept, gone + [r, r])  // an oversize record is counted by both exits
  }

  /** Records go in last to first, so a prepended list keeps its own order. */
  function PrependSpec(q: seq<Record>, records: seq<Record>): PrependOutcome
    decreases |records|
  {
    if records == [] then PrependOutcome(q, [])
    else
      var last := PrependSpec(q, records[1..]);
      var first := PushFrontSpec(last.queue, records[0]);
      PrependOutcome(first.queue, last.dropped + first.dropped)
  }

  function NextAttempt(r: Record): Record { r.(attempts := r.attempts + 1) }

  /** The records, one attempt later, that still have attempts left (or, `exhausted`, that have none). */
  function Reattempted(records: seq<Record>, exhausted: bool): seq<Record> {
    if records == [] then []
    else
      var n := |records| - 1;
      var next := NextAttempt(records[n]);
      Reattempted(records[..n], exhausted)
      + (if (next.attempts >= MAX_DELIVERY_ATTEMPTS) == exhausted then [next] else [])
  }

  datatype RetryOutcome = RetryOutcome(queue: seq<Record>, retried: seq<Record>, dropped: seq<Record>)

  function RetrySpec(q: seq<Record>, records: seq<Record>): RetryOutcome {
    var retried := Reattempted(records, false);
    var p := PrependSpec(q, retried);
    RetryOutcome(p.queue, retried, Reattempted(records, true) + p.dropped)
  }

  lemma {:induction false} LengthsAddUp(q: seq<Record>)
    ensures |OfPriority(q, Batch)| + |OfPriority(q, Immediate)| == |q|
  {
    if q != [] { LengthsAddUp(q[1..]); }
  }

  // ----- Choosing what to send -------------------------------------------------------------------

  /** `b` is a batch record of the same session and page, at most ten seconds older than `u`. */
  predicate Relates(b: Record, u: Record) {
    && b.priority == Batch
    && u.event.session.Some? && u.event.page.Some?
    && b.event.session == u.event.session && b.event.page == u.event.page
    && b.event.timestamp <= u.event.timestamp
    && u.event.timestamp - b.event.timestamp <= CONTEXT_WINDOW_MS
  }

  /** How many records at positions `i..j` relate to the one at `j`. */
  function RelatedIn(q: seq<Record>, i: nat, j: nat): (n: nat)
    requires i <= j < |q|
    ensures n <= j - i
    decreases j - i
  {
    if i == j then 0 else (if Relates(q[i], q[j]) then 1 else 0) + RelatedIn(q, i + 1, j)
  }

  /** Position `i` is context of the urgent record at `j`: related, with fewer than eight in between. */
  predicate ContextOf(q: seq<Record>, i: nat, j: nat) {
    && i < j < |q|
    && q[j].priority == Immediate
    && Relates(q[i], q[j])
    && RelatedIn(q, i + 1, j) < MAX_CONTEXT_EVENTS
  }

  predicate IsUrgent(q: seq<Record>, i: nat) { i < |q| && q[i].priority == Immediate }

  predicate IsContext(q: seq<Record>, i: nat) { exists j :: i < j < |q| && ContextOf(q, i, j) }

  /** The urgent positions below `n`, ascending. */
  function UrgentBelow(q: seq<Record>, n: nat): seq<nat> {
    if n == 0 then [] else UrgentBelow(q, n - 1) + (if IsUrgent(q, n - 1) then [n - 1] else [])
  }

  /** The context positions below `n`, ascending. */
  function ContextBelow(q: seq<Record>, n: nat): seq<nat> {
    if n == 0 then [] else ContextBelow(q, n - 1) + (if IsContext(q, n - 1) then [n - 1] else [])
  }

  /** Every urgent position in queue order, then every context position in queue order. */
  function UrgentSelection(q: seq<Record>): seq<nat> {
    UrgentBelow(q, |q|) + ContextBelow(q, |q|)
  }

  function AllBelow(n: nat): seq<nat> { seq(n, i => i) }

  function Candidates(q: seq<Record>, priority: Option<Priority>): seq<nat> {
    if priority == Some(Immediate) then UrgentSelection(q) else AllBelow(|q|)
  }

  function Digits(n: nat): nat {
    if n < 10 then 1 else 1 + Digits(n / 10)
  }

  /** Length of the JSON text `{"version":1,"sentAt":<now>,"items":[]}`. */
  function HeaderBytes(now: nat): nat { 34 + Digits(now) }

  /** Length of `{"type":"event","payload":}` around each event. */
  const ITEM_BYTES: nat := 27

  /** The serialised size of an envelope: header, wrapped events, and commas between them. */
  function EnvelopeBytes(now: nat, items: seq<Record>): nat {
    HeaderBytes(now) + Bytes(items) + ITEM_BYTES * |items| + (if items == [] then 0 else |items| - 1)
  }

  predicate InRange(indices: seq<nat>, n: nat) {
    forall k :: 0 <= k < |indices| ==> indices[k] < n
  }

  function At(q: seq<Record>, indices: seq<nat>): seq<Record>
    requires InRange(indices, |q|)
  {
    seq(|indices|, k requires 0 <= k < |indices| => q[indices[k]])
  }

  /** Greedy packing: take a candidate whenever count and envelope size still allow it. */
  function Pack(q: seq<Record>, candidates: seq<nat>, limit: nat, maximumBytes: nat, now: nat): (taken: seq<nat>)
    requires InRange(candidates, |q|)
    ensures InRange(taken, |q|)
  {
    if candidates == [] then []
    else
      var n := |candidates| - 1;
      var taken := Pack(q, candidates[..n], limit, maximumBytes, now);
      if |taken| < limit && EnvelopeBytes(now, At(q, taken + [candidates[n]])) <= maximumBytes
      then taken + [candidates[n]] else taken
  }

  /** The records of `q` whose position is (or, with `wanted` false, is not) in `chosen`, in queue order. */
  function Pick(q: seq<Record>, chosen: seq<nat>, wanted: bool): seq<Record> {
    if q == [] then []
    else
      var n := |q| - 1;
      Pick(q[..n], chosen, wanted) + (if (n in chosen) == wanted then [q[n]] else [])
  }

  ghost predicate Ascending(s: seq<nat>) {
    forall a, b :: 0 <= a < b < |s| ==> s[a] < s[b]
  }

  lemma {:induction false} UrgentBelowMeaning(q: seq<Record>, n: nat)
    ensures forall i: nat :: i in UrgentBelow(q, n) <==> i < n && IsUrgent(q, i)
    ensures Ascending(UrgentBelow(q, n)) && InRange(UrgentBelow(q, n), n)
  {
    if n > 0 { UrgentBelowMeaning(q, n - 1); }
  }

  lemma {:induction false} ContextBelowMeaning(q: seq<Record>, n: nat)
    ensures forall i: nat :: i in ContextBelow(q, n) <==> i < n && IsContext(q, i)
    ensures Ascending(ContextBelow(q, n)) && InRange(ContextBelow(q, n), n)
  {
    if n > 0 { ContextBelowMeaning(q, n - 1); }
  }

  lemma CandidatesInRange(q: seq<Record>, priority: Option<Priority>)
    ensures InRange(Candidates(q, priority), |q|)
  {
    UrgentBelowMeaning(q, |q|);
    ContextBelowMeaning(q, |q|);
  }

  function Chosen(q: seq<Record>, limit: nat, maximumBytes: nat, priority: Option<Priority>, now: nat): seq<nat> {
    CandidatesInRange(q, priority);
    Pack(q, Candidates(q, priority), limit, maximumBytes, now)
  }

  datatype DrainOutcome = DrainOutcome(queue: seq<Record>, drained: seq<Record>)

  function DrainSpec(q: seq<Record>, limit: nat, maximumBytes: nat, priority: Option<Priority>, now: nat): DrainOutcome {
    var chosen := Chosen(q, limit, maximumBytes, priority, now);
    DrainOutcome(Pick(q, chosen, false), Pick(q, chosen, true))
  }

  // ----- One step of the eviction loop ---------------------------------------------------------

  /** The first position holding a batch record, or -1. */
  function FirstBatch(q: seq<Record>): (i: int)
    ensures -1 <= i < |q|
    ensures 0 <= i ==> q[i].priority == Batch
  {
    if q == [] then -1
    else if q[0].priority == Batch then 0
    else var i := FirstBatch(q[1..]); if i < 0 then -1 else i + 1
  }

  function Without(q: seq<Record>, i: nat): seq<Record>
    requires i < |q|
  {
    q[..i] + q[i + 1..]
  }

  lemma FirstBatchAfterUrgent(u: Record, rest: seq<Record>)
    requires u.priority == Immediate && FirstBatch(rest) >= 0
    ensures var i := FirstBatch([u] + rest); var j := FirstBatch(rest);
            i == j + 1 && ([u] + rest)[i] == rest[j] && Without([u] + rest, i) == [u] + Without(rest, j)
  {
    assert ([u] + rest)[1..] == rest;
  }

  lemma {:induction false} DropBatchStep(q: seq<Record>, k: nat)
    requires k < |OfPriority(q, Batch)|
    ensures var cur := DropBatches(q, k); var i := FirstBatch(cur);
            i >= 0 && cur[i] == OfPriority(q, Batch)[k] && Without(cur, i) == DropBatches(q, k + 1)
  {
    if q[0].priority == Batch {
      if k > 0 { DropBatchStep(q[1..], k - 1); }
    } else {
      DropBatchStep(q[1..], k);
      assert OfPriority(q, Batch) == OfPriority(q[1..], Batch);
      FirstBatchAfterUrgent(q[0], DropBatches(q[1..], k));
      assert DropBatches(q, k + 1) == [q[0]] + DropBatches(q[1..], k + 1);
    }
  }

  lemma {:induction false} DropAllBatches(q: seq<Record>)
    ensures DropBatches(q, |OfPriority(q, Batch)|) == OfPriority(q, Immediate)
    ensures FirstBatch(OfPriority(q, Immediate)) == -1
  {
    if q != [] {
      DropAllBatches(q[1..]);
      var u := OfPriority(q, Immediate);
      if q[0].priority == Immediate {
        assert u[1..] == OfPriority(q[1..], Immediate);
        if |OfPriority(q, Batch)| == 0 { assert q[1..] == OfPriority(q[1..], Immediate); }
      }
    }
  }

  lemma {:induction false} NoBatchInSuffix(u: seq<Record>, k: nat)
    requires FirstBatch(u) == -1 && k <= |u|
    ensures FirstBatch(u[k..]) == -1
  {
    if k > 0 {
      assert u[k..] == u[1..][k - 1..];
      NoBatchInSuffix(u[1..], k - 1);
    }
  }

  lemma DropHead(u: seq<Record>, k: nat)
    requires k < |u|
    ensures Without(u[k..], 0) == u[k + 1..]
  {
  }

  /** Removing the first batch record, or the head when there is none, is one more eviction. */
  lemma EvictionStep(q: seq<Record>, k: nat)
    requires k < |q|
    ensures var cur := Evicted(q, k); var i := FirstBatch(cur);
            && cur != []
            && (i >= 0 <==> k < |OfPriority(q, Batch)|)
            && k < |EvictionOrder(q)|
            && var at := if i >= 0 then i else 0;
               cur[at] == EvictionOrder(q)[k] && Without(cur, at) == Evicted(q, k + 1)
  {
    LengthsAddUp(q);
    DropAllBatches(q);
    var batches := |OfPriority(q, Batch)|;
    if k < batches {
      DropBatchStep(q, k);
    } else {
      NoBatchInSuffix(OfPriority(q, Immediate), k - batches);
      DropHead(OfPriority(q, Immediate), k - batches);
    }
  }

  /** The state of an eviction loop that started from `q`: `gone` is out, `cur` is left, no room until now. */
  ghost predicate Evicting(q: seq<Record>, cur: seq<Record>, gone: seq<Record>, size: nat) {
    && |gone| <= |q|
    && cur == Evicted(q, |gone|)
    && |EvictionOrder(q)| == |q|
    && gone == EvictionOrder(q)[..|gone|]
    && forall j :: 0 <= j < |gone| ==> !HasRoom(Evicted(q, j), size)
  }

  lemma EvictingStart(q: seq<Record>, size: nat)
    ensures Evicting(q, q, [], size)
  {
    LengthsAddUp(q);
  }

  lemma EvictingStep(q: seq<Record>, cur: seq<Record>, gone: seq<Record>, size: nat)
    requires Evicting(q, cur, gone, size) && !HasRoom(cur, size)
    ensures FirstBatch(cur) >= 0 <==> |gone| < |OfPriority(q, Batch)|
    ensures cur == [] <==> |gone| == |q|
    ensures cur != [] ==>
              var at := if FirstBatch(cur) >= 0 then FirstBatch(cur) else 0;
              Evicting(q, Without(cur, at), gone + [cur[at]], size)
  {
    LengthsAddUp(q);
    if |gone| < |q| {
      EvictionStep(q, |gone|);
      TakeOneMore(EvictionOrder(q), |gone|);
    } else {
      EvictedAll(q);
    }
  }

  lemma TakeOneMore<T>(s: seq<T>, k: nat)
    requires k < |s|
    ensures s[..k + 1] == s[..k] + [s[k]]
  {
  }

  lemma EvictedAll(q: seq<Record>)
    ensures Evicted(q, |q|) == []
  {
    LengthsAddUp(q);
    DropAllBatches(q);
  }

  /** An eviction loop that stops for room, or because nothing more may go, evicted the least it could. */
  lemma EvictingDone(q: seq<Record>, cur: seq<Record>, gone: seq<Record>, size: nat, most: nat)
    requires Evicting(q, cur, gone, size) && |gone| <= most <= |q|
    requires HasRoom(cur, size) || |gone| == most
    ensures EvictionsNeeded(q, size, most, 0) == |gone|
  {
  }

  lemma EnqueueDone(q: seq<Record>, r: Record, cur: seq<Record>, gone: seq<Record>)
    requires Evicting(q, cur, gone, r.event.bytes) && |gone| <= Evictable(q, r.priority)
    requires HasRoom(cur, r.event.bytes) || |gone| == Evictable(q, r.priority)
    ensures EnqueueSpec(q, r)
            == if HasRoom(cur, r.event.bytes) then EnqueueOutcome(cur + [r], gone, Accepted)
               else EnqueueOutcome(cur, gone, if r.priority == Immediate then Threw else Rejected)
  {
    EvictingDone(q, cur, gone, r.event.bytes, Evictable(q, r.priority));
  }

  // ----- The loops of the urgent selection -----------------------------------------------------

  lemma {:induction false} RelatedInGrowsDown(q: seq<Record>, i: nat, k: nat, j: nat)
    requires i <= k <= j < |q|
    ensures RelatedIn(q, i, j) >= RelatedIn(q, k, j)
    decreases k - i
  {
    if i < k { RelatedInGrowsDown(q, i + 1, k, j); }
  }

  lemma {:induction false} RestoreStops(q: seq<Record>, records: seq<Record>, i: nat)
    requires i <= |records| && RestoreSpec(q, records[..i]).threw
    ensures RestoreSpec(q, records) == RestoreSpec(q, records[..i])
    decreases |records|
  {
    if i < |records| {
      var front := records[..|records| - 1];
      assert front[..i] == records[..i];
      RestoreStops(q, front, i);
    } else {
      assert records[..i] == records;
    }
  }

  /** One more candidate. */
  lemma PackNext(q: seq<Record>, candidates: seq<nat>, c: nat, limit: nat, maximumBytes: nat, now: nat)
    requires InRange(candidates, |q|) && c < |candidates|
    ensures var taken := Pack(q, candidates[..c], limit, maximumBytes, now); var more := taken + [candidates[c]];
            && InRange(more, |q|) && At(q, more) == At(q, taken) + [q[candidates[c]]]
            && Pack(q, candidates[..c + 1], limit, maximumBytes, now)
               == if |taken| < limit && EnvelopeBytes(now, At(q, more)) <= maximumBytes then more else taken
  {
    assert candidates[..c + 1][..c] == candidates[..c];
  }

  /** Once `limit` candidates are taken the rest change nothing, so the loop may stop there. */
  lemma {:induction false} PackFull(q: seq<Record>, candidates: seq<nat>, c: nat, limit: nat, maximumBytes: nat, now: nat)
    requires InRange(candidates, |q|) && c <= |candidates|
    requires |Pack(q, candidates[..c], limit, maximumBytes, now)| >= limit
    ensures Pack(q, candidates, limit, maximumBytes, now) == Pack(q, candidates[..c], limit, maximumBytes, now)
    decreases |candidates|
  {
    if c < |candidates| {
      var front := candidates[..|candidates| - 1];
      assert front[..c] == candidates[..c];
      PackFull(q, front, c, limit, maximumBytes, now);
    } else {
      assert candidates[..c] == candidates;
    }
  }

  lemma {:induction false} PickBytes(q: seq<Record>, chosen: seq<nat>)
    ensures Bytes(q) == Bytes(Pick(q, chosen, true)) + Bytes(Pick(q, chosen, false))
    ensures |q| == |Pick(q, chosen, true)| + |Pick(q, chosen, false)|
  {
    if q != [] {
      var n := |q| - 1;
      PickBytes(q[..n], chosen);
      assert q == q[..n] + [q[n]];
      BytesAppend(q[..n], [q[n]]);
      var last := if n in chosen then [q[n]] else [];
      var other := if n in chosen then [] else [q[n]];
      BytesAppend(Pick(q[..n], chosen, true), last);
      BytesAppend(Pick(q[..n], chosen, false), other);
    }
  }

  // ----- The queue ---------------------------------------------------------------------------

  class EventQueue {
    var events: seq<Record>
    var bytes: int

    /** The counter is the sum of the entry sizes, and both capacity bounds hold. */
    ghost predicate Valid()
      reads this
    {
      && bytes == Bytes(events)
      && |events| <= MAX_QUEUED_EVENTS
      && bytes <= MAX_QUEUED_BYTES
    }

    constructor ()
      ensures Valid() && events == []
    {
      events, bytes := [], 0;
    }

    method RemoveAt(index: nat) returns (entry: Record)
      requires bytes == Bytes(events) && index < |events|
      modifies this
      ensures entry == old(events[index]) && events == Without(old(events), index)
      ensures bytes == Bytes(events) && bytes <= old(bytes)
    {
      entry := events[index];
      BytesWithout(events, index);
      events := events[..index] + events[index + 1..];
      bytes := bytes - entry.event.bytes;
    }

    method Enqueue(record: Record) returns (verdict: Verdict, dropped: nat, droppedRecords: seq<Record>)
      requires Valid()
      modifies this
      ensures Valid()
      ensures EnqueueOutcome(events, droppedRecords, verdict) == EnqueueSpec(old(events), record)
      ensures dropped == |droppedRecords| + if verdict == Rejected then 1 else 0
    {
      ghost var q := events;
      ghost var most := Evictable(q, record.priority);
      var size := record.event.bytes;
      dropped, droppedRecords := 0, [];
      EvictingStart(q, size);
      while |events| >= MAX_QUEUED_EVENTS || bytes + size > MAX_QUEUED_BYTES
        invariant Valid() && dropped == |droppedRecords| <= most
        invariant Evicting(q, events, droppedRecords, size)
        decreases most - dropped
      {
        EvictingStep(q, events, droppedRecords, size);
        var evictionIndex := FirstBatch(events);
        var index := if evictionIndex >= 0 then evictionIndex else if record.priority == Immediate then 0 else -1;
        if index < 0 {
          EnqueueDone(q, record, events, droppedRecords);
          return Rejected, dropped + 1, droppedRecords;
        }
        if index >= |events| {
          EnqueueDone(q, record, events, droppedRecords);
          return Threw, dropped, droppedRecords;  // nothing left to remove: the source throws here
        }
        var evicted := RemoveAt(index);
        droppedRecords := droppedRecords + [evicted];
        dropped := dropped + 1;
      }
      EnqueueDone(q, record, events, droppedRecords);
      BytesAppend(events, [record]);
      events := events + [record];
      bytes := bytes + size;
      verdict := Accepted;
    }

    method Restore(records: seq<Record>) returns (restored: nat, threw: bool)
      requires Valid()
      modifies this
      ensures Valid()
      ensures RestoreOutcome(events, restored, threw) == RestoreSpec(old(events), records)
    {
      ghost var q := events;
      restored, threw := 0, false;
      for i := 0 to |records|
        invariant Valid() && !threw
        invariant RestoreOutcome(events, restored, false) == RestoreSpec(q, records[..i])
      {
        var record := records[i];
        assert records[..i + 1][..i] == records[..i];
        if !(exists k :: 0 <= k < |events| && events[k].event.id == record.event.id) {
          assert record.event.id !in Ids(events);
          var verdict, _, _ := Enqueue(record);
          if verdict == Accepted {
            restored := restored + 1;
          } else if verdict == Threw {
            threw := true;
            RestoreStops(q, records, i + 1);
            return;
          }
        } else {
          var k :| 0 <= k < |events| && events[k].event.id == record.event.id;
          assert events[k] in events;
        }
      }
      assert records[..|records|] == records;
    }

    method SelectImmediate() returns (ordered: seq<nat>)
      requires Valid()
      ensures ordered == UrgentSelection(events)
    {
      var selected := SelectWithContext();
      ordered := [];
      for index := 0 to |events|
        invariant ordered == UrgentBelow(events, index)
      {
        if index in selected && events[index].priority == Immediate { ordered := ordered + [index]; }
      }
      ghost var urgent := ordered;
      for index := 0 to |events|
        invariant ordered == urgent + ContextBelow(events, index)
      {
        if index in selected && events[index].priority == Batch { ordered := ordered + [index]; }
      }
    }

    /** The set the selection loop builds: every urgent position and everything in context of one. */
    method SelectWithContext() returns (selected: set<nat>)
      ensures forall i: nat :: i in selected <==> IsUrgent(events, i) || IsContext(events, i)
    {
      var urgent := UrgentBelow(events, |events|);
      UrgentBelowMeaning(events, |events|);
      selected := set i | i in urgent;
      for u := 0 to |urgent|
        invariant forall i: nat :: i in selected <==>
            IsUrgent(events, i) || exists m :: 0 <= m < u && ContextOf(events, i, urgent[m])
      {
        var urgentIndex := urgent[u];
        assert urgentIndex in urgent;
        ghost var before := selected;
        var urgentEvent := events[urgentIndex].event;
        if urgentEvent.session.Some? && urgentEvent.page.Some? {
          selected := SelectContext(urgentIndex, selected);
        }
        assert forall i: nat :: i in selected <==> i in before || ContextOf(events, i, urgent[u]);
      }
      forall i: nat ensures i in selected <==> IsUrgent(events, i) || IsContext(events, i) {
        if IsContext(events, i) {
          var j :| i < j < |events| && ContextOf(events, i, j);
          assert j in urgent;
          var m :| 0 <= m < |urgent| && urgent[m] == j;
          assert ContextOf(events, i, urgent[m]);
        }
        if m :| 0 <= m < |urgent| && ContextOf(events, i, urgent[m]) {
          var j := urgent[m];
          assert i < j < |events| && ContextOf(events, i, j);
        }
      }
    }

    /** The backward scan from one urgent record. */
    method SelectContext(urgentIndex: nat, before: set<nat>) returns (selected: set<nat>)
      requires urgentIndex < |events| && events[urgentIndex].priority == Immediate
      ensures forall i: nat :: i in selected <==> i in before || ContextOf(events, i, urgentIndex)
    {
      selected := before;
      var contextCount := 0;
      var index: int := urgentIndex - 1;
      while index >= 0 && contextCount < MAX_CONTEXT_EVENTS
        invariant -1 <= index < urgentIndex
        invariant contextCount == RelatedIn(events, index + 1, urgentIndex) <= MAX_CONTEXT_EVENTS
        invariant forall i: nat :: i in selected <==> i in before || (i > index && ContextOf(events, i, urgentIndex))
      {
        if Relates(events[index], events[urgentIndex]) {
          selected := selected + {index};
          contextCount := contextCount + 1;
        }
        index := index - 1;
      }
      forall i: nat | i <= index ensures !ContextOf(events, i, urgentIndex) {
        RelatedInGrowsDown(events, i + 1, index + 1, urgentIndex);
      }
    }

    method Drain(limit: nat, maximumBytes: nat, priority: Option<Priority>, now: nat) returns (drained: seq<Record>)
      requires Valid()
      modifies this
      ensures Valid()
      ensures DrainOutcome(events, drained) == DrainSpec(old(events), limit, maximumBytes, priority, now)
    {
      var candidates: seq<nat>;
      if priority == Some(Immediate) {
        candidates := SelectImmediate();
      } else {
        candidates := AllBelow(|events|);
      }
      CandidatesInRange(events, priority);
      var indices := PackEnvelope(candidates, limit, maximumBytes, now);
      drained := Pick(events, indices, true);
      PickBytes(events, indices);
      events := Pick(events, indices, false);
      bytes := bytes - Bytes(drained);
    }

    /** The loop of `Drain`: add a candidate to the envelope and take it out again if that is too big. */
    method PackEnvelope(candidates: seq<nat>, limit: nat, maximumBytes: nat, now: nat) returns (indices: seq<nat>)
      requires InRange(candidates, |events|)
      ensures indices == Pack(events, candidates, limit, maximumBytes, now)
    {
      indices := [];
      var items: seq<Record> := [];
      for c := 0 to |candidates|
        invariant InRange(indices, |events|) && items == At(events, indices)
        invariant indices == Pack(events, candidates[..c], limit, maximumBytes, now)
      {
        if |indices| >= limit {
          PackFull(events, candidates, c, limit, maximumBytes, now);
          return;
        }
        PackNext(events, candidates, c, limit, maximumBytes, now);
        var index := candidates[c];
        items := items + [events[index]];
        if EnvelopeBytes(now, items) > maximumBytes {
          items := items[..|items| - 1];
          continue;
        }
        indices := indices + [index];
      }
      assert candidates[..|candidates|] == candidates;
    }

    method Prepend(records: seq<Record>) returns (dropped: nat, droppedRecords: seq<Record>)
      requires Valid()
      modifies this
      ensures Valid()
      ensures PrependOutcome(events, droppedRecords) == PrependSpec(old(events), records)
      ensures dropped == |droppedRecords|
    {
      ghost var start := events;
      dropped, droppedRecords := 0, [];
      var n := |records|;
      while n > 0
        invariant 0 <= n <= |records| && Valid()
        invariant PrependOutcome(events, droppedRecords) == PrependSpec(start, records[n..])
        invariant dropped == |droppedRecords|
      {
        n := n - 1;
        assert records[n..][1..] == records[n + 1..];
        var gone := PushFront(records[n]);
        dropped, droppedRecords := dropped + |gone|, droppedRecords + gone;
      }
    }

    /** The body of the loop of `Prepend`: make room by evicting anything, then unshift. */
    method PushFront(record: Record) returns (gone: seq<Record>)
      requires Valid()
      modifies this
      ensures Valid()
      ensures PrependOutcome(events, gone) == PushFrontSpec(old(events), record)
    {
      ghost var q := events;
      var size := record.event.bytes;
      gone := [];
      EvictingStart(q, size);
      while |events| >= MAX_QUEUED_EVENTS || bytes + size > MAX_QUEUED_BYTES
        invariant Valid() && Evicting(q, events, gone, size)
        decreases |q| - |gone|
      {
        EvictingStep(q, events, gone, size);
        if |events| == 0 {
          EvictingDone(q, events, gone, size, |q|);
          gone := gone + [record];
          break;
        }
        var evictionIndex := FirstBatch(events);
        var evicted := RemoveAt(if evictionIndex >= 0 then evictionIndex else 0);
        gone := gone + [evicted];
      }
      if size > MAX_QUEUED_BYTES {
        gone := gone + [record];
        return;
      }
      EvictingDone(q, events, gone, size, |q|);
      BytesAppend([record], events);
      events := [record] + events;
      bytes := bytes + size;
    }

    method Retry(records: seq<Record>) returns (retried: seq<Record>, dropped: nat, droppedRecords: seq<Record>)
      requires Valid()
      modifies this
      ensures Valid()
      ensures RetryOutcome(events, retried, droppedRecords) == RetrySpec(old(events), records)
      ensures dropped == |droppedRecords|
    {
      retried, dropped, droppedRecords := [], 0, [];
      for i := 0 to |records|
        invariant retried == Reattempted(records[..i], false)
        invariant droppedRecords == Reattempted(records[..i], true) && dropped == |droppedRecords|
        invariant events == old(events) && Valid()
      {
        assert records[..i + 1][..i] == records[..i];
        var attempts := records[i].attempts + 1;
        if attempts >= MAX_DELIVERY_ATTEMPTS {
          dropped := dropped + 1;
          droppedRecords := droppedRecords + [records[i].(attempts := attempts)];
        } else {
          retried := retried + [records[i].(attempts := attempts)];
        }
      }
      assert records[..|records|] == records;
      var more, moreRecords := Prepend(retried);
      dropped, droppedRecords := dropped + more, droppedRecords + moreRecords;
    }

    method Size() returns (size: nat)
      ensures size == |events|
    {
      size := |events|;
    }
  }
}
