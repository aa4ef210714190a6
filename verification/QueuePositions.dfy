/** Which records leave the queue and which stay, told by their positions. */
module QueuePositions {
  import opened Events
  import opened Lists
  import opened EventQueues
  import opened QueueDelivery

  // ----- Who goes first --------------------------------------------------------------------------

  /** Position `i` goes before position `j`: batch before urgent, and the older first. */
  predicate GoesBefore(q: seq<Record>, i: nat, j: nat)
    requires i < |q| && j < |q|
  {
    if q[i].priority == q[j].priority then i < j else q[i].priority == Batch
  }

  ghost predicate Rising(at: seq<nat>) { forall a, b :: 0 <= a < b < |at| ==> at[a] < at[b] }

  /**
   * The positions gone, in the order they went, and those kept, in queue order: each position is in one of the two,
   * and what went before what goes next, or stays, had to.
   */
  ghost predicate SplitAt(q: seq<Record>, gone: seq<nat>, kept: seq<nat>) {
    && (forall i: nat :: i < |q| <==> i in gone || i in kept)
    && Rising(kept)
    && (forall a, b :: 0 <= a < b < |gone| ==> gone[a] < |q| && gone[b] < |q| && GoesBefore(q, gone[a], gone[b]))
    && (forall a, b :: 0 <= a < |gone| && 0 <= b < |kept| ==> gone[a] < |q| && kept[b] < |q| && GoesBefore(q, gone[a], kept[b]))
  }

  function AllOf(n: nat): seq<nat> { seq(n, i => i) }

  lemma NothingGone(q: seq<Record>)
    ensures SplitAt(q, [], AllOf(|q|)) && InRange(AllOf(|q|), |q|) && At(q, AllOf(|q|)) == q
  {
    forall i: nat | i < |q| ensures i in AllOf(|q|) {
      assert AllOf(|q|)[i] == i;
    }
  }

  lemma {:induction false} FirstBatchMeaning(q: seq<Record>)
    ensures var f := FirstBatch(q); forall i :: 0 <= i < (if f < 0 then |q| else f) ==> q[i].priority == Immediate
  {
    if q != [] && q[0].priority != Batch {
      FirstBatchMeaning(q[1..]);
      var f := FirstBatch(q[1..]);
      assert forall i :: 0 < i < |q| ==> q[i] == q[1..][i - 1];
    }
  }

  /** One more goes: the first batch record kept, or the first one when none is. */
  lemma OneMoreGone(q: seq<Record>, gone: seq<nat>, kept: seq<nat>, f: nat)
    requires SplitAt(q, gone, kept) && InRange(kept, |q|) && f < |kept|
    requires forall b :: 0 <= b < f ==> q[kept[b]].priority == Immediate
    requires q[kept[f]].priority == Batch || (f == 0 && forall b :: 0 <= b < |kept| ==> q[kept[b]].priority == Immediate)
    ensures SplitAt(q, gone + [kept[f]], kept[..f] + kept[f + 1..])
  {
    var went, left := gone + [kept[f]], kept[..f] + kept[f + 1..];
    forall i: nat ensures i < |q| <==> i in went || i in left {
      if i in kept {
        var b :| 0 <= b < |kept| && kept[b] == i;
        if b < f { assert left[b] == i; } else if b > f { assert left[b - 1] == i; } else { assert went[|gone|] == i; }
      }
      LeftIsKept(kept, f, i);
    }
    forall b | 0 <= b < |left| ensures left[b] < |q| && GoesBefore(q, kept[f], left[b]) {
      assert left[b] == kept[if b < f then b else b + 1];
    }
  }

  lemma LeftIsKept(kept: seq<nat>, f: nat, i: nat)
    requires f < |kept|
    ensures i in kept[..f] + kept[f + 1..] ==> i in kept
  {
  }

  /** Evicting `k` records: which positions go, in what order, and which stay. */
  lemma {:induction false} EvictedByPosition(q: seq<Record>, k: nat) returns (gone: seq<nat>, kept: seq<nat>)
    requires k <= |q|
    ensures PositionsAfter(q, k, gone, kept)
  {
    LengthsAddUp(q);
    if k == 0 {
      gone, kept := [], AllOf(|q|);
      NothingGone(q);
    } else {
      var before, cur := EvictedByPosition(q, k - 1);
      gone, kept := EvictedOneMore(q, k - 1, before, cur);
    }
  }

  /** The positions gone and kept after `k` evictions. */
  ghost predicate PositionsAfter(q: seq<Record>, k: nat, gone: seq<nat>, kept: seq<nat>) {
    && k <= |q| && |EvictionOrder(q)| == |q| && |gone| == k && InRange(gone, |q|) && InRange(kept, |q|)
    && SplitAt(q, gone, kept)
    && Evicted(q, k) == At(q, kept) && EvictionOrder(q)[..k] == At(q, gone)
  }

  lemma EvictedOneMore(q: seq<Record>, k: nat, before: seq<nat>, cur: seq<nat>) returns (gone: seq<nat>, kept: seq<nat>)
    requires k < |q| && PositionsAfter(q, k, before, cur)
    ensures PositionsAfter(q, k + 1, gone, kept)
  {
    EvictionStep(q, k);
    var f := FirstBatch(At(q, cur));
    FirstBatchMeaning(At(q, cur));
    var at := if f >= 0 then f else 0;
    gone, kept := before + [cur[at]], cur[..at] + cur[at + 1..];
    assert forall b :: 0 <= b < |cur| ==> At(q, cur)[b] == q[cur[b]];
    OneMoreGone(q, before, cur, at);
    TakeOneMore(EvictionOrder(q), k);
    AtWithout(q, cur, at);
  }

  lemma AtWithout(q: seq<Record>, cur: seq<nat>, at: nat)
    requires InRange(cur, |q|) && at < |cur|
    ensures InRange(cur[..at] + cur[at + 1..], |q|)
    ensures At(q, cur[..at] + cur[at + 1..]) == Without(At(q, cur), at)
  {
  }

  /**
   * An arrival pushes out positions in this order: batch records before urgent ones, the older first. What is left
   * keeps its order, and the arrival stands behind it if there is room.
   */
  lemma EnqueueByPosition(q: seq<Record>, r: Record) returns (gone: seq<nat>, kept: seq<nat>)
    ensures SplitAt(q, gone, kept) && InRange(gone, |q|) && InRange(kept, |q|)
    ensures var e := EnqueueSpec(q, r);
            && e.evicted == At(q, gone) && e.queue == At(q, kept) + (if e.verdict == Accepted then [r] else [])
            && (e.verdict == Accepted <==> |kept| < 500 && Bytes(At(q, kept)) + r.event.bytes <= 4 * 1024 * 1024)
  {
    gone, kept := EvictedByPosition(q, EvictionsNeeded(q, r.event.bytes, Evictable(q, r.priority), 0));
    LengthsAddUp(q);
  }

  // ----- Prepending keeps order ------------------------------------------------------------------

  /** `a` is `b` with some elements left out. */
  ghost predicate Thinned(a: seq<Record>, b: seq<Record>) {
    exists at: seq<nat> :: Rising(at) && InRange(at, |b|) && a == At(b, at)
  }

  lemma ThinnedBehind(r: Record, a: seq<Record>, b: seq<Record>)
    requires Thinned(a, b)
    ensures Thinned([r] + a, [r] + b) && Thinned(a, [r] + b)
  {
    var at: seq<nat> :| Rising(at) && InRange(at, |b|) && a == At(b, at);
    var later := seq(|at|, k requires 0 <= k < |at| => at[k] + 1);
    assert Rising(later) && InRange(later, |[r] + b|) && At([r] + b, later) == a;
    FirstToo(r, b, later);
  }

  lemma FirstToo(r: Record, b: seq<Record>, later: seq<nat>)
    requires Rising(later) && InRange(later, |[r] + b|) && forall k :: 0 <= k < |later| ==> later[k] > 0
    ensures Thinned([r] + At([r] + b, later), [r] + b)
  {
    var all := [0] + later;
    assert Rising(all) && InRange(all, |[r] + b|);
    assert At([r] + b, all) == [r] + At([r] + b, later);
  }

  lemma ThinnedTwice(a: seq<Record>, b: seq<Record>, c: seq<Record>)
    requires Thinned(a, b) && Thinned(b, c)
    ensures Thinned(a, c)
  {
    var x: seq<nat> :| Rising(x) && InRange(x, |b|) && a == At(b, x);
    var y: seq<nat> :| Rising(y) && InRange(y, |c|) && b == At(c, y);
    var z := seq(|x|, k requires 0 <= k < |x| => y[x[k]]);
    assert Rising(z) && InRange(z, |c|) && a == At(c, z);
  }

  /** Whatever it evicts, prepending leaves a part of the records followed by the queue, in that order. */
  lemma {:induction false} PrependKeepsOrder(q: seq<Record>, records: seq<Record>)
    ensures Thinned(PrependSpec(q, records).queue, records + q)
    decreases |records|
  {
    if records == [] {
      ThinnedItself(q);
      assert records + q == q;
    } else {
      PrependKeepsOrder(q, records[1..]);
      FrontOfAll(q, records);
    }
  }

  lemma FrontOfAll(q: seq<Record>, records: seq<Record>)
    requires records != [] && Thinned(PrependSpec(q, records[1..]).queue, records[1..] + q)
    ensures Thinned(PrependSpec(q, records).queue, records + q)
  {
    var rest := PrependSpec(q, records[1..]).queue;
    FirstGoesLast(q, records);
    FirstInFront(records, q);
    FrontKeepsOrder(rest, records[0], records[1..] + q);
    SameThinned(PushFrontSpec(rest, records[0]).queue, [records[0]] + (records[1..] + q),
                PrependSpec(q, records).queue, records + q);
  }

  lemma FirstGoesLast(q: seq<Record>, records: seq<Record>)
    requires records != []
    ensures PrependSpec(q, records).queue == PushFrontSpec(PrependSpec(q, records[1..]).queue, records[0]).queue
  {
  }

  lemma FirstInFront<T>(a: seq<T>, b: seq<T>)
    requires a != []
    ensures a + b == [a[0]] + (a[1..] + b)
  {
  }

  lemma SameThinned(a: seq<Record>, b: seq<Record>, c: seq<Record>, d: seq<Record>)
    requires Thinned(a, b) && a == c && b == d
    ensures Thinned(c, d)
  {
  }

  lemma ThinnedItself(q: seq<Record>)
    ensures Thinned(q, q)
  {
    NothingGone(q);
  }

  lemma FrontKeepsOrder(rest: seq<Record>, r: Record, all: seq<Record>)
    requires Thinned(rest, all)
    ensures Thinned(PushFrontSpec(rest, r).queue, [r] + all)
  {
    PushFrontKeepsOrder(rest, r);
    ThinnedBehind(r, rest, all);
    ThinnedTwice(PushFrontSpec(rest, r).queue, [r] + rest, [r] + all);
  }

  lemma PushFrontKeepsOrder(q: seq<Record>, r: Record)
    ensures Thinned(PushFrontSpec(q, r).queue, [r] + q)
  {
    var gone, kept := EvictedByPosition(q, EvictionsNeeded(q, r.event.bytes, |q|, 0));
    LengthsAddUp(q);
    ThinnedBehind(r, At(q, kept), q);
  }

  /** `a` prepended to what prepending `b` has left. */
  function PrependAfter(second: PrependOutcome, a: seq<Record>): PrependOutcome {
    var first := PrependSpec(second.queue, a);
    PrependOutcome(first.queue, second.dropped + first.dropped)
  }

  lemma PrependOne(second: PrependOutcome, a: seq<Record>)
    requires a != []
    ensures PrependAfter(second, a)
            == var rest := PrependAfter(second, a[1..]); var first := PushFrontSpec(rest.queue, a[0]);
               PrependOutcome(first.queue, rest.dropped + first.dropped)
  {
    var rest := PrependSpec(second.queue, a[1..]);
    Associate(second.dropped, rest.dropped, PushFrontSpec(rest.queue, a[0]).dropped);
  }

  lemma TailOfBoth<T>(a: seq<T>, b: seq<T>)
    requires a != []
    ensures (a + b)[0] == a[0] && (a + b)[1..] == a[1..] + b
  {
  }

  lemma PrependFirst(q: seq<Record>, records: seq<Record>)
    requires records != []
    ensures PrependSpec(q, records)
            == var rest := PrependSpec(q, records[1..]); var first := PushFrontSpec(rest.queue, records[0]);
               PrependOutcome(first.queue, rest.dropped + first.dropped)
  {
  }

  /** Prepending two lists is prepending the second, then the first, and reports what goes in that order. */
  lemma {:induction false} PrependInTwoGoes(q: seq<Record>, a: seq<Record>, b: seq<Record>)
    ensures PrependSpec(q, a + b) == PrependAfter(PrependSpec(q, b), a)
    decreases |a|
  {
    if a == [] {
      assert a + b == b && PrependSpec(q, b).dropped + [] == PrependSpec(q, b).dropped;
    } else {
      PrependInTwoGoes(q, a[1..], b);
      TailOfBoth(a, b);
      PrependOne(PrependSpec(q, b), a);
      PrependFirst(q, a + b);
    }
  }

  // ----- Greedy packing --------------------------------------------------------------------------

  /** What is taken of the first candidates is taken first of all. */
  lemma {:induction false} PackPrefix(q: seq<Record>, c: seq<nat>, limit: nat, maximumBytes: nat, now: nat, k: nat)
    requires InRange(c, |q|) && k <= |c|
    ensures Pack(q, c[..k], limit, maximumBytes, now) <= Pack(q, c, limit, maximumBytes, now)
    decreases |c|
  {
    if k < |c| {
      var n := |c| - 1;
      PackPrefix(q, c[..n], limit, maximumBytes, now, k);
      assert c[..n][..k] == c[..k];
    } else {
      assert c[..k] == c;
    }
  }

  /**
   * A candidate is sent if and only if, after those sent of the candidates before it, the count allows it and it
   * still fits the envelope.
   */
  lemma TakenExactly(q: seq<Record>, limit: nat, maximumBytes: nat, priority: Option<Priority>, now: nat, k: nat)
    requires k < |Candidates(q, priority)|
    ensures var c := Candidates(q, priority); InRange(c, |q|)
    ensures var c := Candidates(q, priority); var before := Pack(q, c[..k], limit, maximumBytes, now);
            && before <= Chosen(q, limit, maximumBytes, priority, now)
            && (c[k] in Chosen(q, limit, maximumBytes, priority, now)
                <==> |before| < limit && EnvelopeBytes(now, At(q, before) + [q[c[k]]]) <= maximumBytes)
  {
    CandidatesInRange(q, priority);
    SelectionDistinct(q, priority);
    var c := Candidates(q, priority);
    PackPrefix(q, c, limit, maximumBytes, now, k);
    PackPrefix(q, c, limit, maximumBytes, now, k + 1);
    assert c[..k + 1][..k] == c[..k];
    var before := Pack(q, c[..k], limit, maximumBytes, now);
    assert At(q, before + [c[k]]) == At(q, before) + [q[c[k]]];
    TakenInFront(q, c, limit, maximumBytes, now, k);
  }

  lemma NotAmongEarlier(q: seq<Record>, c: seq<nat>, limit: nat, maximumBytes: nat, now: nat, k: nat)
    requires InRange(c, |q|) && DistinctPositions(c) && k < |c|
    ensures c[k] !in Pack(q, c[..k], limit, maximumBytes, now)
  {
    PackedFromCandidates(q, c[..k], limit, maximumBytes, now);
  }

  /** A candidate sent at all is sent by the time it has been looked at. */
  lemma {:induction false} TakenInFront(q: seq<Record>, c: seq<nat>, limit: nat, maximumBytes: nat, now: nat, k: nat)
    requires InRange(c, |q|) && DistinctPositions(c) && k < |c|
    ensures c[k] in Pack(q, c, limit, maximumBytes, now) <==> c[k] in Pack(q, c[..k + 1], limit, maximumBytes, now)
    ensures c[k] !in Pack(q, c[..k], limit, maximumBytes, now)
    decreases |c|
  {
    NotAmongEarlier(q, c, limit, maximumBytes, now, k);
    if k < |c| - 1 {
      var n := |c| - 1;
      TakenInFront(q, c[..n], limit, maximumBytes, now, k);
      assert c[..n][..k + 1] == c[..k + 1] && c[..n][..k] == c[..k];
    } else {
      assert c[..k + 1] == c;
    }
  }
}
