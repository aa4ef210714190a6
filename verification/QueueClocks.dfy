/**
 * The queue measures an envelope with one clock reading and the client sends it with another. Which pairs of
 * readings keep every envelope within its limit.
 */
module QueueClocks {
  import opened Events
  import opened EventQueues
  import opened QueueProperties
  import opened QueueDelivery
  import opened QueueAttempts

  /** What a flush drains at `now` fits its limit when it is sent at `sentAt`, whatever was queued. */
  ghost predicate AlwaysFits(options: FlushOptions, now: nat, sentAt: nat) {
    forall q :: EventsBounded(q) && WithinCapacity(q) && DistinctIds(q) && FlushDrain(q, options, now).drained != [] ==>
      EnvelopeBytes(sentAt, FlushDrain(q, options, now).drained) <= MaximumBytes(options)
  }

  lemma EnvelopeGrows(now: nat, q: seq<Record>, k: nat)
    requires 0 < k <= |q|
    ensures EnvelopeBytes(now, q[..k]) <= EnvelopeBytes(now, q)
  {
    assert q == q[..k] + q[k..];
    BytesAppend(q[..k], q[k..]);
  }

  lemma AllCandidates(q: seq<Record>, priority: Option<Priority>)
    requires forall r :: r in q ==> r.priority == Immediate
    ensures Candidates(q, priority) == AllBelow(|q|)
  {
    UrgentOnlyCandidates(q, |q|);
    assert AllBelow(|q|) + [] == AllBelow(|q|);
  }

  lemma {:induction false} PackAll(q: seq<Record>, k: nat, limit: nat, maximumBytes: nat, now: nat)
    requires k <= |q| <= limit && EnvelopeBytes(now, q) <= maximumBytes
    ensures Pack(q, AllBelow(k), limit, maximumBytes, now) == AllBelow(k)
  {
    if k > 0 {
      assert AllBelow(k)[..k - 1] == AllBelow(k - 1);
      PackAll(q, k - 1, limit, maximumBytes, now);
      assert AllBelow(k - 1) + [k - 1] == AllBelow(k);
      assert At(q, AllBelow(k)) == q[..k];
      EnvelopeGrows(now, q, k);
    }
  }

  lemma {:induction false} PickAll(q: seq<Record>, chosen: seq<nat>)
    requires forall i: nat :: i < |q| ==> i in chosen
    ensures Pick(q, chosen, true) == q
  {
    if q != [] {
      PickAll(q[..|q| - 1], chosen);
      assert q == q[..|q| - 1] + [q[|q| - 1]];
    }
  }

  /** Urgent records that fit one envelope together are all sent, whatever priority was asked for. */
  lemma EverythingDrains(q: seq<Record>, options: FlushOptions, now: nat)
    requires |q| <= FLUSH_LIMIT && EnvelopeBytes(now, q) <= MaximumBytes(options)
    requires forall r :: r in q ==> r.priority == Immediate
    ensures FlushDrain(q, options, now).drained == q
  {
    AllCandidates(q, options.priority);
    PackAll(q, |q|, FLUSH_LIMIT, MaximumBytes(options), now);
    var all := AllBelow(|q|);
    forall i: nat | i < |q| ensures i in all {
      assert all[i] == i;
    }
    PickAll(q, all);
  }

  /** `n` events of 64 KiB and a last one of `rest` bytes. */
  function Filling(n: nat, rest: nat): seq<Record> {
    seq(n + 1, i requires 0 <= i => Record(Event(i, 0, None, None, if i < n then MAX_EVENT_BYTES else rest), Immediate, 0))
  }

  lemma {:induction false} FillingBytes(n: nat, rest: nat)
    ensures Bytes(Filling(n, rest)) == n * MAX_EVENT_BYTES + rest
  {
    var q := Filling(n, rest);
    var full := seq(n, i requires 0 <= i => Record(Event(i, 0, None, None, MAX_EVENT_BYTES), Immediate, 0));
    var last := Record(Event(n, 0, None, None, rest), Immediate, 0);
    assert q == full + [last];
    BytesAppend(full, [last]);
    assert Bytes([last]) == rest;
    FullBytes(full);
  }

  lemma {:induction false} FullBytes(q: seq<Record>)
    requires forall r :: r in q ==> r.event.bytes == MAX_EVENT_BYTES
    ensures Bytes(q) == |q| * MAX_EVENT_BYTES
  {
    if q != [] { FullBytes(q[1..]); }
  }

  lemma FillingMeaning(n: nat, rest: nat)
    requires n <= 15 && rest <= MAX_EVENT_BYTES
    ensures var q := Filling(n, rest);
            && EventsBounded(q) && WithinCapacity(q) && DistinctIds(q)
            && (forall r :: r in q ==> r.priority == Immediate)
  {
    FillingBytes(n, rest);
  }

  /** How many full events an envelope of each kind takes beside one that fills it up. */
  function FullEvents(options: FlushOptions): nat { if options.keepalive then 0 else 15 }

  /** A queue that fills the envelope to the last byte at a clock reading of this width. */
  lemma FullEnvelope(options: FlushOptions, now: nat) returns (q: seq<Record>)
    requires Clock(now)
    ensures EventsBounded(q) && WithinCapacity(q) && DistinctIds(q) && q != []
    ensures FlushDrain(q, options, now).drained == q && EnvelopeBytes(now, q) == MaximumBytes(options)
  {
    DigitsBound(now, 100);
    var n := FullEvents(options);
    var rest := LeftOver(options, Digits(now));
    q := Filling(n, rest);
    FillingMeaning(n, rest);
    FillingBytes(n, rest);
    EverythingDrains(q, options, now);
  }

  /** The size that fills the envelope up. */
  function LeftOver(options: FlushOptions, digits: nat): (rest: nat)
    requires digits <= 100
    ensures rest <= MAX_EVENT_BYTES
    ensures var n := FullEvents(options);
            34 + digits + (n * MAX_EVENT_BYTES + rest) + ITEM_BYTES * (n + 1) + n == MaximumBytes(options)
  {
    if options.keepalive then 61379 - digits else 65055 - digits
  }

  /** Of any two readings, the sending one being wider is enough for some full envelope to overflow. */
  lemma WiderClockOverflows(options: FlushOptions, now: nat, sentAt: nat)
    requires Clock(now) && Digits(sentAt) > Digits(now)
    ensures !AlwaysFits(options, now, sentAt)
  {
    var q := FullEnvelope(options, now);
  }

  /**
   * Every envelope fits, at any options, exactly when the clock reading it is sent with has no more digits than
   * the one it was measured with.
   */
  lemma ClocksDecideFit(options: FlushOptions, now: nat, sentAt: nat)
    requires Clock(now)
    ensures AlwaysFits(options, now, sentAt) <==> Digits(sentAt) <= Digits(now)
  {
    if Digits(sentAt) > Digits(now) {
      WiderClockOverflows(options, now, sentAt);
    } else {
      forall q | FlushDrain(q, options, now).drained != []
        ensures EnvelopeBytes(sentAt, FlushDrain(q, options, now).drained) <= MaximumBytes(options)
      {
        DrainedEnvelopeFits(q, FLUSH_LIMIT, MaximumBytes(options), options.priority, now, sentAt);
      }
    }
  }
}
