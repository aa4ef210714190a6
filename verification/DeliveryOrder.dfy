/** What waits for what: a flush for the writes issued before it, and joined flush calls for the one under way. */
module DeliveryOrder {
  import opened Events
  import opened EventQueues
  import opened QueueAttempts
  import opened Outbox
  import opened Delivery
  import opened DeliverySafety
  import opened DeliveryRuns
  import opened DeliveryLosses

  // ----- A flush waits for the writes before it --------------------------------------------------

  /** The writes a step puts on the chain. */
  function Issued(c: Client, s: Label): seq<Write> {
    match s
    case CaptureStep(r) =>
      var e := EnqueueSpec(c.queue, r);
      RemovePersisted([], UrgentIds(e.evicted))
      + if e.verdict == Accepted && r.priority == Immediate then [Save([r])] else []
    case FailStep(k) =>
      if k in c.ops && c.ops[k].Sending? then
        var f := RetrySpec(c.queue, c.ops[k].records);
        Persist([], UrgentOnly(f.retried)) + RemovePersisted([], UrgentIds(f.dropped))
      else []
    case _ => []
  }

  lemma IssuedAppends(w: World, s: Label, l: Limits)
    requires Enabled(w, s) && !s.CrashStep? && !s.WriteStep? && !s.WriteFailsStep?
    ensures var c' := Do(w, s, l).client; c'.pending == w.client.pending + Issued(w.client, s) && c'.done == w.client.done
  {
    match s
    case CaptureStep(r) => CaptureIssues(w.client, r);
    case FailStep(k) => FailIssues(w.client, k);
    case _ =>
  }

  lemma CaptureIssues(c: Client, r: Record)
    ensures Capture(c, r).pending == c.pending + Issued(c, CaptureStep(r)) && Capture(c, r).done == c.done
  {
  }

  lemma FailIssues(c: Client, k: nat)
    requires k in c.ops && c.ops[k].Sending?
    ensures Fail(c, k).pending == c.pending + Issued(c, FailStep(k)) && Fail(c, k).done == c.done
  {
  }

  /** An operation past its first await keeps its ticket until it drains. */
  ghost predicate Ticketed(c: Client, k: nat, ticket: nat) {
    && k < c.nextOp
    && (k in c.ops ==> !c.ops[k].AwaitReady?)
    && (k in c.ops && c.ops[k].AwaitWrites? ==> c.ops[k].ticket == ticket)
  }

  lemma StepKeepsTicket(w: World, s: Label, l: Limits, k: nat, ticket: nat)
    requires Enabled(w, s) && !s.CrashStep? && Ticketed(w.client, k, ticket)
    ensures Ticketed(Do(w, s, l).client, k, ticket)
  {
    if MovesFlush(s) {
      FlushStepKeepsTicket(w, s, l, k, ticket);
    } else {
      OpsStay(w, s, l);
    }
  }

  predicate MovesFlush(s: Label) {
    s.FlushStep? || s.PassReadyStep? || s.DrainStep? || s.AcknowledgeStep? || s.FinishRemovalStep?
    || s.FailStep? || s.SettleStep? || s.ResumeStep?
  }

  lemma FlushStepKeepsTicket(w: World, s: Label, l: Limits, k: nat, ticket: nat)
    requires Enabled(w, s) && MovesFlush(s) && Ticketed(w.client, k, ticket)
    ensures Ticketed(Do(w, s, l).client, k, ticket)
  {
    if s.FlushStep? { JoinKeepsTicket(w.client, s.options, k, ticket); }
    else if s.ResumeStep? && w.client.followUp.Some? {
      JoinKeepsTicket(w.client.(callbacks := w.client.callbacks[1..], followUp := None), w.client.followUp.value, k, ticket);
    }
  }

  lemma JoinKeepsTicket(c: Client, options: FlushOptions, k: nat, ticket: nat)
    requires Ticketed(c, k, ticket)
    ensures Ticketed(Flush(c, options), k, ticket)
  {
  }

  lemma OpsStay(w: World, s: Label, l: Limits)
    requires Enabled(w, s) && !s.CrashStep? && !MovesFlush(s)
    ensures var c' := Do(w, s, l).client; c'.ops == w.client.ops && c'.nextOp == w.client.nextOp
  {
  }

  /** Of the writes from the ticket on, none saves an event known before. */
  ghost predicate LaterSavesAreNew(c: Client, ticket: nat, known: set<nat>) {
    forall i :: 0 <= i < |c.pending| && c.done + i >= ticket && c.pending[i].Save? ==> Ids(c.pending[i].records) !! known
  }

  /** How operation `k` stands that drew this ticket when these ids were known. */
  ghost predicate Waits(w: World, k: nat, ticket: nat, known: set<nat>) {
    && known <= w.known && Ticketed(w.client, k, ticket)
    && (k in w.client.ops && w.client.ops[k].AwaitWrites? ==> LaterSavesAreNew(w.client, ticket, known))
  }

  lemma WaitBegins(w: World, k: nat, l: Limits)
    requires Inv(w, l) && Enabled(w, PassReadyStep(k))
    ensures Waits(Do(w, PassReadyStep(k), l), k, w.client.done + |w.client.pending|, w.known)
  {
  }

  lemma KnownGrows(w: World, s: Label, l: Limits)
    requires Enabled(w, s)
    ensures w.known <= Do(w, s, l).known
  {
  }

  lemma LaterWrites(c: Client, c': Client, ticket: nat, known: set<nat>, more: seq<Write>)
    requires LaterSavesAreNew(c, ticket, known) && c'.pending == c.pending + more && c'.done == c.done
    requires forall p :: p in more && p.Save? ==> Ids(p.records) !! known
    ensures LaterSavesAreNew(c', ticket, known)
  {
    forall i | 0 <= i < |c'.pending| && c'.done + i >= ticket && c'.pending[i].Save? ensures Ids(c'.pending[i].records) !! known {
      if i >= |c.pending| { assert c'.pending[i] in more; }
    }
  }

  lemma WriteDone(c: Client, c': Client, ticket: nat, known: set<nat>)
    requires LaterSavesAreNew(c, ticket, known) && c.pending != [] && c'.pending == c.pending[1..] && c'.done == c.done + 1
    ensures LaterSavesAreNew(c', ticket, known)
  {
    assert forall i :: 0 <= i < |c'.pending| ==> c'.pending[i] == c.pending[i + 1];
  }

  /** While one operation awaits the writes no other is sending, so only captures put saves on the chain. */
  lemma IssuedAreNew(w: World, s: Label, l: Limits, k: nat, known: set<nat>)
    requires SingleFlight(w.client) && Enabled(w, s) && !s.CrashStep? && known <= w.known
    requires k in w.client.ops && w.client.ops[k].AwaitWrites?
    ensures forall p :: p in Issued(w.client, s) && p.Save? ==> Ids(p.records) !! known
  {
  }

  lemma StillAwaits(w: World, s: Label, l: Limits, k: nat, ticket: nat)
    requires Enabled(w, s) && !s.CrashStep? && Ticketed(w.client, k, ticket)
    requires k in Do(w, s, l).client.ops && Do(w, s, l).client.ops[k].AwaitWrites?
    ensures k in w.client.ops && w.client.ops[k].AwaitWrites?
  {
  }

  lemma StepKeepsWaiting(w: World, s: Label, l: Limits, k: nat, ticket: nat, known: set<nat>)
    requires Inv(w, l) && Enabled(w, s) && !s.CrashStep? && Waits(w, k, ticket, known)
    ensures Waits(Do(w, s, l), k, ticket, known)
  {
    var w' := Do(w, s, l);
    KnownGrows(w, s, l);
    StepKeepsTicket(w, s, l, k, ticket);
    if k in w'.client.ops && w'.client.ops[k].AwaitWrites? {
      StillAwaits(w, s, l, k, ticket);
      if s.WriteStep? || s.WriteFailsStep? {
        WriteDone(w.client, w'.client, ticket, known);
      } else {
        IssuedAreNew(w, s, l, k, known);
        IssuedAppends(w, s, l);
        LaterWrites(w.client, w'.client, ticket, known, Issued(w.client, s));
      }
    }
  }

  lemma {:induction false} WaitingKept(durable: seq<Stored>, known: set<nat>, l: Limits, ws: seq<World>, ls: seq<Label>, k: nat, p: nat, n: nat)
    requires PageRun(durable, known, l, ws, ls) && p < n <= |ls| && ls[p] == PassReadyStep(k)
    requires forall i :: p < i < n ==> !ls[i].CrashStep?
    ensures Waits(ws[n], k, ws[p].client.done + |ws[p].client.pending|, ws[p].known)
    decreases n
  {
    var ticket := ws[p].client.done + |ws[p].client.pending|;
    if n == p + 1 {
      WaitBeginsAt(durable, known, l, ws, ls, k, p);
    } else {
      WaitingKept(durable, known, l, ws, ls, k, p, n - 1);
      WaitStepAt(durable, known, l, ws, ls, k, n - 1, ticket, ws[p].known);
    }
  }

  lemma WaitBeginsAt(durable: seq<Stored>, known: set<nat>, l: Limits, ws: seq<World>, ls: seq<Label>, k: nat, p: nat)
    requires PageRun(durable, known, l, ws, ls) && p < |ls| && ls[p] == PassReadyStep(k)
    ensures Waits(ws[p + 1], k, ws[p].client.done + |ws[p].client.pending|, ws[p].known)
  {
    ReachedIsSafe(durable, known, l, ws, ls, p);
    WaitBegins(ws[p], k, l);
  }

  lemma WaitStepAt(durable: seq<Stored>, known: set<nat>, l: Limits, ws: seq<World>, ls: seq<Label>,
                   k: nat, i: nat, ticket: nat, before: set<nat>)
    requires PageRun(durable, known, l, ws, ls) && i < |ls| && !ls[i].CrashStep? && Waits(ws[i], k, ticket, before)
    ensures Waits(ws[i + 1], k, ticket, before)
  {
    ReachedIsSafe(durable, known, l, ws, ls, i);
    StepKeepsWaiting(ws[i], ls[i], l, k, ticket, before);
  }

  /** No pending write saves it, so an urgent event the client holds is stored already, exactly if it is not lost. */
  lemma {:induction false} NoLaterSave(pending: seq<Write>, id: nat)
    requires forall p :: p in pending && p.Save? ==> id !in Ids(p.records)
    ensures LastMention(pending, id) != LastSaved
  {
    if pending != [] {
      var n := |pending| - 1;
      assert pending[n] in pending;
      NoLaterSave(pending[..n], id);
    }
  }

  lemma DrainedAreStored(w: World, k: nat, now: nat, l: Limits, ticket: nat, known: set<nat>, x: Record)
    requires Inv(w, l) && Enabled(w, DrainStep(k, now)) && Waits(w, k, ticket, known)
    requires x in w.client.queue && x.priority == Immediate && x.event.id in known
    ensures x.event.id in StoredIds(w.durable) <==> x.event.id !in w.lost
  {
    var c := w.client;
    forall p | p in c.pending && p.Save? ensures x.event.id !in Ids(p.records) {
      var i :| 0 <= i < |c.pending| && c.pending[i] == p;
      assert c.done + i >= ticket;
    }
    NoLaterSave(c.pending, x.event.id);
    assert x in Memory(c) && Held(w, x);
    SecuredExactly(w, l, x.event.id);
  }

  /**
   * A flush drains only after every durable write issued before its restore wait ended has finished, so every
   * urgent event it sends that was known by then is in the outbox at that moment, exactly if the outbox has not
   * given it up for good.
   */
  lemma FlushWaitsForEarlierWrites(durable: seq<Stored>, known: set<nat>, l: Limits, ws: seq<World>, ls: seq<Label>,
                                   k: nat, p: nat, n: nat, now: nat)
    requires PageRun(durable, known, l, ws, ls) && p < n < |ls|
    requires ls[p] == PassReadyStep(k) && ls[n] == DrainStep(k, now) && forall i :: p < i < n ==> !ls[i].CrashStep?
    ensures ws[n].client.done >= ws[p].client.done + |ws[p].client.pending|
    ensures var d := FlushDrain(ws[n].client.queue, ws[n].client.ops[k].options, now);
            forall x :: x in d.drained && x.priority == Immediate && x.event.id in ws[p].known ==>
              (x.event.id in StoredIds(ws[n].durable) <==> !GaveUp(ws, ls, l, x.event.id, n))
  {
    WaitingKept(durable, known, l, ws, ls, k, p, n);
    var w := ws[n];
    assert Enabled(w, DrainStep(k, now));
    var d := FlushDrain(w.client.queue, w.client.ops[k].options, now);
    DrainedFromQueue(w.client.queue, w.client.ops[k].options, now);
    forall x | x in d.drained && x.priority == Immediate && x.event.id in ws[p].known
      ensures x.event.id in StoredIds(w.durable) <==> !GaveUp(ws, ls, l, x.event.id, n)
    {
      StoredUnlessLost(durable, known, l, ws, ls, k, p, n, now, x);
      LedgerIsExact(durable, known, l, ws, ls, x.event.id, n);
    }
  }

  lemma StoredUnlessLost(durable: seq<Stored>, known: set<nat>, l: Limits, ws: seq<World>, ls: seq<Label>,
                     k: nat, p: nat, n: nat, now: nat, x: Record)
    requires PageRun(durable, known, l, ws, ls) && p < n < |ls|
    requires ls[p] == PassReadyStep(k) && ls[n] == DrainStep(k, now)
    requires Waits(ws[n], k, ws[p].client.done + |ws[p].client.pending|, ws[p].known)
    requires x in ws[n].client.queue && x.priority == Immediate && x.event.id in ws[p].known
    ensures x.event.id in StoredIds(ws[n].durable) <==> x.event.id !in ws[n].lost
  {
    ReachedIsSafe(durable, known, l, ws, ls, n);
    assert Enabled(ws[n], ls[n]);
    DrainedAreStored(ws[n], k, now, l, ws[p].client.done + |ws[p].client.pending|, ws[p].known, x);
  }

  // ----- Joined flush calls ----------------------------------------------------------------------

  /** Calls wait only for an operation under way, and a request that was merged has a call to make it. */
  ghost predicate JoinsOk(c: Client) {
    && (c.waiters > 0 ==> c.current.Some?)
    && (c.followUp.Some? ==> c.waiters + |c.callbacks| > 0)
  }

  /** Whether the step makes a call join the operation under way: a flush, or a joined call that flushes again. */
  predicate Joins(c: Client, s: Label) {
    c.current.Some?
    && (s.FlushStep? || (s.ResumeStep? && c.callbacks != [] && c.followUp.Some? && c.callbacks[0] != 0))
  }

  lemma JoinsStep(w: World, s: Label, l: Limits)
    requires JoinsOk(w.client) && Enabled(w, s) && !s.CrashStep?
    ensures var c, c' := w.client, Do(w, s, l).client;
            && JoinsOk(c')
            && c'.waiters + |c'.callbacks| + (if s.ResumeStep? then 1 else 0)
               == c.waiters + |c.callbacks| + if Joins(c, s) then 1 else 0
  {
  }

  /** How many calls joined, and how many joined calls have gone on, in the first `n` steps. */
  function Joined(ws: seq<World>, ls: seq<Label>, n: nat): nat
    requires n <= |ls| < |ws|
  {
    if n == 0 then 0 else Joined(ws, ls, n - 1) + if Joins(ws[n - 1].client, ls[n - 1]) then 1 else 0
  }

  function Resumed(ls: seq<Label>, n: nat): nat
    requires n <= |ls|
  {
    if n == 0 then 0 else Resumed(ls, n - 1) + if ls[n - 1].ResumeStep? then 1 else 0
  }

  /**
   * Every call that joined a flush goes on exactly once: those that have not yet are waiting for the operation
   * under way or are next to run, and no merged request is left without one of them to make it.
   */
  lemma {:induction false} JoinedFlushesGoOn(durable: seq<Stored>, known: set<nat>, l: Limits, ws: seq<World>, ls: seq<Label>, n: nat)
    requires PageRun(durable, known, l, ws, ls) && NoCrash(ls) && n <= |ls|
    ensures var c := ws[n].client;
            && JoinsOk(c)
            && Joined(ws, ls, n) == Resumed(ls, n) + c.waiters + |c.callbacks|
  {
    if n > 0 {
      JoinedFlushesGoOn(durable, known, l, ws, ls, n - 1);
      JoinsStep(ws[n - 1], ls[n - 1], l);
    }
  }
}
