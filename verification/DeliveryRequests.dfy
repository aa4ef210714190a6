/** What becomes of a flush call: the operation it starts, or the request it is merged into. */
module DeliveryRequests {
  import opened Events
  import opened EventQueues
  import opened QueueAttempts
  import opened Outbox
  import opened Delivery
  import opened DeliveryRuns
  import opened DeliveryOrder

  // ----- What a merged request asks for ----------------------------------------------------------

  predicate WantsKeepalive(request: Option<FlushOptions>) { request.Some? && request.value.keepalive }

  predicate WantsUrgent(request: Option<FlushOptions>) { request.Some? && request.value.priority == Some(Immediate) }

  predicate WantsPriority(request: Option<FlushOptions>) { request.Some? && request.value.priority.Some? }

  lemma OneOfThree(p: Option<Priority>)
    ensures p == None || p == Some(Batch) || p == Some(Immediate)
  {
    match p
    case None =>
    case Some(Batch) =>
    case Some(Immediate) =>
  }

  /** A merged request asks for what either of the two asks for. */
  lemma MergeIsBoth(before: Option<FlushOptions>, next: FlushOptions)
    ensures var m := Some(MergeFlushOptions(before, next));
            && (WantsKeepalive(m) <==> WantsKeepalive(before) || next.keepalive)
            && (WantsUrgent(m) <==> WantsUrgent(before) || next.priority == Some(Immediate))
            && (WantsPriority(m) <==> WantsPriority(before) || next.priority.Some?)
    ensures before.None? ==> MergeFlushOptions(before, next) == next
  {
    OneOfThree(next.priority);
    if before.Some? { OneOfThree(before.value.priority); }
  }

  /** Step `i` is a flush call that joined the operation under way, and its request is still pending at the `n`-th state. */
  ghost predicate Asked(ws: seq<World>, ls: seq<Label>, i: nat, n: nat)
    requires |ws| == |ls| + 1 && n <= |ls|
  {
    && i < n && ls[i].FlushStep? && ws[i].client.current.Some?
    && forall k :: i < k <= n ==> ws[k].client.followUp.Some?
  }

  predicate JoinsAt(c: Client, s: Label) { s.FlushStep? && c.current.Some? }

  /** Apart from the calls that join, a step keeps the pending request as it is or takes it away. */
  lemma RequestStep(w: World, s: Label, l: Limits)
    requires Enabled(w, s)
    ensures var before, after := w.client.followUp, Do(w, s, l).client.followUp;
            if JoinsAt(w.client, s) then after == Some(MergeFlushOptions(before, s.options))
            else after.Some? ==> after == before
  {
    if s.ResumeStep? && w.client.followUp.Some? { MergeIsBoth(None, w.client.followUp.value); }
  }

  lemma AskedNext(ws: seq<World>, ls: seq<Label>, i: nat, n: nat)
    requires |ws| == |ls| + 1 && i < n <= |ls| && ws[n].client.followUp.Some?
    ensures Asked(ws, ls, i, n) <==> if i == n - 1 then JoinsAt(ws[i].client, ls[i]) else Asked(ws, ls, i, n - 1)
  {
  }

  ghost predicate KeepaliveAsked(ws: seq<World>, ls: seq<Label>, n: nat)
    requires |ws| == |ls| + 1 && n <= |ls|
  {
    exists i: nat :: Asked(ws, ls, i, n) && ls[i].options.keepalive
  }

  ghost predicate UrgentAsked(ws: seq<World>, ls: seq<Label>, n: nat)
    requires |ws| == |ls| + 1 && n <= |ls|
  {
    exists i: nat :: Asked(ws, ls, i, n) && ls[i].options.priority == Some(Immediate)
  }

  ghost predicate PriorityAsked(ws: seq<World>, ls: seq<Label>, n: nat)
    requires |ws| == |ls| + 1 && n <= |ls|
  {
    exists i: nat :: Asked(ws, ls, i, n) && ls[i].options.priority.Some?
  }

  /** One more step, as far as the calls of the pending request are concerned. */
  lemma AskedStep(ws: seq<World>, ls: seq<Label>, n: nat)
    requires |ws| == |ls| + 1 && 0 < n <= |ls| && ws[n].client.followUp.Some?
    ensures var m: nat := n - 1; var joins := JoinsAt(ws[m].client, ls[m]);
            && (KeepaliveAsked(ws, ls, n) <==> KeepaliveAsked(ws, ls, m) || (joins && ls[m].options.keepalive))
            && (UrgentAsked(ws, ls, n) <==> UrgentAsked(ws, ls, m) || (joins && ls[m].options.priority == Some(Immediate)))
            && (PriorityAsked(ws, ls, n) <==> PriorityAsked(ws, ls, m) || (joins && ls[m].options.priority.Some?))
  {
    var m: nat := n - 1;
    forall i: nat | i < n ensures Asked(ws, ls, i, n) <==> if i == m then JoinsAt(ws[i].client, ls[i]) else Asked(ws, ls, i, m) {
      AskedNext(ws, ls, i, n);
    }
    assert JoinsAt(ws[m].client, ls[m]) ==> Asked(ws, ls, m, n);
    assert forall i: nat :: Asked(ws, ls, i, m) ==> Asked(ws, ls, i, n);
  }

  lemma NothingAsked(ws: seq<World>, ls: seq<Label>, n: nat)
    requires |ws| == |ls| + 1 && n <= |ls| && ws[n].client.followUp.None?
    ensures !KeepaliveAsked(ws, ls, n) && !UrgentAsked(ws, ls, n) && !PriorityAsked(ws, ls, n)
  {
  }

  /**
   * At every point of a run the pending request asks for keepalive, for urgent events, or for a priority at all,
   * exactly if one of the calls merged into it asked for that.
   */
  lemma {:induction false} RequestIsWhatWasAsked(ws: seq<World>, ls: seq<Label>, l: Limits, n: nat)
    requires IsRun(ws, ls, l) && ws[0].client.followUp.None? && n <= |ls|
    ensures var request := ws[n].client.followUp;
            && (WantsKeepalive(request) <==> KeepaliveAsked(ws, ls, n))
            && (WantsUrgent(request) <==> UrgentAsked(ws, ls, n))
            && (WantsPriority(request) <==> PriorityAsked(ws, ls, n))
    decreases n
  {
    if ws[n].client.followUp.None? {
      NothingAsked(ws, ls, n);
    } else {
      var m: nat := n - 1;
      RequestIsWhatWasAsked(ws, ls, l, m);
      AskedStep(ws, ls, n);
      RequestStep(ws[m], ls[m], l);
      if JoinsAt(ws[m].client, ls[m]) { MergeIsBoth(ws[m].client.followUp, ls[m].options); }
    }
  }

  // ----- Every flush call is served --------------------------------------------------------------

  /** `o` asks for everything that `p` asks for. */
  predicate Covers(o: FlushOptions, p: FlushOptions) {
    && (p.keepalive ==> o.keepalive)
    && (p.priority == Some(Immediate) ==> o.priority == Some(Immediate))
    && (p.priority.Some? ==> o.priority.Some?)
  }

  /** Step `s` starts operation `k` with the options `o`: a flush call, or a joined call that makes the merged request. */
  ghost predicate StartedAt(ws: seq<World>, ls: seq<Label>, s: nat, k: nat, o: FlushOptions)
    requires |ws| == |ls| + 1
  {
    && s < |ls| && ws[s].client.current.None? && ws[s].client.nextOp == k
    && ws[s + 1].client.current == Some(k) && ws[s + 1].client.ops == ws[s].client.ops[k := AwaitReady(o)]
    && (ls[s] == FlushStep(o) || (ls[s].ResumeStep? && ws[s].client.followUp == Some(o)))
  }

  /** Step `k` is a joined call that goes on, takes a pending request covering `o`, and finds that nothing is left. */
  ghost predicate DroppedAt(ws: seq<World>, ls: seq<Label>, k: nat, o: FlushOptions)
    requires |ws| == |ls| + 1
  {
    && k < |ls| && ls[k].ResumeStep? && ws[k].client.callbacks != [] && ws[k].client.callbacks[0] == 0
    && ws[k].client.followUp.Some? && Covers(ws[k].client.followUp.value, o)
  }

  /** Step `k` is a joined call that goes on and starts an operation that covers `o`. */
  ghost predicate MadeAt(ws: seq<World>, ls: seq<Label>, k: nat, o: FlushOptions)
    requires |ws| == |ls| + 1
  {
    && k < |ls| && ls[k].ResumeStep? && ws[k].client.callbacks != [] && ws[k].client.callbacks[0] != 0
    && ws[k].client.followUp.Some? && Covers(ws[k].client.followUp.value, o)
    && StartedAt(ws, ls, k, ws[k].client.nextOp, ws[k].client.followUp.value)
  }

  ghost predicate PendingFor(c: Client, o: FlushOptions) { c.followUp.Some? && Covers(c.followUp.value, o) }

  lemma JoinCovers(w: World, o: FlushOptions, l: Limits)
    requires w.client.current.Some?
    ensures PendingFor(Do(w, FlushStep(o), l).client, o)
  {
    MergeIsBoth(w.client.followUp, o);
  }

  ghost predicate StaysOrTaken(ws: seq<World>, ls: seq<Label>, o: FlushOptions, n: nat)
    requires n < |ls| && |ws| == |ls| + 1
  {
    PendingFor(ws[n].client, o) ==> PendingFor(ws[n + 1].client, o) || DroppedAt(ws, ls, n, o) || MadeAt(ws, ls, n, o)
  }

  lemma PendingStep(ws: seq<World>, ls: seq<Label>, l: Limits, o: FlushOptions, n: nat)
    requires IsRun(ws, ls, l) && n < |ls| && !ls[n].CrashStep?
    ensures StaysOrTaken(ws, ls, o, n)
  {
    RequestStep(ws[n], ls[n], l);
    if JoinsAt(ws[n].client, ls[n]) { MergeIsBoth(ws[n].client.followUp, ls[n].options); }
    if PendingFor(ws[n].client, o) { TakenUp(ws, ls, l, o, n); }
  }

  /** Only a joined call that goes on takes the request away. */
  lemma TakenUp(ws: seq<World>, ls: seq<Label>, l: Limits, o: FlushOptions, n: nat)
    requires IsRun(ws, ls, l) && n < |ls| && !ls[n].CrashStep? && PendingFor(ws[n].client, o)
    ensures ws[n + 1].client.followUp.Some? || DroppedAt(ws, ls, n, o) || MadeAt(ws, ls, n, o)
  {
    if ls[n].ResumeStep? && ws[n].client.callbacks[0] != 0 && ws[n].client.current.None? {
      assert StartedAt(ws, ls, n, ws[n].client.nextOp, ws[n].client.followUp.value);
    }
  }

  /** Some step from `i` to `n` took a pending request covering `o` and dropped it or made it. */
  ghost predicate Taken(ws: seq<World>, ls: seq<Label>, o: FlushOptions, i: nat, n: nat)
    requires |ws| == |ls| + 1
  {
    exists k :: i <= k < n && (DroppedAt(ws, ls, k, o) || MadeAt(ws, ls, k, o))
  }

  lemma {:induction false} PendingKept(ws: seq<World>, ls: seq<Label>, o: FlushOptions, i: nat, n: nat)
    requires |ws| == |ls| + 1 && i <= n <= |ls| && PendingFor(ws[i].client, o)
    requires forall k :: i <= k < n ==> StaysOrTaken(ws, ls, o, k)
    ensures PendingFor(ws[n].client, o) || Taken(ws, ls, o, i, n)
    decreases n
  {
    if i < n {
      PendingKept(ws, ls, o, i, n - 1);
      assert StaysOrTaken(ws, ls, o, n - 1);
      TakenLater(ws, ls, o, i, n);
    }
  }

  lemma TakenLater(ws: seq<World>, ls: seq<Label>, o: FlushOptions, i: nat, n: nat)
    requires |ws| == |ls| + 1 && i < n
    ensures Taken(ws, ls, o, i, n) <==> Taken(ws, ls, o, i, n - 1) || DroppedAt(ws, ls, n - 1, o) || MadeAt(ws, ls, n - 1, o)
  {
  }

  /**
   * No flush call is forgotten: it starts an operation with its own options, or its request stays pending with all
   * it asked for until a joined call starts an operation that covers it, or finds that nothing is left.
   */
  lemma EveryFlushIsServed(ws: seq<World>, ls: seq<Label>, l: Limits, o: FlushOptions, i: nat, n: nat)
    requires IsRun(ws, ls, l) && i < n <= |ls| && ls[i] == FlushStep(o) && forall k :: i <= k < n ==> !ls[k].CrashStep?
    ensures if ws[i].client.current.None? then StartedAt(ws, ls, i, ws[i].client.nextOp, o)
            else PendingFor(ws[n].client, o) || Taken(ws, ls, o, i + 1, n)
  {
    if ws[i].client.current.Some? {
      JoinCovers(ws[i], o, l);
      forall k | i + 1 <= k < n ensures StaysOrTaken(ws, ls, o, k) {
        PendingStep(ws, ls, l, o, k);
      }
      PendingKept(ws, ls, o, i + 1, n);
    }
  }

  // ----- An operation does what it was started for -----------------------------------------------

  predicate Awaits(c: Client, k: nat) { k in c.ops && (c.ops[k].AwaitReady? || c.ops[k].AwaitWrites?) }

  lemma AwaitsStep(ws: seq<World>, ls: seq<Label>, l: Limits, n: nat, k: nat)
    requires IsRun(ws, ls, l) && n < |ls| && Awaits(ws[n + 1].client, k)
    ensures var o := ws[n + 1].client.ops[k].options;
            (Awaits(ws[n].client, k) && ws[n].client.ops[k].options == o) || StartedAt(ws, ls, n, k, o)
  {
    RequestStep(ws[n], ls[n], l);
  }

  lemma {:induction false} OptionsAreKept(ws: seq<World>, ls: seq<Label>, l: Limits, n: nat, k: nat) returns (s: nat)
    requires IsRun(ws, ls, l) && ws[0].client.ops == map[] && n <= |ls| && Awaits(ws[n].client, k)
    ensures s < n && StartedAt(ws, ls, s, k, ws[n].client.ops[k].options)
    decreases n
  {
    AwaitsStep(ws, ls, l, n - 1, k);
    if StartedAt(ws, ls, n - 1, k, ws[n].client.ops[k].options) {
      s := n - 1;
    } else {
      s := OptionsAreKept(ws, ls, l, n - 1, k);
    }
  }

  /** A drain takes what the options its operation was started with ask for, and sends just that. */
  lemma DrainServesItsCall(ws: seq<World>, ls: seq<Label>, l: Limits, n: nat, k: nat, now: nat) returns (s: nat, o: FlushOptions)
    requires IsRun(ws, ls, l) && ws[0].client.ops == map[] && n < |ls| && ls[n] == DrainStep(k, now)
    ensures s < n && StartedAt(ws, ls, s, k, o)
    ensures var maximumBytes := if o.keepalive then 60 * 1024 else 1024 * 1024;
            var d := DrainSpec(ws[n].client.queue, 100, maximumBytes, o.priority, now);
            && k in ws[n + 1].client.ops && ws[n + 1].client.queue == d.queue
            && ws[n + 1].client.ops[k] == (if d.drained == [] then Settled(|d.queue|) else Sending(d.drained))
  {
    s := OptionsAreKept(ws, ls, l, n, k);
    o := ws[n].client.ops[k].options;
  }

  // ----- What a joined call is told --------------------------------------------------------------

  /** Step `e` ended an operation. */
  ghost predicate EndedAt(ws: seq<World>, ls: seq<Label>, e: nat)
    requires |ws| == |ls| + 1
  {
    e < |ls| && (ls[e].DrainStep? || ls[e].FinishRemovalStep? || ls[e].FailStep?)
  }

  /** An operation ended before the `n`-th state and left this many records in the queue. */
  ghost predicate LeftBefore(ws: seq<World>, ls: seq<Label>, n: nat, remaining: nat)
    requires |ws| == |ls| + 1
  {
    exists e :: 0 <= e < n && EndedAt(ws, ls, e) && |ws[e + 1].client.queue| == remaining
  }

  ghost predicate ToldTrue(ws: seq<World>, ls: seq<Label>, n: nat)
    requires |ws| == |ls| + 1 && n <= |ls|
  {
    && (forall k :: k in ws[n].client.ops && ws[n].client.ops[k].Settled? ==> LeftBefore(ws, ls, n, ws[n].client.ops[k].remaining))
    && (forall v :: v in ws[n].client.callbacks ==> LeftBefore(ws, ls, n, v))
  }

  lemma SettlesStep(w: World, s: Label, l: Limits, k: nat)
    requires Enabled(w, s)
    ensures var c' := Do(w, s, l).client;
            k in c'.ops && c'.ops[k].Settled? ==>
              (k in w.client.ops && w.client.ops[k] == c'.ops[k])
              || ((s.DrainStep? || s.FinishRemovalStep? || s.FailStep?) && c'.ops[k].remaining == |c'.queue|)
  {
  }

  lemma CallbacksStep(w: World, s: Label, l: Limits, v: nat)
    requires Enabled(w, s) && v in Do(w, s, l).client.callbacks
    ensures v in w.client.callbacks || exists k :: k in w.client.ops && w.client.ops[k] == Settled(v)
  {
    match s
    case SettleStep(k) => assert w.client.ops[k].Settled?;
    case ResumeStep => assert v in w.client.callbacks[1..];
    case _ =>
  }

  lemma LeftEarlier(ws: seq<World>, ls: seq<Label>, m: nat, n: nat, v: nat)
    requires |ws| == |ls| + 1 && m <= n && LeftBefore(ws, ls, m, v)
    ensures LeftBefore(ws, ls, n, v)
  {
  }

  /** A joined call is told how many records the queue held when an operation had ended, and so at every point of a run. */
  lemma {:induction false} CallsAreToldTrue(ws: seq<World>, ls: seq<Label>, l: Limits, n: nat)
    requires IsRun(ws, ls, l) && ws[0].client.ops == map[] && ws[0].client.callbacks == [] && n <= |ls|
    ensures ToldTrue(ws, ls, n)
    decreases n
  {
    if n > 0 {
      CallsAreToldTrue(ws, ls, l, n - 1);
      ToldTrueNext(ws, ls, l, n - 1);
    }
  }

  lemma ToldTrueNext(ws: seq<World>, ls: seq<Label>, l: Limits, n: nat)
    requires IsRun(ws, ls, l) && n < |ls| && ToldTrue(ws, ls, n)
    ensures ToldTrue(ws, ls, n + 1)
  {
    var c, c' := ws[n].client, ws[n + 1].client;
    forall k | k in c'.ops && c'.ops[k].Settled? ensures LeftBefore(ws, ls, n + 1, c'.ops[k].remaining) {
      SettlesStep(ws[n], ls[n], l, k);
      if k in c.ops && c.ops[k] == c'.ops[k] {
        LeftEarlier(ws, ls, n, n + 1, c'.ops[k].remaining);
      } else {
        assert EndedAt(ws, ls, n);
      }
    }
    forall v | v in c'.callbacks ensures LeftBefore(ws, ls, n + 1, v) {
      CallbacksStep(ws[n], ls[n], l, v);
      LeftEarlier(ws, ls, n, n + 1, v);
    }
  }

  /** A request is dropped only after an operation has left the queue empty. */
  lemma DroppedWhenNothingWasLeft(ws: seq<World>, ls: seq<Label>, l: Limits, k: nat, o: FlushOptions) returns (e: nat)
    requires IsRun(ws, ls, l) && ws[0].client.ops == map[] && ws[0].client.callbacks == [] && DroppedAt(ws, ls, k, o)
    ensures e < k && EndedAt(ws, ls, e) && ws[e + 1].client.queue == []
  {
    CallsAreToldTrue(ws, ls, l, k);
    assert ws[k].client.callbacks[0] in ws[k].client.callbacks;
    e :| 0 <= e < k && EndedAt(ws, ls, e) && |ws[e + 1].client.queue| == 0;
  }

  // ----- The other joined calls ------------------------------------------------------------------

  lemma NoRequestStep(w: World, s: Label, l: Limits)
    requires Enabled(w, s) && !s.CrashStep? && w.client.followUp.None? && !Joins(w.client, s)
    ensures var c, c' := w.client, Do(w, s, l).client;
            c'.followUp == None && (s.ResumeStep? ==> c' == c.(callbacks := c.callbacks[1..]))
  {
  }

  /**
   * Only one of the calls that joined makes the request: once it has gone on, every other one that goes on before
   * another call joins just returns.
   */
  lemma OthersReturn(ws: seq<World>, ls: seq<Label>, l: Limits, a: nat, b: nat)
    requires IsRun(ws, ls, l) && NoCrash(ls) && a < b < |ls| && ls[b].ResumeStep?
    requires ls[a].ResumeStep? && forall k :: a <= k < b ==> !Joins(ws[k].client, ls[k])
    ensures ws[b + 1].client == ws[b].client.(callbacks := ws[b].client.callbacks[1..])
  {
    NoRequestLeft(ws, ls, l, a, b);
    NoRequestStep(ws[b], ls[b], l);
  }

  lemma {:induction false} NoRequestLeft(ws: seq<World>, ls: seq<Label>, l: Limits, a: nat, b: nat)
    requires IsRun(ws, ls, l) && NoCrash(ls) && a < b <= |ls|
    requires ls[a].ResumeStep? && forall k :: a <= k < b ==> !Joins(ws[k].client, ls[k])
    ensures ws[b].client.followUp == None
    decreases b
  {
    var w, s := ws[b - 1], ls[b - 1];
    if b - 1 > a {
      NoRequestLeft(ws, ls, l, a, b - 1);
      NoRequestStep(w, s, l);
    } else if w.client.followUp.Some? {
      assert w.client.callbacks != [];
    } else {
      NoRequestStep(w, s, l);
    }
  }
}
