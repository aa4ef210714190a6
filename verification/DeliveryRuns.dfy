/** Runs of the delivery protocol, from the start of a page on. */
module DeliveryRuns {
  import opened Outbox
  import opened Delivery
  import opened DeliverySafety

  /** What an earlier life of the page may have left behind. */
  ghost predicate Leftover(durable: seq<Stored>, l: Limits) {
    && UniqueIds(durable) && (forall s :: s in durable ==> s.scope == SCOPE)
    && |durable| <= l.maxEvents && Size(durable) <= l.maxBytes
  }

  /** `ws` is the run that takes the steps `ls` one after the other. */
  ghost predicate IsRun(ws: seq<World>, ls: seq<Label>, l: Limits) {
    && |ws| == |ls| + 1
    && forall i :: 0 <= i < |ls| ==> Enabled(ws[i], ls[i]) && ws[i + 1] == Do(ws[i], ls[i], l)
  }

  /** A run from a page's start with what an earlier one left, and whatever ids were known by then. */
  ghost predicate PageRun(durable: seq<Stored>, known: set<nat>, l: Limits, ws: seq<World>, ls: seq<Label>) {
    ValidLimits(l) && Leftover(durable, l) && IsRun(ws, ls, l) && ws[0] == Start(durable, known)
  }

  ghost predicate NoCrash(ls: seq<Label>) { forall i :: 0 <= i < |ls| ==> !ls[i].CrashStep? }

  /** The invariant holds at every point of a run that starts in it. */
  lemma {:induction false} RunKeepsInvariant(ws: seq<World>, ls: seq<Label>, l: Limits, i: nat)
    requires IsRun(ws, ls, l) && Inv(ws[0], l) && i <= |ls|
    ensures Inv(ws[i], l)
    decreases i
  {
    if i > 0 {
      RunKeepsInvariant(ws, ls, l, i - 1);
      StepPreserves(ws[i - 1], ls[i - 1], l);
    }
  }

  /** So it holds in every reachable state. */
  lemma ReachedIsSafe(durable: seq<Stored>, known: set<nat>, l: Limits, ws: seq<World>, ls: seq<Label>, i: nat)
    requires PageRun(durable, known, l, ws, ls) && i <= |ls|
    ensures Inv(ws[i], l)
  {
    StartIsSafe(durable, known, l);
    RunKeepsInvariant(ws, ls, l, i);
  }

  /** One step more is a run again. */
  lemma RunGrows(ws: seq<World>, ls: seq<Label>, l: Limits, s: Label)
    requires IsRun(ws, ls, l) && Enabled(ws[|ls|], s)
    ensures IsRun(ws + [Do(ws[|ls|], s, l)], ls + [s], l)
  {
  }

  /** What a state leaves to the next life of the page. */
  lemma SafeStateLeaves(w: World, l: Limits)
    requires Inv(w, l)
    ensures Leftover(w.durable, l)
  {
  }
}
