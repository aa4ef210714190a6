/** Why the outbox gives up an event: a failed write, age, the limits, or a record that does not validate. */
module DeliveryLosses {
  import opened Events
  import opened Outbox
  import opened Delivery
  import opened DeliverySafety
  import opened DeliveryRuns

  // ----- The reasons -----------------------------------------------------------------------------

  /** At a save, the newer entries kept before this one had used up the count or the bytes. */
  ghost predicate Crowded(c: seq<Stored>, l: Limits, x: Stored) {
    exists i :: 0 <= i < |c| && c[i] == x && NoRoomAt(c, l, i)
  }

  ghost predicate NoRoomAt(c: seq<Stored>, l: Limits, i: nat)
    requires i < |c|
  {
    var newer := RetainNewest(c[i + 1..], l);
    |newer| >= l.maxEvents || Size(newer) + c[i].record.event.bytes > l.maxBytes
  }

  /** A save gives up an entry it merged: it is too old or exhausted, or crowded out. */
  ghost predicate SaveGivesUp(listed: seq<Stored>, records: seq<Record>, now: int, l: Limits, x: Stored) {
    && records != [] && x in Merged(listed, SCOPE, records, now)
    && (LiveAt(x, l.ttlMs, now) ==> Crowded(Outbox.Candidates(listed, SCOPE, records, now, l.ttlMs), l, x))
  }

  /** The step makes the outbox give up the event. */
  ghost predicate GivenUp(w: World, s: Label, l: Limits, id: nat) {
    match s
    case WriteFailsStep =>
      && w.client.pending != [] && w.client.pending[0].Save? && id in Ids(w.client.pending[0].records)
      && id !in StoredIds(w.durable)
    case WriteStep(now, listed) =>
      && w.client.pending != [] && w.client.pending[0].Save?
      && exists x :: IdOf(x) == id && SaveGivesUp(listed, w.client.pending[0].records, now, l, x)
    case LoadStep(now, _) => exists x :: x in w.durable && IdOf(x) == id && !Loadable(x, l.ttlMs, now)
    case FinishStartupStep(removed) => removed && w.client.startup.Clearing? && id in w.client.startup.ids
    case _ => false
  }

  /**
   * By the `n`-th step the outbox has given the event up for good: an earlier step of this page's life did, and
   * the event has not been stored since. A step that cleared it away had been told that it does not validate.
   */
  ghost predicate GaveUp(ws: seq<World>, ls: seq<Label>, l: Limits, id: nat, n: nat)
    requires |ws| == |ls| + 1 && n <= |ls|
  {
    exists i :: GivenUpSince(ws, ls, l, id, i, n)
  }

  ghost predicate GivenUpSince(ws: seq<World>, ls: seq<Label>, l: Limits, id: nat, i: nat, n: nat)
    requires |ws| == |ls| + 1 && n <= |ls|
  {
    && i < n && GivenUp(ws[i], ls[i], l, id) && (ls[i].FinishStartupStep? ==> FoundInvalid(ls, i, id))
    && (forall k :: i < k <= n ==> id !in StoredIds(ws[k].durable))
    && (forall k :: i <= k < n ==> !ls[k].CrashStep?)
  }

  ghost predicate FoundInvalid(ls: seq<Label>, i: nat, id: nat)
    requires i <= |ls|
  {
    exists j :: 0 <= j < i && ls[j].RestoreStep? && id in ls[j].invalid
  }

  // ----- One step --------------------------------------------------------------------------------

  /** A candidate is not kept exactly when it is crowded out. */
  lemma CrowdedOut(c: seq<Stored>, l: Limits, x: Stored)
    requires UniqueIds(c) && x in c
    ensures Crowded(c, l, x) <==> x !in RetainNewest(c, l)
  {
    var k :| 0 <= k < |c| && c[k] == x;
    RetainedExactly(c, l, k);
    assert NoRoomAt(c, l, k) <==> x !in RetainNewest(c, l);
    forall i | 0 <= i < |c| && c[i] == x ensures i == k {
    }
  }

  /** A merged entry is not kept exactly when it is too old, exhausted or crowded out. */
  lemma SaveGivesUpExactly(listed: seq<Stored>, records: seq<Record>, now: int, l: Limits, x: Stored)
    requires UniqueIds(listed) && records != [] && x in Merged(listed, SCOPE, records, now)
    ensures SaveGivesUp(listed, records, now, l, x) <==> x !in SaveSpec(listed, SCOPE, records, now, l).retained
  {
    var c := Outbox.Candidates(listed, SCOPE, records, now, l.ttlMs);
    CandidatesMeaning(listed, SCOPE, records, now, l.ttlMs);
    if LiveAt(x, l.ttlMs, now) { CrowdedOut(c, l, x); } else { RetainMeaning(c, l); }
  }

  lemma SaveLoses(listed: seq<Stored>, records: seq<Record>, now: int, l: Limits, id: nat)
    requires UniqueIds(listed) && (forall s :: s in listed ==> s.scope == SCOPE)
    ensures (id in StoredIds(listed) + Ids(records) && id !in StoredIds(SaveSpec(listed, SCOPE, records, now, l).retained))
            <==> exists x :: IdOf(x) == id && SaveGivesUp(listed, records, now, l, x)
  {
    if records == [] { return; }
    var m := Merged(listed, SCOPE, records, now);
    var kept := SaveSpec(listed, SCOPE, records, now, l).retained;
    MergedMeaning(listed, SCOPE, records, now);
    RetainedIn(listed, records, now, l);
    StoredIdsOf(listed, id);
    assert HasId(m, id) <==> id in StoredIds(listed) + Ids(records);
    if x :| x in m && IdOf(x) == id {
      SaveGivesUpExactly(listed, records, now, l, x);
      OnlyOne(m, x, id);
      assert id in StoredIds(kept) <==> x in kept;
    }
  }

  lemma RetainedIn(listed: seq<Stored>, records: seq<Record>, now: int, l: Limits)
    requires UniqueIds(listed) && records != []
    ensures forall x :: x in SaveSpec(listed, SCOPE, records, now, l).retained ==> x in Merged(listed, SCOPE, records, now)
  {
    CandidatesMeaning(listed, SCOPE, records, now, l.ttlMs);
    RetainMeaning(Outbox.Candidates(listed, SCOPE, records, now, l.ttlMs), l);
  }

  lemma OnlyOne(m: seq<Stored>, x: Stored, id: nat)
    requires UniqueIds(m) && x in m && IdOf(x) == id
    ensures forall y :: y in m && IdOf(y) == id ==> y == x
  {
  }

  /** After a step an event is lost exactly when the step gave it up, or it was lost and is still not stored. */
  lemma LossesExactly(w: World, s: Label, l: Limits, id: nat)
    requires Inv(w, l) && Enabled(w, s) && !s.CrashStep?
    ensures var w' := Do(w, s, l);
            && (id in w'.lost <==> GivenUp(w, s, l, id) || (id in w.lost && id !in StoredIds(w'.durable)))
            && (GivenUp(w, s, l, id) ==> id !in StoredIds(w'.durable))
  {
    match s
    case WriteStep(now, listed) =>
      match w.client.pending[0] {
        case Save(_) => SaveLossesExactly(w, now, listed, l, id);
        case Remove(ids) => WithoutIdsMeaning(w.durable, IdSet(ids));
      }
    case LoadStep(now, listed) => LoadLossesExactly(w, now, listed, l, id);
    case FinishRemovalStep(k, _) => WithoutIdsMeaning(w.durable, Ids(w.client.ops[k].records));
    case FinishStartupStep(_) => WithoutIdsMeaning(w.durable, w.client.startup.ids);
    case _ =>
  }

  lemma SaveLossesExactly(w: World, now: int, listed: seq<Stored>, l: Limits, id: nat)
    requires Inv(w, l) && Enabled(w, WriteStep(now, listed)) && w.client.pending[0].Save?
    ensures var w' := Do(w, WriteStep(now, listed), l);
            && (id in w'.lost <==> GivenUp(w, WriteStep(now, listed), l, id) || (id in w.lost && id !in StoredIds(w'.durable)))
            && (GivenUp(w, WriteStep(now, listed), l, id) ==> id !in StoredIds(w'.durable))
  {
    var records := w.client.pending[0].records;
    UniqueIdsPermuted(w.durable, listed);
    SameStored(w.durable, listed);
    SaveLoses(listed, records, now, l, id);
  }

  lemma SameStored(a: seq<Stored>, b: seq<Stored>)
    requires multiset(a) == multiset(b)
    ensures (forall x :: x in a <==> x in b) && StoredIds(a) == StoredIds(b)
  {
    assert forall x :: x in a <==> x in multiset(a);
    assert forall x :: x in b <==> x in multiset(b);
  }

  lemma LoadLossesExactly(w: World, now: int, listed: seq<Stored>, l: Limits, id: nat)
    requires Inv(w, l) && Enabled(w, LoadStep(now, listed))
    ensures var w' := Do(w, LoadStep(now, listed), l);
            && (id in w'.lost <==> GivenUp(w, LoadStep(now, listed), l, id) || (id in w.lost && id !in StoredIds(w'.durable)))
            && (GivenUp(w, LoadStep(now, listed), l, id) ==> id !in StoredIds(w'.durable))
  {
    UniqueIdsPermuted(w.durable, listed);
    SameStored(w.durable, listed);
    LoadableMeaning(listed, l.ttlMs, now);
    var kept := LoadableOnly(listed, l.ttlMs, now);
    if x :| x in w.durable && IdOf(x) == id {
      OnlyOne(w.durable, x, id);
      assert id in StoredIds(kept) <==> Loadable(x, l.ttlMs, now);
    }
  }

  // ----- Every run -------------------------------------------------------------------------------

  /** What is being cleared away at startup did not validate. */
  lemma {:induction false} ClearedWereInvalid(ws: seq<World>, ls: seq<Label>, l: Limits, id: nat)
    requires IsRun(ws, ls, l) && !ws[0].client.startup.Clearing?
    requires ws[|ls|].client.startup.Clearing? && id in ws[|ls|].client.startup.ids
    ensures FoundInvalid(ls, |ls|, id)
    decreases |ls|
  {
    var n := |ls| - 1;
    if ws[n].client.startup.Clearing? {
      ClearingStays(ws[n], ls[n], l);
      ClearedWereInvalid(ws[..n + 1], ls[..n], l, id);
      var j :| 0 <= j < n && ls[..n][j].RestoreStep? && id in ls[..n][j].invalid;
      assert ls[j].RestoreStep? && id in ls[j].invalid;
    } else {
      ClearingBegins(ws[n], ls[n], l);
    }
  }

  lemma ClearingStays(w: World, s: Label, l: Limits)
    requires Enabled(w, s) && w.client.startup.Clearing? && Do(w, s, l).client.startup.Clearing?
    ensures Do(w, s, l).client.startup == w.client.startup
  {
  }

  lemma ClearingBegins(w: World, s: Label, l: Limits)
    requires Enabled(w, s) && !w.client.startup.Clearing? && Do(w, s, l).client.startup.Clearing?
    ensures s.RestoreStep? && Do(w, s, l).client.startup.ids <= s.invalid
  {
  }

  /** The ledger of a reachable state holds exactly what some step gave up and nothing has stored since. */
  lemma LedgerIsExact(durable: seq<Stored>, known: set<nat>, l: Limits, ws: seq<World>, ls: seq<Label>, id: nat, n: nat)
    requires PageRun(durable, known, l, ws, ls) && n <= |ls|
    ensures id in ws[n].lost <==> GaveUp(ws, ls, l, id, n)
  {
    if id in ws[n].lost {
      var i := LostSince(durable, known, l, ws, ls, id, n);
      if ls[i].FinishStartupStep? { ClearedAt(ws, ls, l, i, id); }
      assert GivenUpSince(ws, ls, l, id, i, n);
    }
    if i: nat :| GivenUpSince(ws, ls, l, id, i, n) {
      StaysLost(durable, known, l, ws, ls, id, i, n);
    }
  }

  /** The step that gave up what is lost now. */
  lemma {:induction false} LostSince(durable: seq<Stored>, known: set<nat>, l: Limits, ws: seq<World>, ls: seq<Label>, id: nat, n: nat)
    returns (i: nat)
    requires PageRun(durable, known, l, ws, ls) && n <= |ls| && id in ws[n].lost
    ensures i < n && GivenUp(ws[i], ls[i], l, id)
    ensures forall k :: i < k <= n ==> id !in StoredIds(ws[k].durable)
    ensures forall k :: i <= k < n ==> !ls[k].CrashStep?
    decreases n
  {
    LostNow(durable, known, l, ws, ls, id, n);
    if GivenUp(ws[n - 1], ls[n - 1], l, id) {
      i := n - 1;
    } else {
      i := LostSince(durable, known, l, ws, ls, id, n - 1);
    }
  }

  lemma LostNow(durable: seq<Stored>, known: set<nat>, l: Limits, ws: seq<World>, ls: seq<Label>, id: nat, n: nat)
    requires PageRun(durable, known, l, ws, ls) && n <= |ls| && id in ws[n].lost
    ensures n > 0 && !ls[n - 1].CrashStep? && id !in StoredIds(ws[n].durable)
    ensures GivenUp(ws[n - 1], ls[n - 1], l, id) || id in ws[n - 1].lost
  {
    LostIsNotStored(durable, known, l, ws, ls, id, n);
    ReachedIsSafe(durable, known, l, ws, ls, n - 1);
    NowLost(ws[n - 1], ls[n - 1], l, id);
  }

  lemma LostIsNotStored(durable: seq<Stored>, known: set<nat>, l: Limits, ws: seq<World>, ls: seq<Label>, id: nat, n: nat)
    requires PageRun(durable, known, l, ws, ls) && n <= |ls| && id in ws[n].lost
    ensures n > 0 && id !in StoredIds(ws[n].durable)
  {
    ReachedIsSafe(durable, known, l, ws, ls, n);
  }

  lemma NowLost(w: World, s: Label, l: Limits, id: nat)
    requires Inv(w, l) && Enabled(w, s) && id in Do(w, s, l).lost
    ensures !s.CrashStep? && (GivenUp(w, s, l, id) || id in w.lost)
  {
    if !s.CrashStep? { LossesExactly(w, s, l, id); }
  }

  lemma {:induction false} StaysLost(durable: seq<Stored>, known: set<nat>, l: Limits, ws: seq<World>, ls: seq<Label>,
                                     id: nat, i: nat, n: nat)
    requires PageRun(durable, known, l, ws, ls) && i < n <= |ls| && GivenUp(ws[i], ls[i], l, id)
    requires forall k :: i < k <= n ==> id !in StoredIds(ws[k].durable)
    requires forall k :: i <= k < n ==> !ls[k].CrashStep?
    ensures id in ws[n].lost
    decreases n
  {
    ReachedIsSafe(durable, known, l, ws, ls, n - 1);
    if n > i + 1 { StaysLost(durable, known, l, ws, ls, id, i, n - 1); }
    StillLost(ws[n - 1], ls[n - 1], l, id);
  }

  lemma StillLost(w: World, s: Label, l: Limits, id: nat)
    requires Inv(w, l) && Enabled(w, s) && !s.CrashStep?
    ensures (GivenUp(w, s, l, id) || id in w.lost) && id !in StoredIds(Do(w, s, l).durable) ==> id in Do(w, s, l).lost
  {
    LossesExactly(w, s, l, id);
  }

  lemma ClearedAt(ws: seq<World>, ls: seq<Label>, l: Limits, i: nat, id: nat)
    requires IsRun(ws, ls, l) && !ws[0].client.startup.Clearing? && i < |ls|
    requires ls[i].FinishStartupStep? && GivenUp(ws[i], ls[i], l, id)
    ensures FoundInvalid(ls, i, id)
  {
    ClearedWereInvalid(ws[..i + 1], ls[..i], l, id);
    FoundEarlier(ls, i, id);
  }

  lemma FoundEarlier(ls: seq<Label>, i: nat, id: nat)
    requires i <= |ls| && FoundInvalid(ls[..i], i, id)
    ensures FoundInvalid(ls, i, id)
  {
    var j :| 0 <= j < i && ls[..i][j].RestoreStep? && id in ls[..i][j].invalid;
    assert ls[j].RestoreStep? && id in ls[j].invalid;
  }
}
