/** What a drain takes, what it leaves, and how delivery attempts run out. */
module QueueDelivery {
  import opened Events
  import opened Lists
  import opened EventQueues
  import opened QueueProperties

  ghost predicate DistinctPositions(s: seq<nat>) {
    forall a, b :: 0 <= a < b < |s| ==> s[a] != s[b]
  }

  // ----- The urgent selection --------------------------------------------------------------------

  /**
   * The selection is exactly: every urgent record, and each batch record that some later urgent record of
   * the same session and page, at most ten seconds younger, has fewer than eight related records after.
   * Urgent positions come first, each group in queue order, nothing twice.
   */
  lemma SelectionIsExact(q: seq<Record>)
    ensures var s := UrgentSelection(q); var u := |UrgentBelow(q, |q|)|;
            && (forall i: nat :: i in s <==> IsUrgent(q, i) || IsContext(q, i))
            && DistinctPositions(s)
            && (forall a :: 0 <= a < |s| ==> (a < u <==> IsUrgent(q, s[a])))
            && Ascending(s[..u]) && Ascending(s[u..])
  {
    UrgentBelowMeaning(q, |q|);
    ContextBelowMeaning(q, |q|);
    var s, urgent, context := UrgentSelection(q), UrgentBelow(q, |q|), ContextBelow(q, |q|);
    assert s[..|urgent|] == urgent && s[|urgent|..] == context;
    forall a | 0 <= a < |s| ensures a < |urgent| <==> IsUrgent(q, s[a]) {
      if a < |urgent| {
        assert s[a] == urgent[a] && urgent[a] in urgent;
      } else {
        assert s[a] == context[a - |urgent|] && context[a - |urgent|] in context;
      }
    }
  }

  /** A batch record of the same session and page as the other and at most ten seconds older. */
  ghost predicate LeadsUpTo(b: Record, u: Record) {
    && b.priority == Batch && b.event.session.Some? && b.event.page.Some?
    && u.event.session == b.event.session && u.event.page == b.event.page
    && b.event.timestamp <= u.event.timestamp <= b.event.timestamp + 10_000
  }

  /** The positions between `i` and `j` of records that lead up to the one at `j`. */
  ghost function LeadingUp(q: seq<Record>, i: nat, j: nat): set<nat>
    requires i <= j < |q|
  {
    set k: nat | i <= k < j && LeadsUpTo(q[k], q[j])
  }

  lemma {:induction false} RelatedAreCounted(q: seq<Record>, i: nat, j: nat)
    requires i <= j < |q|
    ensures RelatedIn(q, i, j) == |LeadingUp(q, i, j)|
    decreases j - i
  {
    if i < j {
      RelatedAreCounted(q, i + 1, j);
      assert Relates(q[i], q[j]) <==> LeadsUpTo(q[i], q[j]);
      assert LeadingUp(q, i, j) == LeadingUp(q, i + 1, j) + if Relates(q[i], q[j]) then {i} else {};
    } else {
      assert LeadingUp(q, i, j) == {};
    }
  }

  /**
   * What is looked at for an urgent drain, in the events' own fields: what is urgent, and the last eight batch records
   * that lead up to it; for any other drain, everything.
   */
  lemma SelectionInFields(q: seq<Record>, i: nat)
    requires i < |q|
    ensures i in Candidates(q, Some(Immediate))
            <==> q[i].priority == Immediate
                 || exists j :: i < j < |q| && q[j].priority == Immediate && LeadsUpTo(q[i], q[j]) && |LeadingUp(q, i + 1, j)| < 8
    ensures i in Candidates(q, None) && i in Candidates(q, Some(Batch))
  {
    SelectionIsExact(q);
    assert AllBelow(|q|)[i] == i;
    forall j | i < j < |q|
      ensures ContextOf(q, i, j) <==> q[j].priority == Immediate && LeadsUpTo(q[i], q[j]) && |LeadingUp(q, i + 1, j)| < 8
    {
      RelatedAreCounted(q, i + 1, j);
    }
  }

  lemma SelectionDistinct(q: seq<Record>, priority: Option<Priority>)
    ensures DistinctPositions(Candidates(q, priority))
  {
    SelectionIsExact(q);
  }

  // ----- Partition and packing -------------------------------------------------------------------

  /** The positions below `n` that are (or are not) in `chosen`, ascending. */
  function Positions(chosen: seq<nat>, n: nat, wanted: bool): seq<nat> {
    if n == 0 then []
    else Positions(chosen, n - 1, wanted) + (if (n - 1 in chosen) == wanted then [n - 1] else [])
  }

  lemma {:induction false} PositionsMeaning(chosen: seq<nat>, n: nat, wanted: bool)
    ensures var p := Positions(chosen, n, wanted);
            && InRange(p, n) && Ascending(p)
            && forall i: nat :: i in p <==> i < n && (i in chosen) == wanted
  {
    if n > 0 { PositionsMeaning(chosen, n - 1, wanted); }
  }

  lemma {:induction false} PickAtPositions(q: seq<Record>, chosen: seq<nat>, wanted: bool)
    ensures var p := Positions(chosen, |q|, wanted);
            InRange(p, |q|) && Pick(q, chosen, wanted) == At(q, p)
  {
    PositionsMeaning(chosen, |q|, wanted);
    if q != [] {
      PickAtPositions(q[..|q| - 1], chosen, wanted);
      PositionsMeaning(chosen, |q| - 1, wanted);
      AtLonger(q, Positions(chosen, |q| - 1, wanted));
    }
  }

  lemma AtLonger(q: seq<Record>, p: seq<nat>)
    requires q != [] && InRange(p, |q| - 1)
    ensures InRange(p + [|q| - 1], |q|)
    ensures At(q, p) == At(q[..|q| - 1], p)
    ensures At(q, p + [|q| - 1]) == At(q, p) + [q[|q| - 1]]
    ensures p + [] == p && At(q, p) + [] == At(q, p)
  {
  }

  /** Drained and retained records are the queue split by position, both still in queue order. */
  lemma DrainPartitions(q: seq<Record>, limit: nat, maximumBytes: nat, priority: Option<Priority>, now: nat)
    ensures var d := DrainSpec(q, limit, maximumBytes, priority, now);
            var chosen := Chosen(q, limit, maximumBytes, priority, now);
            var gone, kept := Positions(chosen, |q|, true), Positions(chosen, |q|, false);
            && InRange(gone, |q|) && InRange(kept, |q|) && Ascending(gone) && Ascending(kept)
            && d.drained == At(q, gone) && d.queue == At(q, kept)
            && (forall i: nat :: i < |q| ==> (i in gone <==> i !in kept))
            && (forall i :: i in gone ==> i in Candidates(q, priority))
            && multiset(d.drained) + multiset(d.queue) == multiset(q)
  {
    var chosen := Chosen(q, limit, maximumBytes, priority, now);
    PickAtPositions(q, chosen, true);
    PickAtPositions(q, chosen, false);
    PositionsMeaning(chosen, |q|, true);
    PositionsMeaning(chosen, |q|, false);
    PickConserves(q, chosen);
    CandidatesInRange(q, priority);
    PackedFromCandidates(q, Candidates(q, priority), limit, maximumBytes, now);
  }

  lemma {:induction false} PickConserves(q: seq<Record>, chosen: seq<nat>)
    ensures multiset(Pick(q, chosen, true)) + multiset(Pick(q, chosen, false)) == multiset(q)
  {
    if q != [] {
      var front, last := q[..|q| - 1], q[|q| - 1];
      PickConserves(front, chosen);
      OneMoreLast(last, Pick(front, chosen, true), Pick(front, chosen, false), front);
      FrontAndLast(q);
    }
  }

  lemma {:induction false} PackedFromCandidates(q: seq<Record>, c: seq<nat>, limit: nat, maximumBytes: nat, now: nat)
    requires InRange(c, |q|)
    ensures var taken := Pack(q, c, limit, maximumBytes, now);
            && |taken| <= limit
            && (forall i :: i in taken ==> i in c)
            && (taken != [] ==> EnvelopeBytes(now, At(q, taken)) <= maximumBytes)
  {
    if c != [] {
      var n := |c| - 1;
      PackedFromCandidates(q, c[..n], limit, maximumBytes, now);
      assert c == c[..n] + [c[n]];
    }
  }

  lemma {:induction false} PackedDistinct(q: seq<Record>, c: seq<nat>, limit: nat, maximumBytes: nat, now: nat)
    requires InRange(c, |q|)
    requires DistinctPositions(c)
    ensures DistinctPositions(Pack(q, c, limit, maximumBytes, now))
  {
    if c != [] {
      var n := |c| - 1;
      PackedDistinct(q, c[..n], limit, maximumBytes, now);
      PackedFromCandidates(q, c[..n], limit, maximumBytes, now);
      var taken := Pack(q, c[..n], limit, maximumBytes, now);
      assert forall a :: 0 <= a < |taken| ==> taken[a] in c[..n];
    }
  }

  lemma {:induction false} PickOneMore(q: seq<Record>, chosen: seq<nat>, i: nat)
    requires i !in chosen
    ensures multiset(Pick(q, chosen + [i], true))
            == multiset(Pick(q, chosen, true)) + if i < |q| then multiset{q[i]} else multiset{}
  {
    if q != [] {
      var n := |q| - 1;
      PickOneMore(q[..n], chosen, i);
      assert n in chosen + [i] <==> n in chosen || n == i;
      assert Pick(q, chosen + [i], true) == Pick(q[..n], chosen + [i], true) + if n in chosen + [i] then [q[n]] else [];
    }
  }

  lemma {:induction false} PickNone(q: seq<Record>)
    ensures Pick(q, [], true) == [] && Pick(q, [], false) == q
  {
    if q != [] {
      PickNone(q[..|q| - 1]);
    }
  }

  /** Taking by position in queue order yields the same records as the list of chosen positions. */
  lemma {:induction false} PickPermutes(q: seq<Record>, chosen: seq<nat>)
    requires InRange(chosen, |q|)
    requires DistinctPositions(chosen)
    ensures multiset(Pick(q, chosen, true)) == multiset(At(q, chosen))
  {
    if chosen == [] {
      PickNone(q);
    } else {
      var n := |chosen| - 1;
      PickPermutes(q, chosen[..n]);
      PickOneMore(q, chosen[..n], chosen[n]);
      assert chosen == chosen[..n] + [chosen[n]];
      assert At(q, chosen) == At(q, chosen[..n]) + [q[chosen[n]]];
    }
  }

  /** The serialised size of an envelope does not depend on the order of its items. */
  lemma EnvelopePermuted(now: nat, a: seq<Record>, b: seq<Record>)
    requires multiset(a) == multiset(b)
    ensures EnvelopeBytes(now, a) == EnvelopeBytes(now, b)
  {
    BytesPermuted(a, b);
  }

  lemma DrainedMatchesPacked(q: seq<Record>, limit: nat, maximumBytes: nat, priority: Option<Priority>, now: nat)
    ensures var chosen := Chosen(q, limit, maximumBytes, priority, now);
            multiset(DrainSpec(q, limit, maximumBytes, priority, now).drained) == multiset(At(q, chosen))
  {
    CandidatesInRange(q, priority);
    SelectionDistinct(q, priority);
    PackedDistinct(q, Candidates(q, priority), limit, maximumBytes, now);
    PickPermutes(q, Chosen(q, limit, maximumBytes, priority, now));
  }

  /**
   * What flush sends has the size the drain measured, whatever the item order, but for the width of the two
   * clock readings. With clocks of the same width the transport's size guards never fire on it.
   */
  lemma DrainedEnvelopeFits(q: seq<Record>, limit: nat, maximumBytes: nat, priority: Option<Priority>, now: nat, sentAt: nat)
    ensures var d := DrainSpec(q, limit, maximumBytes, priority, now);
            && |d.drained| <= limit
            && (d.drained != [] ==> EnvelopeBytes(sentAt, d.drained) <= maximumBytes + Digits(sentAt) - Digits(now))
  {
    CandidatesInRange(q, priority);
    var chosen := Chosen(q, limit, maximumBytes, priority, now);
    PackedFromCandidates(q, Candidates(q, priority), limit, maximumBytes, now);
    DrainedMatchesPacked(q, limit, maximumBytes, priority, now);
    var d := DrainSpec(q, limit, maximumBytes, priority, now);
    EnvelopePermuted(now, d.drained, At(q, chosen));
    assert |multiset(d.drained)| == |multiset(At(q, chosen))|;
  }

  lemma BytesOfPrefix(q: seq<Record>, taken: seq<nat>, all: seq<nat>, i: nat)
    requires InRange(all, |q|) && taken <= all && i < |q|
    ensures EnvelopeBytes(0, At(q, taken + [i])) <= EnvelopeBytes(0, At(q, all + [i]))
  {
    var more := all[|taken|..];
    assert At(q, taken + [i]) == At(q, taken) + [q[i]];
    assert At(q, all + [i]) == At(q, taken) + At(q, more) + [q[i]];
    BytesAppend(At(q, taken), [q[i]]);
    BytesAppend(At(q, taken) + At(q, more), [q[i]]);
    BytesAppend(At(q, taken), At(q, more));
  }

  lemma {:induction false} PackMaximal(q: seq<Record>, c: seq<nat>, limit: nat, maximumBytes: nat, now: nat, i: nat)
    requires InRange(c, |q|) && i in c
    requires var taken := Pack(q, c, limit, maximumBytes, now); i !in taken && |taken| < limit
    ensures i < |q|
    ensures EnvelopeBytes(now, At(q, Pack(q, c, limit, maximumBytes, now) + [i])) > maximumBytes
  {
    var n := |c| - 1;
    var before := Pack(q, c[..n], limit, maximumBytes, now);
    var taken := Pack(q, c, limit, maximumBytes, now);
    if i != c[n] {
      assert i in c[..n];
      assert i !in before;
      PackMaximal(q, c[..n], limit, maximumBytes, now, i);
    }
    BytesOfPrefix(q, before, taken, i);
  }

  /** Draining is maximal: if the count limit was not reached, no candidate left behind still fits. */
  lemma DrainIsMaximal(q: seq<Record>, limit: nat, maximumBytes: nat, priority: Option<Priority>, now: nat, i: nat)
    requires i in Candidates(q, priority) && i !in Chosen(q, limit, maximumBytes, priority, now)
    requires |DrainSpec(q, limit, maximumBytes, priority, now).drained| < limit
    ensures i < |q|
    ensures EnvelopeBytes(now, DrainSpec(q, limit, maximumBytes, priority, now).drained + [q[i]]) > maximumBytes
  {
    CandidatesInRange(q, priority);
    var chosen := Chosen(q, limit, maximumBytes, priority, now);
    var drained := DrainSpec(q, limit, maximumBytes, priority, now).drained;
    DrainedMatchesPacked(q, limit, maximumBytes, priority, now);
    assert |multiset(drained)| == |multiset(At(q, chosen))|;
    PackMaximal(q, Candidates(q, priority), limit, maximumBytes, now, i);
    assert At(q, chosen + [i]) == At(q, chosen) + [q[i]];
    EnvelopePermuted(now, drained + [q[i]], At(q, chosen) + [q[i]]);
  }

  // ----- Context never displaces urgency ---------------------------------------------------------

  lemma {:induction false} PackAppend(q: seq<Record>, a: seq<nat>, b: seq<nat>, limit: nat, maximumBytes: nat, now: nat)
    requires InRange(a, |q|) && InRange(b, |q|)
    ensures var first := Pack(q, a, limit, maximumBytes, now); var all := Pack(q, a + b, limit, maximumBytes, now);
            first <= all && forall k :: |first| <= k < |all| ==> all[k] in b
  {
    if b == [] {
      assert a + b == a;
    } else {
      var n := |b| - 1;
      PackAppend(q, a, b[..n], limit, maximumBytes, now);
      assert (a + b)[..|a + b| - 1] == a + b[..n];
    }
  }

  lemma {:induction false} PackByValue(q: seq<Record>, c: seq<nat>, u: seq<Record>, e: seq<nat>, limit: nat, maximumBytes: nat, now: nat)
    requires InRange(c, |q|) && InRange(e, |u|)
    requires At(q, c) == At(u, e)
    ensures At(q, Pack(q, c, limit, maximumBytes, now)) == At(u, Pack(u, e, limit, maximumBytes, now))
  {
    assert |c| == |At(q, c)| == |At(u, e)| == |e|;
    if c != [] {
      var n := |c| - 1;
      assert At(q, c)[n] == q[c[n]] && At(u, e)[n] == u[e[n]];
      assert At(q, c[..n]) == At(q, c)[..n] && At(u, e[..n]) == At(u, e)[..n];
      PackByValue(q, c[..n], u, e[..n], limit, maximumBytes, now);
      var p, r := Pack(q, c[..n], limit, maximumBytes, now), Pack(u, e[..n], limit, maximumBytes, now);
      assert |p| == |At(q, p)| == |At(u, r)| == |r|;
      assert At(q, p + [c[n]]) == At(q, p) + [q[c[n]]];
      assert At(u, r + [e[n]]) == At(u, r) + [u[e[n]]];
    }
  }

  lemma {:induction false} UrgentBelowIsFilter(q: seq<Record>, n: nat)
    requires n <= |q|
    ensures InRange(UrgentBelow(q, n), |q|)
    ensures At(q, UrgentBelow(q, n)) == OfPriority(q[..n], Immediate)
  {
    UrgentBelowMeaning(q, n);
    if n > 0 {
      UrgentBelowIsFilter(q, n - 1);
      assert q[..n] == q[..n - 1] + [q[n - 1]];
      OfPriorityAppend(q[..n - 1], [q[n - 1]], Immediate);
    }
  }

  lemma {:induction false} UrgentOnlyCandidates(u: seq<Record>, n: nat)
    requires n <= |u| && forall r :: r in u ==> r.priority == Immediate
    ensures UrgentBelow(u, n) == AllBelow(n) && ContextBelow(u, n) == []
  {
    if n > 0 {
      UrgentOnlyCandidates(u, n - 1);
      assert u[n - 1] in u;
    }
  }

  ghost predicate UrgentChosen(l: seq<nat>, q: seq<Record>, chosen: seq<nat>) {
    Ascending(l) && InRange(l, |q|) && forall i: nat :: i in l <==> i in chosen && IsUrgent(q, i)
  }

  /** The last of some ascending positions is the largest. */
  lemma LargestIsLast(l: seq<nat>, n: nat)
    requires Ascending(l) && InRange(l, n + 1) && n in l
    ensures l[|l| - 1] == n && InRange(l[..|l| - 1], n)
    ensures forall i: nat :: i in l[..|l| - 1] <==> i in l && i < n
  {
    var k :| 0 <= k < |l| && l[k] == n;
    var last := |l| - 1;
    assert forall j :: 0 <= j < |l| ==> l[j] <= l[last];
    var front := l[..last];
    forall j | 0 <= j < last ensures front[j] < n && front[j] in l {
      assert front[j] == l[j] && l[j] < l[last];
    }
    forall i: nat | i in l && i < n ensures i in front {
      var j :| 0 <= j < |l| && l[j] == i;
      assert front[j] == i;
    }
  }

  /** So a prefix of the queue holds the others. */
  lemma UrgentChosenBelow(l: seq<nat>, q: seq<Record>, chosen: seq<nat>)
    requires q != [] && UrgentChosen(l, q, chosen)
    ensures var n := |q| - 1;
            if n in l then UrgentChosen(l[..|l| - 1], q[..n], chosen) && l[|l| - 1] == n
            else UrgentChosen(l, q[..n], chosen)
  {
    var n := |q| - 1;
    var front := q[..n];
    assert |front| == n;
    UrgentBefore(q);
    if n in l {
      LargestIsLast(l, n);
      var rest := l[..|l| - 1];
      assert Ascending(rest) && InRange(rest, |front|);
      forall i: nat ensures i in rest <==> i in chosen && IsUrgent(front, i) {
        assert i in rest <==> i in l && i < n;
      }
    } else {
      assert forall k :: 0 <= k < |l| ==> l[k] in l && l[k] < n + 1;
    }
  }

  lemma UrgentBefore(q: seq<Record>)
    requires q != []
    ensures forall i: nat :: IsUrgent(q[..|q| - 1], i) <==> i < |q| - 1 && IsUrgent(q, i)
  {
    var front := q[..|q| - 1];
    forall i: nat ensures IsUrgent(front, i) <==> i < |q| - 1 && IsUrgent(q, i) {
      if i < |front| { assert front[i] == q[i]; }
    }
  }

  lemma {:induction false} AscendingPick(q: seq<Record>, l: seq<nat>, chosen: seq<nat>)
    requires UrgentChosen(l, q, chosen)
    ensures OfPriority(Pick(q, chosen, true), Immediate) == At(q, l)
  {
    if q == [] {
      assert |At(q, l)| == 0;
    } else {
      var n := |q| - 1;
      UrgentChosenBelow(l, q, chosen);
      OfPriorityAppend(Pick(q[..n], chosen, true), if n in chosen then [q[n]] else [], Immediate);
      if n in l {
        var m := l[..|l| - 1];
        AscendingPick(q[..n], m, chosen);
        assert At(q, l) == At(q[..n], m) + [q[n]];
      } else {
        AscendingPick(q[..n], l, chosen);
        assert At(q, l) == At(q[..n], l);
        assert n in chosen ==> !IsUrgent(q, n);
      }
    }
  }

  lemma {:induction false} PackAscending(q: seq<Record>, c: seq<nat>, limit: nat, maximumBytes: nat, now: nat)
    requires InRange(c, |q|) && Ascending(c)
    ensures Ascending(Pack(q, c, limit, maximumBytes, now))
  {
    if c != [] {
      var n := |c| - 1;
      PackAscending(q, c[..n], limit, maximumBytes, now);
      PackedFromCandidates(q, c[..n], limit, maximumBytes, now);
      var p := Pack(q, c[..n], limit, maximumBytes, now);
      assert forall a :: 0 <= a < |p| ==> p[a] in c[..n];
    }
  }

  lemma UrgentsOfUrgentDrain(q: seq<Record>, limit: nat, maximumBytes: nat, now: nat)
    ensures InRange(UrgentBelow(q, |q|), |q|)
    ensures OfPriority(DrainSpec(q, limit, maximumBytes, Some(Immediate), now).drained, Immediate)
            == At(q, Pack(q, UrgentBelow(q, |q|), limit, maximumBytes, now))
  {
    UrgentBelowMeaning(q, |q|);
    ContextBelowMeaning(q, |q|);
    var urgent, context := UrgentBelow(q, |q|), ContextBelow(q, |q|);
    var l := Pack(q, urgent, limit, maximumBytes, now);
    var chosen := Pack(q, urgent + context, limit, maximumBytes, now);
    PackAppend(q, urgent, context, limit, maximumBytes, now);
    PackAscending(q, urgent, limit, maximumBytes, now);
    PackedFromCandidates(q, urgent, limit, maximumBytes, now);
    forall i: nat ensures i in l <==> i in chosen && IsUrgent(q, i) {
      if i in chosen && IsUrgent(q, i) {
        var k :| 0 <= k < |chosen| && chosen[k] == i;
        assert k < |l|;
      }
    }
    AscendingPick(q, l, chosen);
  }

  /** On a queue of urgent records only, an urgent drain packs every position in order. */
  lemma UrgentOnlyDrain(u: seq<Record>, limit: nat, maximumBytes: nat, now: nat)
    requires forall r :: r in u ==> r.priority == Immediate
    ensures DrainSpec(u, limit, maximumBytes, Some(Immediate), now).drained
            == At(u, Pack(u, AllBelow(|u|), limit, maximumBytes, now))
  {
    UrgentOnlyCandidates(u, |u|);
    UrgentsOfUrgentDrain(u, limit, maximumBytes, now);
    DrainPartitions(u, limit, maximumBytes, Some(Immediate), now);
    var d := DrainSpec(u, limit, maximumBytes, Some(Immediate), now).drained;
    forall r | r in d ensures r.priority == Immediate {
      assert r in multiset(d) && r in multiset(u);
    }
    UrgentOrder(d);
  }

  /**
   * Context never displaces urgency: under any limits an urgent drain takes exactly the urgent records it
   * would take from a queue holding nothing else.
   */
  lemma ContextNeverDisplacesUrgency(q: seq<Record>, limit: nat, maximumBytes: nat, now: nat)
    ensures OfPriority(DrainSpec(q, limit, maximumBytes, Some(Immediate), now).drained, Immediate)
            == DrainSpec(OfPriority(q, Immediate), limit, maximumBytes, Some(Immediate), now).drained
  {
    var u := OfPriority(q, Immediate);
    OfPriorityMembers(q, Immediate);
    UrgentsOfUrgentDrain(q, limit, maximumBytes, now);
    UrgentOnlyDrain(u, limit, maximumBytes, now);
    UrgentBelowIsFilter(q, |q|);
    assert q[..|q|] == q;
    assert At(u, AllBelow(|u|)) == u;
    PackByValue(q, UrgentBelow(q, |q|), u, AllBelow(|u|), limit, maximumBytes, now);
  }
}
