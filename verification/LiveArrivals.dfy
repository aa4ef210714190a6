/** The live view's arrival buffer: what is shown, what waits while reading is paused, and what was seen. */
module LiveArrivals {
  import opened Lists

  const SEEN_LIMIT: nat := 1000

  /** `bytes` is the length of the item's JSON text. */
  datatype Item = Item(id: nat, bytes: nat)

  datatype Arrival = Arrival(item: Item, observedAt: int)

  datatype Buffer = Buffer(displayed: seq<Arrival>, pending: seq<Arrival>, seen: seq<nat>, evicted: nat)

  const EMPTY := Buffer([], [], [], 0)

  function RowIds(rows: seq<Arrival>): seq<nat> { seq(|rows|, i requires 0 <= i < |rows| => rows[i].item.id) }

  function BytesOf(rows: seq<Arrival>): nat {
    if rows == [] then 0 else BytesOf(rows[..|rows| - 1]) + rows[|rows| - 1].item.bytes
  }

  /** Add to an insertion-ordered set. */
  function AddAll(s: seq<nat>, ids: seq<nat>): seq<nat>
    decreases |ids|
  {
    if ids == [] then s
    else
      var n := |ids| - 1;
      var before := AddAll(s, ids[..n]);
      if ids[n] in before then before else before + [ids[n]]
  }

  /** Everything known before an observation. */
  function Known(b: Buffer): seq<nat> {
    AddAll(AddAll(AddAll([], b.seen), RowIds(b.displayed)), RowIds(b.pending))
  }

  function ItemIds(items: seq<Item>): seq<nat> { seq(|items|, i requires 0 <= i < |items| => items[i].id) }

  /** The arrivals not known before, each id once, in arrival order. */
  function Fresh(known: seq<nat>, items: seq<Item>, observedAt: int): seq<Arrival> {
    if items == [] then []
    else
      var n := |items| - 1;
      Fresh(known, items[..n], observedAt)
      + if items[n].id in AddAll(known, ItemIds(items[..n])) then [] else [Arrival(items[n], observedAt)]
  }

  predicate Fits(rows: nat, bytes: nat, maxRows: nat, maxBytes: nat) { rows <= maxRows && bytes <= maxBytes }

  /** `list` without as many of its last rows as it takes for it and `others` to fit. */
  function Trim(list: seq<Arrival>, others: seq<Arrival>, maxRows: nat, maxBytes: nat): (r: seq<Arrival>)
    ensures |r| <= |list|
  {
    if list == [] || Fits(|list| + |others|, BytesOf(list) + BytesOf(others), maxRows, maxBytes) then list
    else Trim(list[..|list| - 1], others, maxRows, maxBytes)
  }

  function LastSeen(s: seq<nat>): seq<nat> { if |s| > SEEN_LIMIT then s[|s| - SEEN_LIMIT..] else s }

  function Observe(b: Buffer, items: seq<Item>, observedAt: int, paused: bool, maxRows: nat, maxBytes: nat): Buffer {
    var known := Known(b);
    var arrived := Fresh(known, items, observedAt);
    var seen := LastSeen(AddAll(known, ItemIds(items)));
    if paused then
      var pending := Trim(arrived + b.pending, b.displayed, maxRows, maxBytes);
      Buffer(b.displayed, pending, seen, b.evicted + |arrived + b.pending| - |pending|)
    else
      var all := arrived + b.pending + b.displayed;
      var displayed := Trim(all, [], maxRows, maxBytes);
      Buffer(displayed, [], seen, b.evicted + |all| - |displayed|)
  }

  function Reveal(b: Buffer): Buffer { b.(displayed := b.pending + b.displayed, pending := []) }

  // ----- The loops as written ----------------------------------------------------------------------

  method ObserveArrivals(state: Buffer, items: seq<Item>, observedAt: int, paused: bool, maxRows: nat, maxBytes: nat) returns (next: Buffer)
    ensures next == Observe(state, items, observedAt, paused, maxRows, maxBytes)
  {
    var seen, arrived := AddFresh(Known(state), items, observedAt);
    var displayed := if paused then state.displayed else arrived + state.pending + state.displayed;
    var pending := if paused then arrived + state.pending else [];
    var evicted;
    displayed, pending, evicted := DropOverflow(displayed, pending, state.evicted, paused, maxRows, maxBytes);
    next := Buffer(displayed, pending, LastSeen(seen), evicted);
  }

  /** The loop over the polled items. */
  method AddFresh(known: seq<nat>, items: seq<Item>, observedAt: int) returns (seen: seq<nat>, arrived: seq<Arrival>)
    ensures seen == AddAll(known, ItemIds(items)) && arrived == Fresh(known, items, observedAt)
  {
    seen, arrived := known, [];
    for i := 0 to |items|
      invariant seen == AddAll(known, ItemIds(items[..i])) && arrived == Fresh(known, items[..i], observedAt)
    {
      assert items[..i + 1][..i] == items[..i];
      assert ItemIds(items[..i + 1])[..i] == ItemIds(items[..i]);
      if items[i].id in seen { continue; }
      seen := seen + [items[i].id];
      arrived := arrived + [Arrival(items[i], observedAt)];
    }
    assert items[..|items|] == items;
  }

  /** The loop that drops rows from the end of the list it may drop from, until everything fits. */
  method DropOverflow(shown: seq<Arrival>, waiting: seq<Arrival>, before: nat, paused: bool, maxRows: nat, maxBytes: nat)
    returns (displayed: seq<Arrival>, pending: seq<Arrival>, evicted: nat)
    requires !paused ==> waiting == []
    ensures displayed == if paused then shown else Trim(shown, [], maxRows, maxBytes)
    ensures pending == if paused then Trim(waiting, shown, maxRows, maxBytes) else []
    ensures evicted + |displayed| + |pending| == before + |shown| + |waiting|
  {
    displayed, pending, evicted := shown, waiting, before;
    var bytes: int := BytesOf(displayed) + BytesOf(pending);
    while |displayed| + |pending| > maxRows || bytes > maxBytes
      invariant bytes == BytesOf(displayed) + BytesOf(pending)
      invariant if paused then displayed == shown else pending == []
      invariant evicted + |displayed| + |pending| == before + |shown| + |waiting|
      invariant paused ==> Trim(pending, displayed, maxRows, maxBytes) == Trim(waiting, shown, maxRows, maxBytes)
      invariant !paused ==> Trim(displayed, [], maxRows, maxBytes) == Trim(shown, [], maxRows, maxBytes)
      decreases |displayed| + |pending|
    {
      var list := if paused then pending else displayed;
      if |list| == 0 { break; }
      var removed := list[|list| - 1];
      if paused { pending := pending[..|pending| - 1]; } else { displayed := displayed[..|displayed| - 1]; }
      bytes := bytes - removed.item.bytes;
      evicted := evicted + 1;
    }
  }

  // ----- Every run -----------------------------------------------------------------------------------

  function Rows(b: Buffer): seq<Arrival> { b.pending + b.displayed }

  ghost predicate NoRepeats(s: seq<nat>) { forall i, j :: 0 <= i < j < |s| ==> s[i] != s[j] }

  ghost predicate BufferOk(b: Buffer, maxRows: nat, maxBytes: nat) {
    NoRepeats(RowIds(Rows(b))) && Fits(|Rows(b)|, BytesOf(Rows(b)), maxRows, maxBytes)
  }

  lemma {:induction false} AddAllMeaning(s: seq<nat>, ids: seq<nat>)
    ensures var r := AddAll(s, ids);
            && s <= r
            && (forall x :: x in r <==> x in s || x in ids)
            && (NoRepeats(s) ==> NoRepeats(r))
  {
    if ids != [] {
      var n := |ids| - 1;
      AddAllMeaning(s, ids[..n]);
      assert ids == ids[..n] + [ids[n]];
    }
  }

  /** Adding in two goes is adding in one, so what comes first is added first. */
  lemma {:induction false} AddAllAppend(s: seq<nat>, a: seq<nat>, b: seq<nat>)
    ensures AddAll(s, a + b) == AddAll(AddAll(s, a), b)
    decreases |b|
  {
    if b == [] {
      assert a + b == a;
    } else {
      var n := |b| - 1;
      assert (a + b)[..|a + b| - 1] == a + b[..n];
      AddAllAppend(s, a, b[..n]);
    }
  }

  lemma KnownMeaning(b: Buffer)
    ensures forall x :: x in Known(b) <==> x in b.seen || x in RowIds(Rows(b))
  {
    AddAllMeaning([], b.seen);
    AddAllMeaning(AddAll([], b.seen), RowIds(b.displayed));
    AddAllMeaning(AddAll(AddAll([], b.seen), RowIds(b.displayed)), RowIds(b.pending));
    assert RowIds(Rows(b)) == RowIds(b.pending) + RowIds(b.displayed);
  }

  /** Fresh arrivals are new and distinct, and cover every item not known before. */
  lemma {:induction false} FreshMeaning(known: seq<nat>, items: seq<Item>, observedAt: int)
    ensures var f := RowIds(Fresh(known, items, observedAt));
            && NoRepeats(f)
            && (forall x :: x in f <==> x in ItemIds(items) && x !in known)
  {
    if items != [] {
      var n := |items| - 1;
      FreshMeaning(known, items[..n], observedAt);
      AddAllMeaning(known, ItemIds(items[..n]));
      var before := Fresh(known, items[..n], observedAt);
      var id := items[n].id;
      assert ItemIds(items) == ItemIds(items[..n]) + [id];
      if id in AddAll(known, ItemIds(items[..n])) {
        assert Fresh(known, items, observedAt) == before;
      } else {
        assert RowIds(before + [Arrival(items[n], observedAt)]) == RowIds(before) + [id];
        assert id !in RowIds(before);
        NoRepeatsJoin(RowIds(before), [id]);
      }
    }
  }

  lemma {:induction false} BytesAppend(a: seq<Arrival>, b: seq<Arrival>)
    ensures BytesOf(a + b) == BytesOf(a) + BytesOf(b)
  {
    if b == [] {
      assert a + b == a;
    } else {
      assert (a + b)[..|a + b| - 1] == a + b[..|b| - 1];
      BytesAppend(a, b[..|b| - 1]);
    }
  }

  lemma {:induction false} TrimMeaning(list: seq<Arrival>, others: seq<Arrival>, maxRows: nat, maxBytes: nat)
    ensures var t := Trim(list, others, maxRows, maxBytes);
            && t <= list
            && (t == [] || Fits(|t| + |others|, BytesOf(t) + BytesOf(others), maxRows, maxBytes))
            && forall k :: |t| < k <= |list| ==> !Fits(k + |others|, BytesOf(list[..k]) + BytesOf(others), maxRows, maxBytes)
  {
    if list != [] && !Fits(|list| + |others|, BytesOf(list) + BytesOf(others), maxRows, maxBytes) {
      var n := |list| - 1;
      TrimMeaning(list[..n], others, maxRows, maxBytes);
      var t := Trim(list[..n], others, maxRows, maxBytes);
      forall k | |t| < k <= |list| ensures !Fits(k + |others|, BytesOf(list[..k]) + BytesOf(others), maxRows, maxBytes) {
        if k <= n { assert list[..n][..k] == list[..k]; } else { assert list[..k] == list; }
      }
    } else {
      assert list == [] || list[..|list|] == list;
    }
  }

  lemma NoRepeatsJoin(a: seq<nat>, b: seq<nat>)
    requires NoRepeats(a) && NoRepeats(b) && forall x :: x in a ==> x !in b
    ensures NoRepeats(a + b)
  {
    forall i, j | 0 <= i < j < |a + b| ensures (a + b)[i] != (a + b)[j] {
      if i < |a| <= j { assert a[i] in a && b[j - |a|] in b; }
    }
  }

  /** The rows before trimming: the fresh ones in front of what was there. */
  lemma CandidatesDistinct(b: Buffer, items: seq<Item>, observedAt: int)
    requires NoRepeats(RowIds(Rows(b)))
    ensures NoRepeats(RowIds(Fresh(Known(b), items, observedAt) + Rows(b)))
  {
    var arrived := Fresh(Known(b), items, observedAt);
    KnownMeaning(b);
    FreshMeaning(Known(b), items, observedAt);
    NoRepeatsJoin(RowIds(arrived), RowIds(Rows(b)));
    assert RowIds(arrived + Rows(b)) == RowIds(arrived) + RowIds(Rows(b));
  }

  /** A list without repeats has none after its middle is taken out. */
  lemma DropMiddle(s: seq<nat>, k: nat, cut: nat)
    requires NoRepeats(s) && k <= cut <= |s|
    ensures NoRepeats(s[..k] + s[cut..])
  {
    var t := s[..k] + s[cut..];
    forall i, j | 0 <= i < j < |t| ensures t[i] != t[j] {
      assert t[i] == s[if i < k then i else i - k + cut] && t[j] == s[if j < k then j else j - k + cut];
    }
  }

  /** Trimming a list beside rows that fit on their own makes both fit, without repeats. */
  lemma TrimBeside(list: seq<Arrival>, shown: seq<Arrival>, maxRows: nat, maxBytes: nat)
    requires NoRepeats(RowIds(list + shown)) && Fits(|shown|, BytesOf(shown), maxRows, maxBytes)
    ensures var t := Trim(list, shown, maxRows, maxBytes);
            NoRepeats(RowIds(t + shown)) && Fits(|t + shown|, BytesOf(t + shown), maxRows, maxBytes)
  {
    var t := Trim(list, shown, maxRows, maxBytes);
    TrimMeaning(list, shown, maxRows, maxBytes);
    BytesAppend(t, shown);
    var all := RowIds(list + shown);
    DropMiddle(all, |t|, |list|);
    assert RowIds(t + shown) == all[..|t|] + all[|list|..];
  }

  lemma ObservePausedKeeps(b: Buffer, items: seq<Item>, observedAt: int, maxRows: nat, maxBytes: nat)
    requires BufferOk(b, maxRows, maxBytes)
    ensures var b' := Observe(b, items, observedAt, true, maxRows, maxBytes);
            && BufferOk(b', maxRows, maxBytes)
            && b'.displayed == b.displayed
            && |Rows(b')| + b'.evicted == |Rows(b)| + b.evicted + |Fresh(Known(b), items, observedAt)|
  {
    var arrived := Fresh(Known(b), items, observedAt);
    CandidatesDistinct(b, items, observedAt);
    assert arrived + Rows(b) == arrived + b.pending + b.displayed;
    BytesAppend(b.pending, b.displayed);
    TrimBeside(arrived + b.pending, b.displayed, maxRows, maxBytes);
  }

  /** Trimming a list on its own makes it fit, without repeats. */
  lemma TrimAlone(list: seq<Arrival>, maxRows: nat, maxBytes: nat)
    requires NoRepeats(RowIds(list))
    ensures var t := Trim(list, [], maxRows, maxBytes);
            NoRepeats(RowIds(t)) && Fits(|t|, BytesOf(t), maxRows, maxBytes)
  {
    var t := Trim(list, [], maxRows, maxBytes);
    TrimMeaning(list, [], maxRows, maxBytes);
    assert RowIds(t) == RowIds(list)[..|t|];
  }

  /** The rows an open poll leaves, and what it counts. */
  lemma ObserveOpenRows(b: Buffer, items: seq<Item>, observedAt: int, maxRows: nat, maxBytes: nat)
    ensures var all := Fresh(Known(b), items, observedAt) + Rows(b);
            var b' := Observe(b, items, observedAt, false, maxRows, maxBytes);
            Rows(b') == Trim(all, [], maxRows, maxBytes) && |Rows(b')| + b'.evicted == |all| + b.evicted
  {
    Associate(Fresh(Known(b), items, observedAt), b.pending, b.displayed);
    var displayed := Observe(b, items, observedAt, false, maxRows, maxBytes).displayed;
    assert [] + displayed == displayed;
  }

  lemma ObserveOpenKeeps(b: Buffer, items: seq<Item>, observedAt: int, maxRows: nat, maxBytes: nat)
    requires BufferOk(b, maxRows, maxBytes)
    ensures var b' := Observe(b, items, observedAt, false, maxRows, maxBytes);
            && BufferOk(b', maxRows, maxBytes)
            && |Rows(b')| + b'.evicted == |Rows(b)| + b.evicted + |Fresh(Known(b), items, observedAt)|
  {
    CandidatesDistinct(b, items, observedAt);
    TrimAlone(Fresh(Known(b), items, observedAt) + Rows(b), maxRows, maxBytes);
    ObserveOpenRows(b, items, observedAt, maxRows, maxBytes);
  }

  lemma ObserveKeeps(b: Buffer, items: seq<Item>, observedAt: int, paused: bool, maxRows: nat, maxBytes: nat)
    requires BufferOk(b, maxRows, maxBytes)
    ensures var b' := Observe(b, items, observedAt, paused, maxRows, maxBytes);
            && BufferOk(b', maxRows, maxBytes)
            && (paused ==> b'.displayed == b.displayed)
            && |Rows(b')| + b'.evicted == |Rows(b)| + b.evicted + |Fresh(Known(b), items, observedAt)|
  {
    if paused { ObservePausedKeeps(b, items, observedAt, maxRows, maxBytes); }
    else { ObserveOpenKeeps(b, items, observedAt, maxRows, maxBytes); }
  }

  datatype Event = Observed(items: seq<Item>, at: int, paused: bool) | Revealed

  datatype History = History(buffer: Buffer, admitted: nat)

  /** The buffer after some events, and how many arrivals were ever admitted. */
  function Run(events: seq<Event>, maxRows: nat, maxBytes: nat): History {
    if events == [] then History(EMPTY, 0)
    else
      var n := |events| - 1;
      var h := Run(events[..n], maxRows, maxBytes);
      match events[n]
      case Revealed => h.(buffer := Reveal(h.buffer))
      case Observed(items, at, paused) =>
        History(Observe(h.buffer, items, at, paused, maxRows, maxBytes), h.admitted + |Fresh(Known(h.buffer), items, at)|)
  }

  /**
   * On every run no event is shown or waiting twice, both bounds hold, and every arrival ever admitted is
   * shown, waiting or counted as evicted.
   */
  lemma {:induction false} RunAccounts(events: seq<Event>, maxRows: nat, maxBytes: nat)
    ensures var h := Run(events, maxRows, maxBytes);
            BufferOk(h.buffer, maxRows, maxBytes) && |Rows(h.buffer)| + h.buffer.evicted == h.admitted
  {
    if events != [] {
      var n := |events| - 1;
      RunAccounts(events[..n], maxRows, maxBytes);
      var h := Run(events[..n], maxRows, maxBytes);
      match events[n]
      case Revealed => assert Rows(Reveal(h.buffer)) == Rows(h.buffer);
      case Observed(items, at, paused) => ObserveKeeps(h.buffer, items, at, paused, maxRows, maxBytes);
    }
  }

  // ----- Pausing changes nothing but when ------------------------------------------------------------

  datatype Poll = Poll(items: seq<Item>, at: int)

  function Observes(b: Buffer, polls: seq<Poll>, paused: bool, maxRows: nat, maxBytes: nat): Buffer {
    if polls == [] then b
    else
      var n := |polls| - 1;
      Observe(Observes(b, polls[..n], paused, maxRows, maxBytes), polls[n].items, polls[n].at, paused, maxRows, maxBytes)
  }

  /** The list of seen ids is never cut while the polls come in. */
  ghost predicate SeenUncut(b: Buffer, polls: seq<Poll>, maxRows: nat, maxBytes: nat) {
    polls == []
    || (var n := |polls| - 1;
        var before := Observes(b, polls[..n], true, maxRows, maxBytes);
        SeenUncut(b, polls[..n], maxRows, maxBytes) && |AddAll(Known(before), ItemIds(polls[n].items))| <= SEEN_LIMIT)
  }

  /** The two buffers hold the same rows in the same order, know the same ids and evicted as many. */
  ghost predicate SameRows(p: Buffer, u: Buffer) {
    && Rows(p) == Rows(u) && p.seen == u.seen && p.evicted == u.evicted
    && (p == u || forall x :: x in RowIds(Rows(p)) ==> x in p.seen)
  }

  lemma {:induction false} AddKnown(s: seq<nat>, ids: seq<nat>)
    requires forall x :: x in ids ==> x in s
    ensures AddAll(s, ids) == s
    decreases |ids|
  {
    if ids != [] { AddKnown(s, ids[..|ids| - 1]); }
  }

  lemma SameKnown(p: Buffer, u: Buffer)
    requires SameRows(p, u)
    ensures Known(p) == Known(u)
  {
    if p != u {
      AddAllMeaning([], p.seen);
      var base := AddAll([], p.seen);
      assert RowIds(Rows(p)) == RowIds(p.pending) + RowIds(p.displayed);
      assert RowIds(Rows(u)) == RowIds(u.pending) + RowIds(u.displayed);
      AddKnown(base, RowIds(p.displayed));
      AddKnown(base, RowIds(p.pending));
      AddKnown(base, RowIds(u.displayed));
      AddKnown(base, RowIds(u.pending));
    }
  }

  /** A paused poll that evicts nothing puts the fresh arrivals in front and everything fits. */
  lemma PausedWithoutEviction(p: Buffer, poll: Poll, maxRows: nat, maxBytes: nat)
    requires Observe(p, poll.items, poll.at, true, maxRows, maxBytes).evicted == p.evicted
    requires Fits(|Rows(p)|, BytesOf(Rows(p)), maxRows, maxBytes)
    ensures var p' := Observe(p, poll.items, poll.at, true, maxRows, maxBytes);
            Rows(p') == Fresh(Known(p), poll.items, poll.at) + Rows(p) && Fits(|Rows(p')|, BytesOf(Rows(p')), maxRows, maxBytes)
  {
    var arrived := Fresh(Known(p), poll.items, poll.at);
    var pending := Trim(arrived + p.pending, p.displayed, maxRows, maxBytes);
    TrimMeaning(arrived + p.pending, p.displayed, maxRows, maxBytes);
    assert pending == arrived + p.pending;
    assert pending + p.displayed == arrived + Rows(p);
    BytesAppend(pending, p.displayed);
    if pending == [] { assert pending + p.displayed == Rows(p); }
  }

  /** An open poll whose rows all fit shows them all. */
  lemma OpenWithRoom(u: Buffer, poll: Poll, maxRows: nat, maxBytes: nat)
    requires var all := Fresh(Known(u), poll.items, poll.at) + Rows(u); Fits(|all|, BytesOf(all), maxRows, maxBytes)
    ensures var u' := Observe(u, poll.items, poll.at, false, maxRows, maxBytes);
            Rows(u') == Fresh(Known(u), poll.items, poll.at) + Rows(u) && u'.displayed == Rows(u') && u'.evicted == u.evicted
  {
    var arrived := Fresh(Known(u), poll.items, poll.at);
    var all := arrived + u.pending + u.displayed;
    assert all == arrived + Rows(u);
    assert Trim(all, [], maxRows, maxBytes) == all;
    assert [] + all == all;
  }

  lemma RowsBecomeSeen(p: Buffer, poll: Poll, seen: seq<nat>, rows: seq<Arrival>)
    requires rows == Fresh(Known(p), poll.items, poll.at) + Rows(p) && seen == AddAll(Known(p), ItemIds(poll.items))
    ensures forall x :: x in RowIds(rows) ==> x in seen
  {
    var arrived := Fresh(Known(p), poll.items, poll.at);
    KnownMeaning(p);
    FreshMeaning(Known(p), poll.items, poll.at);
    AddAllMeaning(Known(p), ItemIds(poll.items));
    assert RowIds(rows) == RowIds(arrived) + RowIds(Rows(p));
  }

  lemma SameRowsStep(p: Buffer, u: Buffer, poll: Poll, maxRows: nat, maxBytes: nat)
    requires SameRows(p, u)
    requires |AddAll(Known(p), ItemIds(poll.items))| <= SEEN_LIMIT
    requires Observe(p, poll.items, poll.at, true, maxRows, maxBytes).evicted == p.evicted
    requires Fits(|Rows(p)|, BytesOf(Rows(p)), maxRows, maxBytes)
    ensures SameRows(Observe(p, poll.items, poll.at, true, maxRows, maxBytes), Observe(u, poll.items, poll.at, false, maxRows, maxBytes))
    ensures var p' := Observe(p, poll.items, poll.at, true, maxRows, maxBytes); Fits(|Rows(p')|, BytesOf(Rows(p')), maxRows, maxBytes)
    ensures var u' := Observe(u, poll.items, poll.at, false, maxRows, maxBytes); Rows(u') == u'.displayed
  {
    SameKnown(p, u);
    PausedWithoutEviction(p, poll, maxRows, maxBytes);
    OpenWithRoom(u, poll, maxRows, maxBytes);
    var p' := Observe(p, poll.items, poll.at, true, maxRows, maxBytes);
    RowsBecomeSeen(p, poll, AddAll(Known(p), ItemIds(poll.items)), Rows(p'));
  }

  lemma EvictedGrows(b: Buffer, poll: Poll, paused: bool, maxRows: nat, maxBytes: nat)
    ensures Observe(b, poll.items, poll.at, paused, maxRows, maxBytes).evicted >= b.evicted
  {
    var arrived := Fresh(Known(b), poll.items, poll.at);
    TrimMeaning(arrived + b.pending, b.displayed, maxRows, maxBytes);
    TrimMeaning(arrived + b.pending + b.displayed, [], maxRows, maxBytes);
  }

  lemma {:induction false} EvictedOnlyGrows(b: Buffer, polls: seq<Poll>, paused: bool, maxRows: nat, maxBytes: nat)
    ensures Observes(b, polls, paused, maxRows, maxBytes).evicted >= b.evicted
  {
    if polls != [] {
      var n := |polls| - 1;
      EvictedOnlyGrows(b, polls[..n], paused, maxRows, maxBytes);
      EvictedGrows(Observes(b, polls[..n], paused, maxRows, maxBytes), polls[n], paused, maxRows, maxBytes);
    }
  }

  /**
   * If nothing was evicted while paused and the seen list was not cut, pausing for any number of polls and then
   * revealing shows exactly the list that reading on would have shown.
   */
  lemma {:induction false} PauseThenRevealShowsTheSame(b: Buffer, polls: seq<Poll>, maxRows: nat, maxBytes: nat)
    requires Fits(|Rows(b)|, BytesOf(Rows(b)), maxRows, maxBytes)
    requires SeenUncut(b, polls, maxRows, maxBytes)
    requires Observes(b, polls, true, maxRows, maxBytes).evicted == b.evicted
    ensures SameRows(Observes(b, polls, true, maxRows, maxBytes), Observes(b, polls, false, maxRows, maxBytes))
    ensures var p := Observes(b, polls, true, maxRows, maxBytes); Fits(|Rows(p)|, BytesOf(Rows(p)), maxRows, maxBytes)
    ensures polls != [] ==>
              Reveal(Observes(b, polls, true, maxRows, maxBytes)).displayed == Observes(b, polls, false, maxRows, maxBytes).displayed
  {
    if polls != [] {
      var n := |polls| - 1;
      var p := Observes(b, polls[..n], true, maxRows, maxBytes);
      EvictedOnlyGrows(b, polls[..n], true, maxRows, maxBytes);
      EvictedGrows(p, polls[n], true, maxRows, maxBytes);
      PauseThenRevealShowsTheSame(b, polls[..n], maxRows, maxBytes);
      SameRowsStep(p, Observes(b, polls[..n], false, maxRows, maxBytes), polls[n], maxRows, maxBytes);
    }
  }

  // ----- One poll, in the items' own terms -------------------------------------------------------

  ghost predicate Rising(at: seq<nat>) { forall a, b :: 0 <= a < b < |at| ==> at[a] < at[b] }

  /** The item's id is not known and no earlier item has it. */
  ghost predicate IsNew(known: seq<nat>, items: seq<Item>, i: nat) {
    i < |items| && items[i].id !in known && forall k :: 0 <= k < i ==> items[k].id != items[i].id
  }

  /** These positions hold the new items among the first `n`, in order, and the arrivals are made of them. */
  ghost predicate MadeOf(known: seq<nat>, items: seq<Item>, n: nat, observedAt: int, arrivals: seq<Arrival>, at: seq<nat>)
    requires n <= |items|
  {
    && Rising(at) && |at| == |arrivals|
    && (forall k :: 0 <= k < |at| ==> at[k] < n && arrivals[k] == Arrival(items[at[k]], observedAt))
    && forall i: nat :: i in at <==> i < n && IsNew(known, items, i)
  }

  lemma MadeOfMore(known: seq<nat>, items: seq<Item>, n: nat, observedAt: int, arrivals: seq<Arrival>, at: seq<nat>)
    requires n < |items| && MadeOf(known, items, n, observedAt, arrivals, at)
    ensures IsNew(known, items, n) ==> MadeOf(known, items, n + 1, observedAt, arrivals + [Arrival(items[n], observedAt)], at + [n])
    ensures !IsNew(known, items, n) ==> MadeOf(known, items, n + 1, observedAt, arrivals, at)
  {
    assert forall i: nat :: i in at + [n] <==> i in at || i == n;
  }

  /** Fresh arrivals are the new items in arrival order, with the time of this poll. */
  lemma FreshInOrder(known: seq<nat>, items: seq<Item>, observedAt: int) returns (at: seq<nat>)
    ensures MadeOf(known, items, |items|, observedAt, Fresh(known, items, observedAt), at)
  {
    at := FirstFresh(known, items, |items|, observedAt);
    assert items[..|items|] == items;
  }

  lemma {:induction false} FirstFresh(known: seq<nat>, items: seq<Item>, n: nat, observedAt: int) returns (at: seq<nat>)
    requires n <= |items|
    ensures MadeOf(known, items, n, observedAt, Fresh(known, items[..n], observedAt), at)
  {
    at := [];
    if n > 0 {
      at := FirstFresh(known, items, n - 1, observedAt);
      assert items[..n][..n - 1] == items[..n - 1];
      NewAtEnd(known, items, n - 1);
      MadeOfMore(known, items, n - 1, observedAt, Fresh(known, items[..n - 1], observedAt), at);
      if IsNew(known, items, n - 1) { at := at + [n - 1]; }
    }
  }

  lemma NewAtEnd(known: seq<nat>, items: seq<Item>, n: nat)
    requires n < |items|
    ensures IsNew(known, items, n) <==> items[n].id !in AddAll(known, ItemIds(items[..n]))
  {
    AddAllMeaning(known, ItemIds(items[..n]));
    var ids := ItemIds(items[..n]);
    assert forall k :: 0 <= k < n ==> ids[k] == items[k].id;
    if items[n].id in ids {
      var k :| 0 <= k < n && ids[k] == items[n].id;
      assert items[k].id == items[n].id;
    }
  }

  lemma NewInFront(known: seq<nat>, items: seq<Item>, n: nat)
    requires n <= |items|
    ensures forall i: nat :: i < n ==> (IsNew(known, items[..n], i) <==> IsNew(known, items, i))
  {
    assert forall i :: 0 <= i < n ==> items[..n][i] == items[i];
  }

  /** What a poll leaves to show and to wait. */
  lemma ObserveMeaning(b: Buffer, items: seq<Item>, observedAt: int, paused: bool, maxRows: nat, maxBytes: nat)
    ensures var arrived := Fresh(Known(b), items, observedAt); var next := Observe(b, items, observedAt, paused, maxRows, maxBytes);
            && (paused ==> next.displayed == b.displayed && next.pending <= arrived + b.pending
                           && next.evicted == b.evicted + |arrived + b.pending| - |next.pending|)
            && (!paused ==> next.pending == [] && next.displayed <= arrived + (b.pending + b.displayed)
                            && next.evicted == b.evicted + |arrived + (b.pending + b.displayed)| - |next.displayed|)
  {
    var arrived := Fresh(Known(b), items, observedAt);
    Associate(arrived, b.pending, b.displayed);
    TrimMeaning(arrived + b.pending, b.displayed, maxRows, maxBytes);
    TrimMeaning(arrived + b.pending + b.displayed, [], maxRows, maxBytes);
  }

  /**
   * After a poll the ids seen are the last thousand of all: those seen before, those of the rows shown and waiting,
   * and the polled ones, in this order, each where it came first.
   */
  lemma SeenAreTheLatest(b: Buffer, items: seq<Item>, observedAt: int, paused: bool, maxRows: nat, maxBytes: nat)
    returns (forgotten: seq<nat>)
    requires NoRepeats(b.seen)
    ensures var next := Observe(b, items, observedAt, paused, maxRows, maxBytes); var all := forgotten + next.seen;
            && |next.seen| == (if |all| < 1000 then |all| else 1000)
            && NoRepeats(all) && b.seen <= all
            && (forall x :: x in all <==> x in b.seen || x in RowIds(Rows(b)) || x in ItemIds(items))
    ensures var next := Observe(b, items, observedAt, paused, maxRows, maxBytes);
            forgotten + next.seen == AddAll(AddAll(AddAll(b.seen, RowIds(b.displayed)), RowIds(b.pending)), ItemIds(items))
  {
    var all := AddAll(Known(b), ItemIds(items));
    SeenMeaning(b, items);
    forgotten := Forgotten(all);
  }

  lemma SeenMeaning(b: Buffer, items: seq<Item>)
    requires NoRepeats(b.seen)
    ensures var all := AddAll(Known(b), ItemIds(items));
            && NoRepeats(all) && b.seen <= all
            && (forall x :: x in all <==> x in b.seen || x in RowIds(Rows(b)) || x in ItemIds(items))
    ensures Known(b) == AddAll(AddAll(b.seen, RowIds(b.displayed)), RowIds(b.pending))
  {
    AddNothingKnown(b.seen);
    KnownMeaning(b);
    AddAllMeaning(b.seen, RowIds(b.displayed));
    AddAllMeaning(AddAll(b.seen, RowIds(b.displayed)), RowIds(b.pending));
    AddAllMeaning(Known(b), ItemIds(items));
  }

  lemma Forgotten(all: seq<nat>) returns (forgotten: seq<nat>)
    ensures forgotten + LastSeen(all) == all && |LastSeen(all)| == (if |all| < 1000 then |all| else 1000)
  {
    forgotten := all[..if |all| > 1000 then |all| - 1000 else 0];
  }

  /** A list without repeats, added to nothing, is itself. */
  lemma {:induction false} AddNothingKnown(s: seq<nat>)
    requires NoRepeats(s)
    ensures AddAll([], s) == s
  {
    if s != [] {
      var n := |s| - 1;
      AddNothingKnown(s[..n]);
      assert s == s[..n] + [s[n]];
    }
  }
}
