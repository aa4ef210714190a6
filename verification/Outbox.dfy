/** The durable outbox: a scoped store with a time to live and count and byte retention. */
module Outbox {
  import opened Events
  import opened StableSorting

  const DEFAULT_MAX_EVENTS: nat := 100
  const DEFAULT_MAX_BYTES: nat := 1024 * 1024
  const DEFAULT_TTL_MS: nat := 24 * 60 * 60 * 1000
  const MAX_ATTEMPTS: nat := 8

  datatype Limits = Limits(maxEvents: nat, maxBytes: nat, ttlMs: nat)

  /** What `boundedLimit` lets through. */
  predicate ValidLimits(l: Limits) {
    1 <= l.maxEvents <= DEFAULT_MAX_EVENTS && 1 <= l.maxBytes <= DEFAULT_MAX_BYTES && 1 <= l.ttlMs <= DEFAULT_TTL_MS
  }

  datatype Stored = Stored(scope: nat, record: Record, storedAt: int)

  function IdOf(s: Stored): nat { s.record.event.id }
  function StoredAt(s: Stored): int { s.storedAt }
  function Timestamp(s: Stored): int { s.record.event.timestamp }

  function Size(s: seq<Stored>): nat {
    if s == [] then 0 else s[0].record.event.bytes + Size(s[1..])
  }

  ghost predicate UniqueIds(s: seq<Stored>) {
    forall i, j :: 0 <= i < j < |s| ==> IdOf(s[i]) != IdOf(s[j])
  }

  ghost predicate HasId(s: seq<Stored>, id: nat) { exists x :: x in s && IdOf(x) == id }

  // ----- Save ------------------------------------------------------------------------------------

  /** Overwrite the entry with the record's id in place, keeping its first-stored time, or append it. */
  function Upsert(s: seq<Stored>, scope: nat, r: Record, now: int): seq<Stored> {
    if s == [] then [Stored(scope, r, now)]
    else if IdOf(s[0]) == r.event.id then [Stored(scope, r, s[0].storedAt)] + s[1..]
    else [s[0]] + Upsert(s[1..], scope, r, now)
  }

  function Merged(existing: seq<Stored>, scope: nat, records: seq<Record>, now: int): seq<Stored> {
    if records == [] then existing
    else
      var n := |records| - 1;
      Upsert(Merged(existing, scope, records[..n], now), scope, records[n], now)
  }

  predicate LiveAt(s: Stored, ttlMs: nat, now: int) {
    s.storedAt + ttlMs > now && s.record.attempts < MAX_ATTEMPTS
  }

  function LiveOnly(s: seq<Stored>, ttlMs: nat, now: int): seq<Stored> {
    if s == [] then []
    else
      var n := |s| - 1;
      LiveOnly(s[..n], ttlMs, now) + if LiveAt(s[n], ttlMs, now) then [s[n]] else []
  }

  /** What a save may keep, oldest first. */
  function Candidates(existing: seq<Stored>, scope: nat, records: seq<Record>, now: int, ttlMs: nat): seq<Stored> {
    StableSort(LiveOnly(Merged(existing, scope, records, now), ttlMs, now), StoredAt)
  }

  /** Newest first, keep whatever still fits both limits. */
  function RetainNewest(c: seq<Stored>, l: Limits): seq<Stored> {
    if c == [] then []
    else
      var kept := RetainNewest(c[1..], l);
      if |kept| >= l.maxEvents || Size(kept) + c[0].record.event.bytes > l.maxBytes then kept else kept + [c[0]]
  }

  datatype SaveOutcome = SaveOutcome(retained: seq<Stored>, dropped: int)

  function SaveSpec(existing: seq<Stored>, scope: nat, records: seq<Record>, now: int, l: Limits): SaveOutcome {
    if records == [] then SaveOutcome(existing, 0)
    else
      var c := Candidates(existing, scope, records, now, l.ttlMs);
      var kept := RetainNewest(c, l);
      SaveOutcome(kept, |c| - |kept|)
  }

  // ----- Load ------------------------------------------------------------------------------------

  predicate Loadable(s: Stored, ttlMs: nat, now: int) {
    s.record.priority == Immediate && LiveAt(s, ttlMs, now)
  }

  function LoadableOnly(s: seq<Stored>, ttlMs: nat, now: int): seq<Stored> {
    if s == [] then []
    else
      var n := |s| - 1;
      LoadableOnly(s[..n], ttlMs, now) + if Loadable(s[n], ttlMs, now) then [s[n]] else []
  }

  function Records(s: seq<Stored>): seq<Record> {
    seq(|s|, i requires 0 <= i < |s| => s[i].record)
  }

  function LoadSpec(existing: seq<Stored>, ttlMs: nat, now: int): seq<Record> {
    Records(StableSort(LoadableOnly(existing, ttlMs, now), Timestamp))
  }

  // ----- The object store ------------------------------------------------------------------------

  type Key = (nat, nat)

  function KeyOf(s: Stored): Key { (s.scope, IdOf(s)) }

  /** `e` lists what the store holds for one scope, in some order, each entry once. */
  ghost predicate Enumerates(e: seq<Stored>, store: map<Key, Stored>, scope: nat) {
    && UniqueIds(e)
    && (forall s :: s in e ==> s.scope == scope && KeyOf(s) in store && store[KeyOf(s)] == s)
    && (forall k :: k in store && k.0 == scope ==> store[k] in e)
  }

  ghost predicate WellKeyed(store: map<Key, Stored>) {
    forall k :: k in store ==> KeyOf(store[k]) == k
  }

  ghost predicate SameElsewhere(a: map<Key, Stored>, b: map<Key, Stored>, scope: nat) {
    && (forall k: Key :: k.0 != scope ==> (k in a <==> k in b))
    && (forall k: Key :: k.0 != scope && k in a && k in b ==> a[k] == b[k])
  }

  // ----- What saving and loading guarantee -------------------------------------------------------

  lemma {:induction false} SizeAppend(a: seq<Stored>, b: seq<Stored>)
    ensures Size(a + b) == Size(a) + Size(b)
  {
    if a == [] {
      assert a + b == b;
    } else {
      assert (a + b)[1..] == a[1..] + b;
      SizeAppend(a[1..], b);
    }
  }

  lemma {:induction false} LoadableMeaning(s: seq<Stored>, ttlMs: nat, now: int)
    requires UniqueIds(s)
    ensures forall x :: x in LoadableOnly(s, ttlMs, now) <==> x in s && Loadable(x, ttlMs, now)
    ensures UniqueIds(LoadableOnly(s, ttlMs, now))
  {
    if s != [] {
      var n := |s| - 1;
      LoadableMeaning(s[..n], ttlMs, now);
      assert s == s[..n] + [s[n]];
      var front := LoadableOnly(s[..n], ttlMs, now);
      forall i | 0 <= i < |front| ensures IdOf(front[i]) != IdOf(s[n]) {
        assert front[i] in front;
      }
    }
  }

  lemma {:induction false} LiveMeaning(s: seq<Stored>, ttlMs: nat, now: int)
    requires UniqueIds(s)
    ensures forall x :: x in LiveOnly(s, ttlMs, now) <==> x in s && LiveAt(x, ttlMs, now)
    ensures UniqueIds(LiveOnly(s, ttlMs, now))
  {
    if s != [] {
      var n := |s| - 1;
      LiveMeaning(s[..n], ttlMs, now);
      assert s == s[..n] + [s[n]];
      var front := LiveOnly(s[..n], ttlMs, now);
      forall i | 0 <= i < |front| ensures IdOf(front[i]) != IdOf(s[n]) {
        assert front[i] in front;
      }
    }
  }

  lemma {:induction false} UpsertMeaning(s: seq<Stored>, scope: nat, r: Record, now: int)
    requires UniqueIds(s)
    ensures UniqueIds(Upsert(s, scope, r, now))
    ensures forall x :: x in Upsert(s, scope, r, now) <==>
              if IdOf(x) == r.event.id
              then x.scope == scope && x.record == r
                   && (if HasId(s, IdOf(x)) then exists y :: y in s && IdOf(y) == IdOf(x) && x.storedAt == y.storedAt
                       else x.storedAt == now)
              else x in s
  {
    if s != [] {
      assert s == [s[0]] + s[1..];
      assert forall x :: x in s <==> x == s[0] || x in s[1..];
      if IdOf(s[0]) == r.event.id {
        assert forall y :: y in s[1..] ==> IdOf(y) != r.event.id;
      } else {
        UpsertMeaning(s[1..], scope, r, now);
        var rest := Upsert(s[1..], scope, r, now);
        forall i | 0 <= i < |rest| ensures IdOf(rest[i]) != IdOf(s[0]) {
          assert rest[i] in rest;
        }
      }
    }
  }

  lemma {:induction false} InsertUnique(s: seq<Stored>, v: Stored, key: Stored -> int)
    requires UniqueIds(s) && forall x :: x in s ==> IdOf(x) != IdOf(v)
    ensures UniqueIds(Insert(s, v, key))
    ensures forall x :: x in Insert(s, v, key) <==> x in s || x == v
  {
    if s != [] && key(s[0]) <= key(v) {
      InsertUnique(s[1..], v, key);
      var rest := Insert(s[1..], v, key);
      assert s == [s[0]] + s[1..];
      forall i | 0 <= i < |rest| ensures IdOf(rest[i]) != IdOf(s[0]) {
        assert rest[i] in rest;
      }
    }
  }

  lemma {:induction false} SortUnique(s: seq<Stored>, key: Stored -> int)
    requires UniqueIds(s)
    ensures UniqueIds(StableSort(s, key))
    ensures forall x :: x in StableSort(s, key) <==> x in s
  {
    if s != [] {
      var n := |s| - 1;
      SortUnique(s[..n], key);
      InsertUnique(StableSort(s[..n], key), s[n], key);
      assert s == s[..n] + [s[n]];
    }
  }

  /** The record saved last for an id, if one was. */
  function NewestIn(records: seq<Record>, id: nat): Option<Record> {
    if records == [] then None
    else
      var n := |records| - 1;
      if records[n].event.id == id then Some(records[n]) else NewestIn(records[..n], id)
  }

  lemma {:induction false} NewestMeaning(records: seq<Record>, id: nat)
    ensures NewestIn(records, id).Some? <==> id in Ids(records)
    ensures NewestIn(records, id).Some? ==> NewestIn(records, id).value in records && NewestIn(records, id).value.event.id == id
  {
    if records != [] {
      NewestMeaning(records[..|records| - 1], id);
      assert records == records[..|records| - 1] + [records[|records| - 1]];
    }
  }

  /** `x` is what merging leaves for its id: the newest record saved for it, at its first-stored time. */
  ghost predicate MergedEntry(x: Stored, existing: seq<Stored>, scope: nat, records: seq<Record>, now: int) {
    if IdOf(x) in Ids(records) then
      && x.scope == scope && Some(x.record) == NewestIn(records, IdOf(x))
      && (forall y :: y in existing && IdOf(y) == IdOf(x) ==> x.storedAt == y.storedAt)
      && (!HasId(existing, IdOf(x)) ==> x.storedAt == now)
    else x in existing
  }

  lemma {:induction false} MergedMeaning(existing: seq<Stored>, scope: nat, records: seq<Record>, now: int)
    requires UniqueIds(existing)
    ensures var m := Merged(existing, scope, records, now);
            && UniqueIds(m)
            && (forall x :: x in m ==> MergedEntry(x, existing, scope, records, now))
            && (forall id :: HasId(m, id) <==> HasId(existing, id) || id in Ids(records))
  {
    if records == [] {
    } else {
      var n := |records| - 1;
      MergedMeaning(existing, scope, records[..n], now);
      MergedStep(existing, Merged(existing, scope, records[..n], now), scope, records[..n], records[n], now);
      assert records == records[..n] + [records[n]];
    }
  }

  lemma MergedStep(existing: seq<Stored>, m: seq<Stored>, scope: nat, records: seq<Record>, r: Record, now: int)
    requires UniqueIds(existing) && UniqueIds(m)
    requires forall x :: x in m ==> MergedEntry(x, existing, scope, records, now)
    requires forall id :: HasId(m, id) <==> HasId(existing, id) || id in Ids(records)
    ensures var u := Upsert(m, scope, r, now);
            && UniqueIds(u)
            && (forall x :: x in u ==> MergedEntry(x, existing, scope, records + [r], now))
            && (forall id :: HasId(u, id) <==> HasId(existing, id) || id in Ids(records + [r]))
  {
    UpsertMeaning(m, scope, r, now);
    var u := Upsert(m, scope, r, now);
    assert Ids(records + [r]) == Ids(records) + {r.event.id};
    assert (records + [r])[..|records|] == records;
    forall x | x in u ensures MergedEntry(x, existing, scope, records + [r], now) {
      if IdOf(x) == r.event.id && HasId(m, IdOf(x)) {
        var y :| y in m && IdOf(y) == IdOf(x) && x.storedAt == y.storedAt;
        assert MergedEntry(y, existing, scope, records, now);
      }
    }
    UpsertIds(m, scope, r, now);
  }

  lemma {:induction false} UpsertIds(s: seq<Stored>, scope: nat, r: Record, now: int)
    ensures forall id :: HasId(Upsert(s, scope, r, now), id) <==> HasId(s, id) || id == r.event.id
  {
    var u := Upsert(s, scope, r, now);
    if s == [] {
      assert u[0] in u;
    } else {
      assert forall x :: x in s <==> x == s[0] || x in s[1..];
      assert forall x :: x in u <==> x == u[0] || x in u[1..];
      if IdOf(s[0]) != r.event.id {
        UpsertIds(s[1..], scope, r, now);
        assert u[1..] == Upsert(s[1..], scope, r, now);
      }
      forall id ensures HasId(u, id) <==> HasId(s, id) || id == r.event.id {
        assert HasId(u, id) <==> IdOf(u[0]) == id || HasId(u[1..], id);
        assert HasId(s, id) <==> IdOf(s[0]) == id || HasId(s[1..], id);
      }
    }
  }

  lemma {:induction false} RetainMeaning(c: seq<Stored>, l: Limits)
    requires UniqueIds(c)
    ensures var kept := RetainNewest(c, l);
            && (forall x :: x in kept ==> x in c)
            && UniqueIds(kept) && |kept| <= |c|
            && |kept| <= l.maxEvents && Size(kept) <= l.maxBytes
  {
    if c != [] {
      RetainMeaning(c[1..], l);
      var kept := RetainNewest(c[1..], l);
      SizeAppend(kept, [c[0]]);
      forall i | 0 <= i < |kept| ensures IdOf(kept[i]) != IdOf(c[0]) {
        assert kept[i] in kept;
      }
    }
  }

  /**
   * A candidate survives exactly when, after the newer survivors, the count and byte limits still admit it;
   * the newer survivors come first in the list.
   */
  lemma {:induction false} RetainedExactly(c: seq<Stored>, l: Limits, i: nat)
    requires UniqueIds(c) && i < |c|
    ensures var newer := RetainNewest(c[i + 1..], l); var kept := RetainNewest(c, l);
            && newer <= kept
            && (c[i] in kept <==> |newer| < l.maxEvents && Size(newer) + c[i].record.event.bytes <= l.maxBytes)
  {
    var kept := RetainNewest(c, l);
    RetainMeaning(c[1..], l);
    if i > 0 {
      RetainedExactly(c[1..], l, i - 1);
      assert c[1..][i..] == c[i + 1..];
      assert c[1..][i - 1] == c[i];
    } else {
      assert forall x :: x in c[1..] ==> IdOf(x) != IdOf(c[0]);
    }
  }

  lemma CandidatesMeaning(existing: seq<Stored>, scope: nat, records: seq<Record>, now: int, ttlMs: nat)
    requires UniqueIds(existing)
    ensures var m := Merged(existing, scope, records, now); var c := Candidates(existing, scope, records, now, ttlMs);
            && UniqueIds(c) && Sorted(c, StoredAt)
            && forall x :: x in c <==> x in m && LiveAt(x, ttlMs, now)
  {
    MergedMeaning(existing, scope, records, now);
    var m := Merged(existing, scope, records, now);
    LiveMeaning(m, ttlMs, now);
    SortUnique(LiveOnly(m, ttlMs, now), StoredAt);
    StableSortCorrect(LiveOnly(m, ttlMs, now), StoredAt);
  }

  lemma SaveIsWellFormed(existing: seq<Stored>, scope: nat, records: seq<Record>, now: int, l: Limits)
    requires UniqueIds(existing) && (forall s :: s in existing ==> s.scope == scope) && records != []
    ensures var o := SaveSpec(existing, scope, records, now, l);
            && UniqueIds(o.retained) && (forall s :: s in o.retained ==> s.scope == scope)
            && |o.retained| <= l.maxEvents && Size(o.retained) <= l.maxBytes
            && o.dropped >= 0
  {
    var c := Candidates(existing, scope, records, now, l.ttlMs);
    CandidatesMeaning(existing, scope, records, now, l.ttlMs);
    RetainMeaning(c, l);
    MergedMeaning(existing, scope, records, now);
    forall s | s in RetainNewest(c, l) ensures s.scope == scope {
      assert MergedEntry(s, existing, scope, records, now);
    }
  }

  /**
   * Saving keeps, of the merged entries, exactly the live ones that still fit after the newer survivors; an
   * entry already stored keeps its first-stored time however often it is saved again; the count returned is
   * the number of live entries given up.
   */
  lemma SaveKeepsNewestThatFit(existing: seq<Stored>, scope: nat, records: seq<Record>, now: int, l: Limits, i: nat)
    requires UniqueIds(existing) && records != []
    requires i < |Candidates(existing, scope, records, now, l.ttlMs)|
    ensures var o := SaveSpec(existing, scope, records, now, l);
            var c := Candidates(existing, scope, records, now, l.ttlMs);
            var newer := RetainNewest(c[i + 1..], l);
            && Sorted(c, StoredAt)
            && (forall x :: x in c <==> x in Merged(existing, scope, records, now) && LiveAt(x, l.ttlMs, now))
            && MergedEntry(c[i], existing, scope, records, now)
            && newer <= o.retained
            && (c[i] in o.retained <==> |newer| < l.maxEvents && Size(newer) + c[i].record.event.bytes <= l.maxBytes)
            && o.dropped == |c| - |o.retained|
  {
    CandidatesMeaning(existing, scope, records, now, l.ttlMs);
    MergedMeaning(existing, scope, records, now);
    RetainedExactly(Candidates(existing, scope, records, now, l.ttlMs), l, i);
  }

  /** Younger than the time to live, and with an attempt left. */
  ghost predicate Young(x: Stored, ttlMs: nat, now: int) { now - x.storedAt < ttlMs && x.record.attempts < 8 }

  /** What a save keeps is young; what it merged and does not keep is old, exhausted or without room. */
  lemma SaveKeepsTheYoung(existing: seq<Stored>, scope: nat, records: seq<Record>, now: int, l: Limits)
    requires UniqueIds(existing) && records != []
    ensures forall x :: x in SaveSpec(existing, scope, records, now, l).retained ==>
              x in Merged(existing, scope, records, now) && Young(x, l.ttlMs, now)
    ensures forall x :: x in Merged(existing, scope, records, now) && Young(x, l.ttlMs, now) ==>
              x in Candidates(existing, scope, records, now, l.ttlMs)
  {
    CandidatesMeaning(existing, scope, records, now, l.ttlMs);
    RetainMeaning(Candidates(existing, scope, records, now, l.ttlMs), l);
  }

  /** A load keeps exactly the urgent entries that are young. */
  lemma LoadKeepsTheYoung(existing: seq<Stored>, ttlMs: nat, now: int)
    requires UniqueIds(existing)
    ensures forall x :: x in LoadableOnly(existing, ttlMs, now) <==> x in existing && x.record.priority == Immediate && Young(x, ttlMs, now)
  {
    LoadableMeaning(existing, ttlMs, now);
  }

  lemma {:induction false} RetainLast(c: seq<Stored>, l: Limits)
    requires c != [] && l.maxEvents >= 1 && c[|c| - 1].record.event.bytes <= l.maxBytes
    ensures RetainNewest(c, l) != [] && RetainNewest(c, l)[0] == c[|c| - 1]
  {
    if |c| > 1 { RetainLast(c[1..], l); }
  }

  lemma {:induction false} UpsertAppends(s: seq<Stored>, scope: nat, r: Record, now: int)
    requires !HasId(s, r.event.id)
    ensures Upsert(s, scope, r, now) == s + [Stored(scope, r, now)]
  {
    if s != [] {
      assert s[0] in s;
      assert forall x :: x in s[1..] ==> x in s;
      UpsertAppends(s[1..], scope, r, now);
    }
  }

  /** Unless the clock ran backwards, the save made by a capture keeps its event exactly when the outbox could. */
  lemma SaveKeepsNewArrival(existing: seq<Stored>, scope: nat, r: Record, now: int, l: Limits)
    requires UniqueIds(existing) && ValidLimits(l) && !HasId(existing, r.event.id) && r.attempts < MAX_ATTEMPTS
    requires forall s :: s in existing ==> s.storedAt <= now
    ensures Stored(scope, r, now) in SaveSpec(existing, scope, [r], now, l).retained <==> r.event.bytes <= l.maxBytes
  {
    var x := Stored(scope, r, now);
    var earlier := ArrivalIsLast(existing, scope, r, now, l);
    if r.event.bytes <= l.maxBytes {
      RetainLast(earlier + [x], l);
    } else {
      CandidatesMeaning(existing, scope, [r], now, l.ttlMs);
      TooBigToRetain(earlier + [x], l, x);
    }
  }

  lemma ArrivalIsLast(existing: seq<Stored>, scope: nat, r: Record, now: int, l: Limits) returns (earlier: seq<Stored>)
    requires UniqueIds(existing) && ValidLimits(l) && !HasId(existing, r.event.id) && r.attempts < MAX_ATTEMPTS
    requires forall s :: s in existing ==> s.storedAt <= now
    ensures Candidates(existing, scope, [r], now, l.ttlMs) == earlier + [Stored(scope, r, now)]
  {
    CandidatesWithArrival(existing, scope, r, now, l);
    earlier := StableSort(LiveOnly(existing, l.ttlMs, now), StoredAt);
    LiveMeaning(existing, l.ttlMs, now);
    SortUnique(LiveOnly(existing, l.ttlMs, now), StoredAt);
    InsertLast(earlier, Stored(scope, r, now));
  }

  lemma InsertLast(s: seq<Stored>, x: Stored)
    requires forall y :: y in s ==> y.storedAt <= x.storedAt
    ensures Insert(s, x, StoredAt) == s + [x]
  {
    InsertAt(s, x, StoredAt, |s|);
    assert s[..|s|] + [x] + s[|s|..] == s + [x];
  }

  lemma TooBigToRetain(c: seq<Stored>, l: Limits, x: Stored)
    requires UniqueIds(c) && x.record.event.bytes > l.maxBytes
    ensures x !in RetainNewest(c, l)
  {
    RetainMeaning(c, l);
    if x in RetainNewest(c, l) { SizeAtLeast(RetainNewest(c, l), x); }
  }

  lemma {:induction false} SizeAtLeast(s: seq<Stored>, x: Stored)
    requires x in s
    ensures Size(s) >= x.record.event.bytes
  {
    if x != s[0] { SizeAtLeast(s[1..], x); }
  }

  /** The arrival is merged behind the existing entries and is live. */
  lemma CandidatesWithArrival(existing: seq<Stored>, scope: nat, r: Record, now: int, l: Limits)
    requires ValidLimits(l) && !HasId(existing, r.event.id) && r.attempts < MAX_ATTEMPTS
    ensures Candidates(existing, scope, [r], now, l.ttlMs)
            == Insert(StableSort(LiveOnly(existing, l.ttlMs, now), StoredAt), Stored(scope, r, now), StoredAt)
  {
    var x := Stored(scope, r, now);
    assert [r][..0] == [];
    assert Merged(existing, scope, [], now) == existing;
    UpsertAppends(existing, scope, r, now);
    var m := existing + [x];
    assert Merged(existing, scope, [r], now) == m;
    assert m[..|m| - 1] == existing;
    var live := LiveOnly(existing, l.ttlMs, now);
    assert LiveOnly(m, l.ttlMs, now) == live + [x];
    assert (live + [x])[..|live + [x]| - 1] == live;
  }

  // ----- The outbox --------------------------------------------------------------------------

  class IndexedDbEventOutbox {
    const limits: Limits
    var store: map<Key, Stored>

    ghost predicate Valid()
      reads this
    {
      ValidLimits(limits) && WellKeyed(store)
    }

    constructor (limits: Limits)
      requires ValidLimits(limits)
      ensures Valid() && store == map[] && this.limits == limits
    {
      this.limits := limits;
      store := map[];
    }

    /** The entries of one scope; the order the index gives them in is left open. */
    method GetAll(scope: nat) returns (existing: seq<Stored>)
      requires Valid()
      ensures Enumerates(existing, store, scope)
    {
      existing := [];
      var keys := set k | k in store && k.0 == scope;
      while keys != {}
        invariant forall k :: k in keys ==> k in store && k.0 == scope
        invariant forall s :: s in existing ==> s.scope == scope && KeyOf(s) in store && store[KeyOf(s)] == s
        invariant forall s :: s in existing ==> KeyOf(s) !in keys
        invariant UniqueIds(existing)
        invariant forall k :: k in store && k.0 == scope ==> k in keys || store[k] in existing
        decreases keys
      {
        var key :| key in keys;
        keys := keys - {key};
        existing := existing + [store[key]];
      }
    }

    method Load(scope: nat, now: int) returns (records: seq<Record>, ghost existing: seq<Stored>)
      requires Valid()
      modifies this`store
      ensures Valid() && SameElsewhere(old(store), store, scope)
      ensures Enumerates(existing, old(store), scope)
      ensures records == LoadSpec(existing, limits.ttlMs, now)
      ensures Enumerates(LoadableOnly(existing, limits.ttlMs, now), store, scope)
    {
      var all := GetAll(scope);
      existing := all;
      var valid := [];
      for i := 0 to |all|
        invariant valid == LoadableOnly(all[..i], limits.ttlMs, now)
      {
        assert all[..i + 1][..i] == all[..i];
        if Loadable(all[i], limits.ttlMs, now) { valid := valid + [all[i]]; }
      }
      assert all[..|all|] == all;
      LoadableMeaning(all, limits.ttlMs, now);
      DeleteAllBut(scope, all, valid);
      var sorted := Ordered(valid, Timestamp);
      records := Records(sorted);
    }

    /** Delete the listed entries of a scope that are not to be kept. */
    method DeleteAllBut(scope: nat, existing: seq<Stored>, kept: seq<Stored>)
      requires Valid() && Enumerates(existing, store, scope)
      modifies this`store
      ensures Valid()
      ensures store == map k | k in old(store) && (k.0 != scope || exists s :: s in kept && KeyOf(s) == k) :: old(store)[k]
    {
      var before := store;
      for i := 0 to |existing|
        invariant store.Keys <= before.Keys && forall k :: k in store ==> store[k] == before[k]
        invariant forall k :: k in before ==>
            (k in store <==> !(exists j :: 0 <= j < i && KeyOf(existing[j]) == k) || exists s :: s in kept && KeyOf(s) == k)
      {
        var s := existing[i];
        if !(exists candidate :: candidate in kept && KeyOf(candidate) == KeyOf(s)) {
          store := store - {KeyOf(s)};
        }
      }
      forall k | k in before ensures k in store <==> k.0 != scope || exists s :: s in kept && KeyOf(s) == k {
        if k.0 == scope {
          assert before[k] in existing;
          var j :| 0 <= j < |existing| && existing[j] == before[k];
          assert KeyOf(existing[j]) == k;
        } else {
          assert forall j :: 0 <= j < |existing| ==> existing[j] in existing && KeyOf(existing[j]) != k;
        }
      }
    }

    method Save(scope: nat, records: seq<Record>, now: int)
      returns (dropped: int, ghost existing: seq<Stored>, ghost retained: seq<Stored>)
      requires Valid()
      modifies this`store
      ensures Valid() && SameElsewhere(old(store), store, scope)
      ensures Enumerates(existing, old(store), scope) && Enumerates(retained, store, scope)
      ensures SaveOutcome(retained, dropped) == SaveSpec(existing, scope, records, now, limits)
      ensures dropped >= 0
    {
      var all := GetAll(scope);
      existing, retained := all, all;
      if |records| == 0 {
        return 0, all, all;
      }
      var byKey := all;
      for i := 0 to |records|
        invariant byKey == Merged(all, scope, records[..i], now)
      {
        assert records[..i + 1][..i] == records[..i];
        byKey := Upsert(byKey, scope, records[i], now);
      }
      assert records[..|records|] == records;
      var live := [];
      for i := 0 to |byKey|
        invariant live == LiveOnly(byKey[..i], limits.ttlMs, now)
      {
        assert byKey[..i + 1][..i] == byKey[..i];
        if LiveAt(byKey[i], limits.ttlMs, now) { live := live + [byKey[i]]; }
      }
      assert byKey[..|byKey|] == byKey;
      var candidates := Ordered(live, StoredAt);
      var kept := Retain(candidates);
      retained := kept;
      SaveIsWellFormed(all, scope, records, now, limits);
      DeleteAllBut(scope, all, kept);
      PutAll(scope, kept);
      dropped := |candidates| - |kept|;
    }

    /** The downward retention loop. */
    method Retain(candidates: seq<Stored>) returns (retained: seq<Stored>)
      ensures retained == RetainNewest(candidates, limits)
    {
      retained := [];
      var retainedBytes := 0;
      var n := |candidates|;
      while n > 0
        invariant 0 <= n <= |candidates|
        invariant retained == RetainNewest(candidates[n..], limits) && retainedBytes == Size(retained)
      {
        n := n - 1;
        var s := candidates[n];
        assert candidates[n..][0] == s && candidates[n..][1..] == candidates[n + 1..];
        if |retained| < limits.maxEvents && retainedBytes + s.record.event.bytes <= limits.maxBytes {
          SizeAppend(retained, [s]);
          retained := retained + [s];
          retainedBytes := retainedBytes + s.record.event.bytes;
        }
      }
    }

    /** Put every kept entry; whatever else the scope holds is already gone. */
    method PutAll(scope: nat, kept: seq<Stored>)
      requires Valid() && UniqueIds(kept) && (forall s :: s in kept ==> s.scope == scope)
      requires forall k :: k in store && k.0 == scope ==> exists s :: s in kept && KeyOf(s) == k
      modifies this`store
      ensures Valid() && SameElsewhere(old(store), store, scope) && Enumerates(kept, store, scope)
    {
      for i := 0 to |kept|
        invariant Valid() && SameElsewhere(old(store), store, scope)
        invariant forall j :: 0 <= j < i ==> KeyOf(kept[j]) in store && store[KeyOf(kept[j])] == kept[j]
        invariant forall k :: k in store && k.0 == scope ==> exists s :: s in kept && KeyOf(s) == k
      {
        assert kept[i] in kept;
        store := store[KeyOf(kept[i]) := kept[i]];
      }
      forall k | k in store && k.0 == scope ensures store[k] in kept {
        var s :| s in kept && KeyOf(s) == k;
        var j :| 0 <= j < |kept| && kept[j] == s;
      }
    }

    method Remove(scope: nat, eventIds: seq<nat>)
      requires Valid()
      modifies this`store
      ensures Valid() && SameElsewhere(old(store), store, scope)
      ensures store == map k | k in old(store) && (k.0 != scope || k.1 !in eventIds) :: old(store)[k]
    {
      var before := store;
      for i := 0 to |eventIds|
        invariant store == map k | k in before && (k.0 != scope || k.1 !in eventIds[..i]) :: before[k]
      {
        assert forall id :: id in eventIds[..i + 1] <==> id in eventIds[..i] || id == eventIds[i];
        store := store - {(scope, eventIds[i])};
      }
    }
  }
}
