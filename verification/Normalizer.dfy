/** The property normaliser: what custom properties become before they enter an event. */
module Normalizer {
  import opened Json
  import opened JsHeap
  import opened JsonDepth
  import opened FreshCopies

  const MAX_ARRAY_ITEMS: nat := 100
  const MAX_OBJECT_KEYS: nat := 100
  const MAX_STRING_LENGTH: nat := 2048
  const MAX_KEY_LENGTH: nat := 128

  datatype Failure = TooDeep | NonFiniteNumber | Unsupported | DateInstance | CyclicReference
  datatype Outcome<T> = Ok(value: T) | Err(error: Failure)

  // ----- Normalising -----------------------------------------------------------------------------

  /** Which property keys are left out. */
  type KeyTest = string -> bool

  function Take<T>(s: seq<T>, n: nat): seq<T> { if |s| > n then s[..n] else s }

  function Cut(key: string): string { Take(key, MAX_KEY_LENGTH) }

  /** Assign a property: in place if the object has the key, at the end otherwise. */
  function Put(entries: seq<Entry>, key: string, value: Json): seq<Entry> {
    if entries == [] then [Entry(key, value)]
    else if entries[0].key == key then [Entry(key, value)] + entries[1..]
    else [entries[0]] + Put(entries[1..], key, value)
  }

  function Normalize(sensitive: KeyTest, h: Heap, v: Value, depth: nat, seen: set<nat>): Outcome<Json>
    requires Closed(h) && InHeap(h, v) && depth <= MAX_JSON_DEPTH + 1
    decreases MAX_JSON_DEPTH + 1 - depth, 0, 0
  {
    if depth > MAX_JSON_DEPTH then Err(TooDeep)
    else
      match v
      case Null => Ok(JNull)
      case Bool(b) => Ok(JBool(b))
      case Str(s) => Ok(JString(Take(s, MAX_STRING_LENGTH)))
      case NotFinite => Err(NonFiniteNumber)
      case Num(t) => Ok(JNumber(t))
      case Opaque => Err(Unsupported)
      case Ref(o) =>
        if h[o].Date? then Err(DateInstance)
        else if o in seen then Err(CyclicReference)
        else
          assert forall i :: 0 <= i < |Children(h[o])| ==> InHeap(h, Children(h[o])[i]);
          match h[o]
          case Arr(items) =>
            assert items == Children(h[o]);
            var r := NormalizeItems(sensitive, h, Take(items, MAX_ARRAY_ITEMS), depth + 1, seen + {o});
            if r.Ok? then Ok(JArray(r.value)) else Err(r.error)
          case Rec(fields) =>
            assert forall i :: 0 <= i < |fields| ==> fields[i].value == Children(h[o])[i];
            var r := NormalizeFields(sensitive, h, Take(fields, MAX_OBJECT_KEYS), depth + 1, seen + {o});
            if r.Ok? then Ok(JObject(r.value)) else Err(r.error)
          case Date => Err(DateInstance)
  }

  ghost predicate AllInHeap(h: Heap, items: seq<Value>) { forall i :: 0 <= i < |items| ==> InHeap(h, items[i]) }

  ghost predicate FieldsInHeap(h: Heap, fields: seq<Field>) { forall i :: 0 <= i < |fields| ==> InHeap(h, fields[i].value) }

  /** Items in order; the first failure is the failure of the whole. */
  function NormalizeItems(sensitive: KeyTest, h: Heap, items: seq<Value>, depth: nat, seen: set<nat>): (r: Outcome<seq<Json>>)
    requires Closed(h) && AllInHeap(h, items) && depth <= MAX_JSON_DEPTH + 1
    ensures r.Ok? ==> |r.value| == |items|
    decreases MAX_JSON_DEPTH + 1 - depth, 1, |items|
  {
    if items == [] then Ok([])
    else
      var n := |items| - 1;
      var before := NormalizeItems(sensitive, h, items[..n], depth, seen);
      if before.Err? then before
      else
        var last := Normalize(sensitive, h, items[n], depth, seen);
        if last.Ok? then Ok(before.value + [last.value]) else Err(last.error)
  }

  /** Entries in order, sensitive keys left out, long keys cut. */
  function NormalizeFields(sensitive: KeyTest, h: Heap, fields: seq<Field>, depth: nat, seen: set<nat>): Outcome<seq<Entry>>
    requires Closed(h) && FieldsInHeap(h, fields) && depth <= MAX_JSON_DEPTH + 1
    decreases MAX_JSON_DEPTH + 1 - depth, 1, |fields|
  {
    if fields == [] then Ok([])
    else
      var n := |fields| - 1;
      var before := NormalizeFields(sensitive, h, fields[..n], depth, seen);
      if before.Err? || sensitive(fields[n].key) then before
      else
        var last := Normalize(sensitive, h, fields[n].value, depth, seen);
        if last.Ok? then Ok(Put(before.value, Cut(fields[n].key), last.value)) else Err(last.error)
  }

  lemma ArrayResult(sensitive: KeyTest, h: Heap, o: nat, depth: nat, seen: set<nat>)
    requires Closed(h) && o in h && h[o].Arr? && depth <= MAX_JSON_DEPTH && o !in seen
    ensures var part := Take(h[o].items, MAX_ARRAY_ITEMS);
            && AllInHeap(h, part)
            && Normalize(sensitive, h, Ref(o), depth, seen)
               == var r := NormalizeItems(sensitive, h, part, depth + 1, seen + {o}); if r.Ok? then Ok(JArray(r.value)) else Err(r.error)
  {
    assert AllInHeap(h, Children(h[o]));
  }

  lemma RecordResult(sensitive: KeyTest, h: Heap, o: nat, depth: nat, seen: set<nat>)
    requires Closed(h) && o in h && h[o].Rec? && depth <= MAX_JSON_DEPTH && o !in seen
    ensures var part := Take(h[o].fields, MAX_OBJECT_KEYS);
            && FieldsInHeap(h, part)
            && Normalize(sensitive, h, Ref(o), depth, seen)
               == var r := NormalizeFields(sensitive, h, part, depth + 1, seen + {o}); if r.Ok? then Ok(JObject(r.value)) else Err(r.error)
  {
    assert AllInHeap(h, Children(h[o]));
    assert forall i :: 0 <= i < |h[o].fields| ==> h[o].fields[i].value == Children(h[o])[i];
  }

  // ----- The recursion as written: one shared set of objects under way ------------------------------

  class WeakSet {
    var members: set<nat>

    constructor ()
      ensures members == {}
    {
      members := {};
    }
  }

  /** Whatever the outcome, the set of objects under way is left as it was found. */
  method NormalizeInPlace(sensitive: KeyTest, h: Heap, v: Value, depth: nat, seen: WeakSet) returns (r: Outcome<Json>)
    requires Closed(h) && InHeap(h, v) && depth <= MAX_JSON_DEPTH + 1
    modifies seen
    ensures seen.members == old(seen.members)
    ensures r == Normalize(sensitive, h, v, depth, old(seen.members))
    decreases MAX_JSON_DEPTH + 1 - depth, 0
  {
    if depth > MAX_JSON_DEPTH { return Err(TooDeep); }
    match v {
      case Null => return Ok(JNull);
      case Bool(b) => return Ok(JBool(b));
      case Str(s) => return Ok(JString(Take(s, MAX_STRING_LENGTH)));
      case Num(t) => return Ok(JNumber(t));
      case NotFinite => return Err(NonFiniteNumber);
      case Opaque => return Err(Unsupported);
      case Ref(o) =>
        if h[o].Date? { return Err(DateInstance); }
        if o in seen.members { return Err(CyclicReference); }
        seen.members := seen.members + {o};
        match h[o] {
          case Arr(items) =>
            assert AllInHeap(h, Children(h[o]));
            var rs := NormalizeItemsInPlace(sensitive, h, Take(items, MAX_ARRAY_ITEMS), depth + 1, seen);
            r := if rs.Ok? then Ok(JArray(rs.value)) else Err(rs.error);
          case Rec(fields) =>
            assert AllInHeap(h, Children(h[o]));
            assert forall i :: 0 <= i < |fields| ==> fields[i].value == Children(h[o])[i];
            var rs := NormalizeFieldsInPlace(sensitive, h, Take(fields, MAX_OBJECT_KEYS), depth + 1, seen);
            r := if rs.Ok? then Ok(JObject(rs.value)) else Err(rs.error);
        }
        seen.members := seen.members - {o};
    }
  }

  method NormalizeItemsInPlace(sensitive: KeyTest, h: Heap, items: seq<Value>, depth: nat, seen: WeakSet) returns (r: Outcome<seq<Json>>)
    requires Closed(h) && AllInHeap(h, items) && depth <= MAX_JSON_DEPTH + 1
    modifies seen
    ensures seen.members == old(seen.members)
    ensures r == NormalizeItems(sensitive, h, items, depth, old(seen.members))
    decreases MAX_JSON_DEPTH + 1 - depth, 1
  {
    ghost var s := seen.members;
    var output := [];
    for i := 0 to |items|
      invariant seen.members == s
      invariant NormalizeItems(sensitive, h, items[..i], depth, s) == Ok(output)
    {
      assert items[..i + 1][..i] == items[..i];
      var one := NormalizeInPlace(sensitive, h, items[i], depth, seen);
      if one.Err? {
        ItemsFailEarly(sensitive, h, items, depth, s, i + 1);
        return Err(one.error);
      }
      output := output + [one.value];
    }
    assert items[..|items|] == items;
    r := Ok(output);
  }

  method NormalizeFieldsInPlace(sensitive: KeyTest, h: Heap, fields: seq<Field>, depth: nat, seen: WeakSet) returns (r: Outcome<seq<Entry>>)
    requires Closed(h) && FieldsInHeap(h, fields) && depth <= MAX_JSON_DEPTH + 1
    modifies seen
    ensures seen.members == old(seen.members)
    ensures r == NormalizeFields(sensitive, h, fields, depth, old(seen.members))
    decreases MAX_JSON_DEPTH + 1 - depth, 1
  {
    ghost var s := seen.members;
    var output := [];
    for i := 0 to |fields|
      invariant seen.members == s
      invariant NormalizeFields(sensitive, h, fields[..i], depth, s) == Ok(output)
    {
      assert fields[..i + 1][..i] == fields[..i];
      if sensitive(fields[i].key) { continue; }
      var one := NormalizeInPlace(sensitive, h, fields[i].value, depth, seen);
      if one.Err? {
        FieldsFailEarly(sensitive, h, fields, depth, s, i + 1);
        return Err(one.error);
      }
      output := Put(output, Cut(fields[i].key), one.value);
    }
    assert fields[..|fields|] == fields;
    r := Ok(output);
  }

  lemma {:induction false} ItemsFailEarly(sensitive: KeyTest, h: Heap, items: seq<Value>, depth: nat, seen: set<nat>, i: nat)
    requires Closed(h) && AllInHeap(h, items) && depth <= MAX_JSON_DEPTH + 1 && i <= |items|
    requires NormalizeItems(sensitive, h, items[..i], depth, seen).Err?
    ensures NormalizeItems(sensitive, h, items, depth, seen) == NormalizeItems(sensitive, h, items[..i], depth, seen)
    decreases |items|
  {
    if i < |items| {
      assert items[..|items| - 1][..i] == items[..i];
      ItemsFailEarly(sensitive, h, items[..|items| - 1], depth, seen, i);
    } else {
      assert items[..i] == items;
    }
  }

  lemma {:induction false} FieldsFailEarly(sensitive: KeyTest, h: Heap, fields: seq<Field>, depth: nat, seen: set<nat>, i: nat)
    requires Closed(h) && FieldsInHeap(h, fields) && depth <= MAX_JSON_DEPTH + 1 && i <= |fields|
    requires NormalizeFields(sensitive, h, fields[..i], depth, seen).Err?
    ensures NormalizeFields(sensitive, h, fields, depth, seen) == NormalizeFields(sensitive, h, fields[..i], depth, seen)
    decreases |fields|
  {
    if i < |fields| {
      assert fields[..|fields| - 1][..i] == fields[..i];
      FieldsFailEarly(sensitive, h, fields[..|fields| - 1], depth, seen, i);
    } else {
      assert fields[..i] == fields;
    }
  }

  // ----- The shape of the result -------------------------------------------------------------------

  ghost predicate DistinctKeys(entries: seq<Entry>) {
    forall i, j :: 0 <= i < j < |entries| ==> entries[i].key != entries[j].key
  }

  /** Everything the normaliser promises of its result, below a given depth. */
  ghost predicate Canonical(j: Json, depth: nat)
    decreases j
  {
    depth <= MAX_JSON_DEPTH &&
    match j
    case JString(s) => |s| <= MAX_STRING_LENGTH
    case JArray(items) => |items| <= MAX_ARRAY_ITEMS && forall x :: x in items ==> Canonical(x, depth + 1)
    case JObject(entries) =>
      |entries| <= MAX_OBJECT_KEYS && DistinctKeys(entries)
      && forall e :: e in entries ==> |e.key| <= MAX_KEY_LENGTH && Canonical(e.value, depth + 1)
    case _ => true
  }

  ghost predicate CanonicalEntries(entries: seq<Entry>, depth: nat, most: nat) {
    |entries| <= most && DistinctKeys(entries)
    && forall e :: e in entries ==> |e.key| <= MAX_KEY_LENGTH && Canonical(e.value, depth)
  }

  lemma {:induction false} PutMeaning(entries: seq<Entry>, key: string, value: Json)
    requires DistinctKeys(entries)
    ensures var r := Put(entries, key, value);
            && DistinctKeys(r) && |r| <= |entries| + 1
            && (forall e :: e in r <==> if e.key == key then e.value == value else e in entries)
  {
    if entries != [] {
      assert forall e :: e in entries <==> e == entries[0] || e in entries[1..];
      if entries[0].key == key {
        assert forall e :: e in entries[1..] ==> e.key != key;
      } else {
        PutMeaning(entries[1..], key, value);
        var rest := Put(entries[1..], key, value);
        forall i | 0 <= i < |rest| ensures rest[i].key != entries[0].key {
          assert rest[i] in rest;
        }
      }
    }
  }

  lemma {:induction false} ResultIsCanonical(sensitive: KeyTest, h: Heap, v: Value, depth: nat, seen: set<nat>)
    requires Closed(h) && InHeap(h, v) && depth <= MAX_JSON_DEPTH + 1
    requires Normalize(sensitive, h, v, depth, seen).Ok?
    ensures Canonical(Normalize(sensitive, h, v, depth, seen).value, depth)
    decreases MAX_JSON_DEPTH + 1 - depth, 0, 0
  {
    if v.Ref? {
      assert AllInHeap(h, Children(h[v.id]));
      match h[v.id]
      case Arr(items) => ItemsAreCanonical(sensitive, h, Take(items, MAX_ARRAY_ITEMS), depth + 1, seen + {v.id});
      case Rec(fields) =>
        assert forall i :: 0 <= i < |fields| ==> fields[i].value == Children(h[v.id])[i];
        FieldsAreCanonical(sensitive, h, Take(fields, MAX_OBJECT_KEYS), depth + 1, seen + {v.id});
    }
  }

  lemma {:induction false} ItemsAreCanonical(sensitive: KeyTest, h: Heap, items: seq<Value>, depth: nat, seen: set<nat>)
    requires Closed(h) && AllInHeap(h, items) && depth <= MAX_JSON_DEPTH + 1
    requires NormalizeItems(sensitive, h, items, depth, seen).Ok?
    ensures forall x :: x in NormalizeItems(sensitive, h, items, depth, seen).value ==> Canonical(x, depth)
    decreases MAX_JSON_DEPTH + 1 - depth, 1, |items|
  {
    if items != [] {
      var n := |items| - 1;
      ItemsAreCanonical(sensitive, h, items[..n], depth, seen);
      ResultIsCanonical(sensitive, h, items[n], depth, seen);
    }
  }

  lemma {:induction false} FieldsAreCanonical(sensitive: KeyTest, h: Heap, fields: seq<Field>, depth: nat, seen: set<nat>)
    requires Closed(h) && FieldsInHeap(h, fields) && depth <= MAX_JSON_DEPTH + 1
    requires NormalizeFields(sensitive, h, fields, depth, seen).Ok?
    ensures CanonicalEntries(NormalizeFields(sensitive, h, fields, depth, seen).value, depth, |fields|)
    decreases MAX_JSON_DEPTH + 1 - depth, 1, |fields|
  {
    if fields != [] {
      var n := |fields| - 1;
      FieldsAreCanonical(sensitive, h, fields[..n], depth, seen);
      if !sensitive(fields[n].key) {
        ResultIsCanonical(sensitive, h, fields[n].value, depth, seen);
        PutMeaning(NormalizeFields(sensitive, h, fields[..n], depth, seen).value, Cut(fields[n].key),
                   Normalize(sensitive, h, fields[n].value, depth, seen).value);
      }
    }
  }

  lemma {:induction false} CanonicalIsWithin(j: Json, depth: nat)
    requires Canonical(j, depth)
    ensures TreeWithin(j, MAX_JSON_DEPTH, depth)
    decreases j
  {
    match j
    case JArray(items) =>
      assert items == [] || items[0] in items;
      forall x | x in items ensures TreeWithin(x, MAX_JSON_DEPTH, depth + 1) && depth < MAX_JSON_DEPTH {
        CanonicalIsWithin(x, depth + 1);
      }
    case JObject(entries) =>
      assert entries == [] || entries[0] in entries;
      forall e | e in entries ensures TreeWithin(e.value, MAX_JSON_DEPTH, depth + 1) && depth < MAX_JSON_DEPTH {
        CanonicalIsWithin(e.value, depth + 1);
      }
    case _ =>
  }

  /**
   * Normaliser and validator agree: whatever the input, cyclic or shared, the objects a successful call builds
   * pass the validator's depth check for custom properties.
   */
  lemma NormalizedPassesDepthCheck(sensitive: KeyTest, h: Heap, v: Value, n: nat)
    requires Closed(h) && InHeap(h, v) && Normalize(sensitive, h, v, 0, {}).Ok?
    ensures var built := FreshCopy(Normalize(sensitive, h, v, 0, {}).value, n);
            && Represents(built.heap, built.value, Normalize(sensitive, h, v, 0, {}).value)
            && Closed(built.heap) && InHeap(built.heap, built.value)
            && SinglePath(built.heap, built.value) && WithinLimit(built.heap, built.value, MAX_JSON_DEPTH, 0)
  {
    var j := Normalize(sensitive, h, v, 0, {}).value;
    ResultIsCanonical(sensitive, h, v, 0, {});
    CanonicalIsWithin(j, 0);
    DepthCheckOnFreshCopies(j, n, MAX_JSON_DEPTH, 0);
  }

  // ----- Sensitive keys in the result --------------------------------------------------------------

  /** No key at any depth is sensitive. */
  ghost predicate Clean(sensitive: KeyTest, j: Json)
    decreases j
  {
    match j
    case JArray(items) => forall x :: x in items ==> Clean(sensitive, x)
    case JObject(entries) => forall e :: e in entries ==> !sensitive(e.key) && Clean(sensitive, e.value)
    case _ => true
  }

  ghost predicate CleanEntries(sensitive: KeyTest, entries: seq<Entry>) {
    forall e :: e in entries ==> !sensitive(e.key) && Clean(sensitive, e.value)
  }

  /** The property is neither left out nor overwritten by a later one whose cut key is the same. */
  ghost predicate Kept(sensitive: KeyTest, fields: seq<Field>, i: nat) {
    && i < |fields| && !sensitive(fields[i].key)
    && forall k :: i < k < |fields| && !sensitive(fields[k].key) ==> Cut(fields[k].key) != Cut(fields[i].key)
  }

  /** Cutting makes no key sensitive, among the properties kept at any depth of the input. */
  ghost predicate CutsSafely(sensitive: KeyTest, h: Heap, v: Value, depth: nat)
    requires Closed(h) && InHeap(h, v)
    decreases MAX_JSON_DEPTH + 1 - depth
  {
    depth <= MAX_JSON_DEPTH && v.Ref? ==>
      assert AllInHeap(h, Children(h[v.id]));
      match h[v.id]
      case Arr(items) => forall i :: 0 <= i < |Take(items, MAX_ARRAY_ITEMS)| ==> CutsSafely(sensitive, h, Children(h[v.id])[i], depth + 1)
      case Rec(fields) =>
        forall i :: 0 <= i < |Take(fields, MAX_OBJECT_KEYS)| && Kept(sensitive, Take(fields, MAX_OBJECT_KEYS), i) ==>
          !sensitive(Cut(fields[i].key)) && CutsSafely(sensitive, h, Children(h[v.id])[i], depth + 1)
      case Date => true
  }

  /** The items of a result are the results of the items. */
  lemma {:induction false} ItemResults(sensitive: KeyTest, h: Heap, items: seq<Value>, depth: nat, seen: set<nat>)
    requires Closed(h) && AllInHeap(h, items) && depth <= MAX_JSON_DEPTH + 1
    requires NormalizeItems(sensitive, h, items, depth, seen).Ok?
    ensures var r := NormalizeItems(sensitive, h, items, depth, seen).value;
            forall i :: 0 <= i < |items| ==> Normalize(sensitive, h, items[i], depth, seen) == Ok(r[i])
    decreases |items|
  {
    if items != [] {
      ItemResults(sensitive, h, items[..|items| - 1], depth, seen);
    }
  }

  /** `e` is what the `i`-th property becomes. */
  ghost predicate EntryOf(sensitive: KeyTest, h: Heap, fields: seq<Field>, depth: nat, seen: set<nat>, i: nat, e: Entry)
    requires Closed(h) && FieldsInHeap(h, fields) && depth <= MAX_JSON_DEPTH + 1
  {
    Kept(sensitive, fields, i) && e.key == Cut(fields[i].key) && Normalize(sensitive, h, fields[i].value, depth, seen) == Ok(e.value)
  }

  /** The entries of a result are exactly what the kept properties become. */
  lemma {:induction false} FieldResults(sensitive: KeyTest, h: Heap, fields: seq<Field>, depth: nat, seen: set<nat>)
    requires Closed(h) && FieldsInHeap(h, fields) && depth <= MAX_JSON_DEPTH + 1
    requires NormalizeFields(sensitive, h, fields, depth, seen).Ok?
    ensures forall i: nat :: Kept(sensitive, fields, i) ==> Normalize(sensitive, h, fields[i].value, depth, seen).Ok?
    ensures forall e :: e in NormalizeFields(sensitive, h, fields, depth, seen).value
                        <==> exists i :: EntryOf(sensitive, h, fields, depth, seen, i, e)
    decreases |fields|
  {
    if fields != [] {
      var n := |fields| - 1;
      FieldResults(sensitive, h, fields[..n], depth, seen);
      FieldsAreCanonical(sensitive, h, fields[..n], depth, seen);
      KeptInFront(sensitive, fields);
      if !sensitive(fields[n].key) {
        PutMeaning(NormalizeFields(sensitive, h, fields[..n], depth, seen).value, Cut(fields[n].key),
                   Normalize(sensitive, h, fields[n].value, depth, seen).value);
      }
      forall e
        ensures e in NormalizeFields(sensitive, h, fields, depth, seen).value
                <==> exists i :: EntryOf(sensitive, h, fields, depth, seen, i, e)
      {
        LastFieldResult(sensitive, h, fields, depth, seen, e);
      }
    }
  }

  lemma KeptInFront(sensitive: KeyTest, fields: seq<Field>)
    requires fields != []
    ensures var n := |fields| - 1;
            forall i: nat :: i < n ==>
              (Kept(sensitive, fields, i) <==>
                 Kept(sensitive, fields[..n], i) && (sensitive(fields[n].key) || Cut(fields[n].key) != Cut(fields[i].key)))
  {
    var n := |fields| - 1;
    forall i: nat | i < n
      ensures Kept(sensitive, fields, i) <==>
                Kept(sensitive, fields[..n], i) && (sensitive(fields[n].key) || Cut(fields[n].key) != Cut(fields[i].key))
    {
      assert forall k :: i < k < n ==> fields[..n][k] == fields[k];
    }
  }

  /** How the last property changes which property an entry comes from. */
  lemma LastFieldResult(sensitive: KeyTest, h: Heap, fields: seq<Field>, depth: nat, seen: set<nat>, e: Entry)
    requires Closed(h) && FieldsInHeap(h, fields) && depth <= MAX_JSON_DEPTH + 1 && fields != []
    ensures var n := |fields| - 1; var last := fields[n];
            (exists i :: EntryOf(sensitive, h, fields, depth, seen, i, e)) <==>
              if !sensitive(last.key) && e.key == Cut(last.key) then Normalize(sensitive, h, last.value, depth, seen) == Ok(e.value)
              else exists i :: EntryOf(sensitive, h, fields[..n], depth, seen, i, e)
  {
    var n := |fields| - 1;
    var front := fields[..n];
    KeptInFront(sensitive, fields);
    if i: nat :| EntryOf(sensitive, h, front, depth, seen, i, e) {
      if sensitive(fields[n].key) || e.key != Cut(fields[n].key) { assert EntryOf(sensitive, h, fields, depth, seen, i, e); }
    }
    if i: nat :| EntryOf(sensitive, h, fields, depth, seen, i, e) {
      if i < n { assert EntryOf(sensitive, h, front, depth, seen, i, e); }
    }
    if !sensitive(fields[n].key) && e.key == Cut(fields[n].key) && Normalize(sensitive, h, fields[n].value, depth, seen) == Ok(e.value) {
      assert EntryOf(sensitive, h, fields, depth, seen, n, e);
    }
  }

  lemma {:induction false} CleanExactly(sensitive: KeyTest, h: Heap, v: Value, depth: nat, seen: set<nat>)
    requires Closed(h) && InHeap(h, v) && depth <= MAX_JSON_DEPTH + 1
    requires Normalize(sensitive, h, v, depth, seen).Ok?
    ensures Clean(sensitive, Normalize(sensitive, h, v, depth, seen).value) <==> CutsSafely(sensitive, h, v, depth)
    decreases MAX_JSON_DEPTH + 1 - depth, 1
  {
    if v.Ref? {
      var o := v.id;
      assert AllInHeap(h, Children(h[o]));
      match h[o]
      case Arr(items) =>
        var part := Take(items, MAX_ARRAY_ITEMS);
        ItemResults(sensitive, h, part, depth + 1, seen + {o});
        var r := NormalizeItems(sensitive, h, part, depth + 1, seen + {o}).value;
        forall i | 0 <= i < |part| ensures Clean(sensitive, r[i]) <==> CutsSafely(sensitive, h, Children(h[o])[i], depth + 1) {
          CleanExactly(sensitive, h, part[i], depth + 1, seen + {o});
        }
        assert (forall x :: x in r ==> Clean(sensitive, x)) <==> forall i :: 0 <= i < |part| ==> Clean(sensitive, r[i]);
      case Rec(fields) =>
        assert forall i :: 0 <= i < |fields| ==> fields[i].value == Children(h[o])[i];
        FieldsCleanExactly(sensitive, h, o, depth, seen);
    }
  }

  lemma {:induction false} FieldsCleanExactly(sensitive: KeyTest, h: Heap, o: nat, depth: nat, seen: set<nat>)
    requires Closed(h) && o in h && h[o].Rec? && depth <= MAX_JSON_DEPTH
    requires Normalize(sensitive, h, Ref(o), depth, seen).Ok?
    ensures Clean(sensitive, Normalize(sensitive, h, Ref(o), depth, seen).value) <==> CutsSafely(sensitive, h, Ref(o), depth)
    decreases MAX_JSON_DEPTH + 1 - depth, 0
  {
    var part, under := Take(h[o].fields, MAX_OBJECT_KEYS), seen + {o};
    UnfoldRecord(sensitive, h, o, depth, seen);
    EntriesCleanExactly(sensitive, h, part, depth + 1, under);
    forall i: nat | Kept(sensitive, part, i)
      ensures PropertyClean(sensitive, h, part, depth + 1, under, i) <==> PropertySafe(sensitive, h, part, depth + 1, i)
    {
      CleanExactly(sensitive, h, part[i].value, depth + 1, under);
    }
  }

  ghost predicate PropertyClean(sensitive: KeyTest, h: Heap, fields: seq<Field>, depth: nat, seen: set<nat>, i: nat)
    requires Closed(h) && FieldsInHeap(h, fields) && depth <= MAX_JSON_DEPTH + 1 && i < |fields|
  {
    && Normalize(sensitive, h, fields[i].value, depth, seen).Ok?
    && !sensitive(Cut(fields[i].key)) && Clean(sensitive, Normalize(sensitive, h, fields[i].value, depth, seen).value)
  }

  ghost predicate PropertySafe(sensitive: KeyTest, h: Heap, fields: seq<Field>, depth: nat, i: nat)
    requires Closed(h) && FieldsInHeap(h, fields) && i < |fields|
  {
    !sensitive(Cut(fields[i].key)) && CutsSafely(sensitive, h, fields[i].value, depth)
  }

  lemma UnfoldRecord(sensitive: KeyTest, h: Heap, o: nat, depth: nat, seen: set<nat>)
    requires Closed(h) && o in h && h[o].Rec? && depth <= MAX_JSON_DEPTH
    requires Normalize(sensitive, h, Ref(o), depth, seen).Ok?
    ensures var part := Take(h[o].fields, MAX_OBJECT_KEYS);
            && FieldsInHeap(h, part)
            && NormalizeFields(sensitive, h, part, depth + 1, seen + {o}).Ok?
            && (Clean(sensitive, Normalize(sensitive, h, Ref(o), depth, seen).value)
                <==> CleanEntries(sensitive, NormalizeFields(sensitive, h, part, depth + 1, seen + {o}).value))
            && (CutsSafely(sensitive, h, Ref(o), depth)
                <==> forall i: nat :: Kept(sensitive, part, i) ==> PropertySafe(sensitive, h, part, depth + 1, i))
            && forall i: nat :: Kept(sensitive, part, i) ==> Normalize(sensitive, h, part[i].value, depth + 1, seen + {o}).Ok?
  {
    assert AllInHeap(h, Children(h[o]));
    var fields := h[o].fields;
    assert forall i :: 0 <= i < |fields| ==> fields[i].value == Children(h[o])[i];
    FieldResults(sensitive, h, Take(fields, MAX_OBJECT_KEYS), depth + 1, seen + {o});
  }

  lemma EntriesCleanExactly(sensitive: KeyTest, h: Heap, fields: seq<Field>, depth: nat, seen: set<nat>)
    requires Closed(h) && FieldsInHeap(h, fields) && depth <= MAX_JSON_DEPTH + 1
    requires NormalizeFields(sensitive, h, fields, depth, seen).Ok?
    ensures CleanEntries(sensitive, NormalizeFields(sensitive, h, fields, depth, seen).value) <==>
              forall i: nat :: Kept(sensitive, fields, i) ==> PropertyClean(sensitive, h, fields, depth, seen, i)
  {
    FieldResults(sensitive, h, fields, depth, seen);
    var entries := NormalizeFields(sensitive, h, fields, depth, seen).value;
    forall i: nat | Kept(sensitive, fields, i)
      ensures Entry(Cut(fields[i].key), Normalize(sensitive, h, fields[i].value, depth, seen).value) in entries
    {
      var e := Entry(Cut(fields[i].key), Normalize(sensitive, h, fields[i].value, depth, seen).value);
      assert EntryOf(sensitive, h, fields, depth, seen, i, e);
    }
  }

  lemma {:induction false} ShortKeysCutSafely(sensitive: KeyTest, h: Heap, v: Value, depth: nat)
    requires Closed(h) && InHeap(h, v) && KeysShort(h)
    ensures CutsSafely(sensitive, h, v, depth)
    decreases MAX_JSON_DEPTH + 1 - depth
  {
    if depth <= MAX_JSON_DEPTH && v.Ref? {
      var children := Children(h[v.id]);
      assert AllInHeap(h, children);
      forall i | 0 <= i < |children| ensures CutsSafely(sensitive, h, children[i], depth + 1) {
        ShortKeysCutSafely(sensitive, h, children[i], depth + 1);
      }
    }
  }

  ghost predicate KeysShort(h: Heap) {
    forall o :: o in h && h[o].Rec? ==> forall i :: 0 <= i < |h[o].fields| ==> |h[o].fields[i].key| <= MAX_KEY_LENGTH
  }

  /**
   * No key at any depth of a result is sensitive exactly when cutting makes no kept key sensitive: keys are
   * checked before they are cut. With keys of at most 128 characters that is always so.
   */
  lemma NoSensitiveKeySurvives(sensitive: KeyTest, h: Heap, v: Value)
    requires Closed(h) && InHeap(h, v) && Normalize(sensitive, h, v, 0, {}).Ok?
    ensures Clean(sensitive, Normalize(sensitive, h, v, 0, {}).value) <==> CutsSafely(sensitive, h, v, 0)
    ensures KeysShort(h) ==> Clean(sensitive, Normalize(sensitive, h, v, 0, {}).value)
  {
    CleanExactly(sensitive, h, v, 0, {});
    if KeysShort(h) { ShortKeysCutSafely(sensitive, h, v, 0); }
  }

  // ----- Normalising again -------------------------------------------------------------------------

  function Size(j: Json): nat
    decreases j, 1
  {
    match j
    case JArray(items) => 1 + SizeOfItems(items)
    case JObject(entries) => 1 + SizeOfEntries(entries)
    case _ => 1
  }

  function SizeOfItems(items: seq<Json>): nat
    decreases items, 0
  {
    if items == [] then 0 else Size(items[0]) + SizeOfItems(items[1..])
  }

  function SizeOfEntries(entries: seq<Entry>): nat
    decreases entries, 0
  {
    if entries == [] then 0 else Size(entries[0].value) + SizeOfEntries(entries[1..])
  }

  lemma {:induction false} ItemIsSmaller(items: seq<Json>, x: Json)
    requires x in items
    ensures Size(x) <= SizeOfItems(items)
  {
    if x != items[0] { ItemIsSmaller(items[1..], x); }
  }

  lemma {:induction false} EntryIsSmaller(entries: seq<Entry>, e: Entry)
    requires e in entries
    ensures Size(e.value) <= SizeOfEntries(entries)
  {
    if e != entries[0] { EntryIsSmaller(entries[1..], e); }
  }

  /** Everything under way copies a bigger tree than the one at hand, so nothing at hand is under way. */
  ghost predicate AncestorsBigger(h: Heap, seen: set<nat>, size: nat) {
    forall o :: o in seen ==> exists t :: Represents(h, Ref(o), t) && Size(t) > size
  }

  lemma NotUnderWay(h: Heap, v: Value, j: Json, seen: set<nat>)
    requires v.Ref? && Represents(h, v, j) && AncestorsBigger(h, seen, Size(j))
    ensures v.id !in seen
  {
    if v.id in seen {
      var t :| Represents(h, Ref(v.id), t) && Size(t) > Size(j);
      RepresentsOne(h, v, j, t);
    }
  }

  lemma AncestorsStep(h: Heap, seen: set<nat>, o: nat, j: Json, size: nat)
    requires AncestorsBigger(h, seen, Size(j)) && Represents(h, Ref(o), j) && Size(j) > size
    ensures AncestorsBigger(h, seen + {o}, size)
  {
    forall x | x in seen + {o} ensures exists t :: Represents(h, Ref(x), t) && Size(t) > size {
      if x != o {
        var t :| Represents(h, Ref(x), t) && Size(t) > Size(j);
      }
    }
  }

  lemma {:induction false} NormalizeFixes(sensitive: KeyTest, h: Heap, v: Value, j: Json, depth: nat, seen: set<nat>)
    requires Closed(h) && InHeap(h, v) && depth <= MAX_JSON_DEPTH + 1
    requires Represents(h, v, j) && Canonical(j, depth) && Clean(sensitive, j) && AncestorsBigger(h, seen, Size(j))
    ensures Normalize(sensitive, h, v, depth, seen) == Ok(j)
    decreases j, 1, 0
  {
    match j
    case JArray(items) =>
      NotUnderWay(h, v, j, seen);
      AncestorsStep(h, seen, v.id, j, SizeOfItems(items));
      ArrayFixes(sensitive, h, v.id, items, depth, seen);
    case JObject(entries) =>
      NotUnderWay(h, v, j, seen);
      AncestorsStep(h, seen, v.id, j, SizeOfEntries(entries));
      RecordFixes(sensitive, h, v.id, entries, depth, seen);
    case _ =>
  }

  lemma {:induction false} ArrayFixes(sensitive: KeyTest, h: Heap, o: nat, items: seq<Json>, depth: nat, seen: set<nat>)
    requires Closed(h) && o in h && h[o].Arr? && |h[o].items| == |items| <= MAX_ARRAY_ITEMS
    requires depth <= MAX_JSON_DEPTH && o !in seen && AncestorsBigger(h, seen + {o}, SizeOfItems(items))
    requires forall i :: 0 <= i < |items| ==> Represents(h, h[o].items[i], items[i])
    requires forall x :: x in items ==> Canonical(x, depth + 1) && Clean(sensitive, x)
    ensures Normalize(sensitive, h, Ref(o), depth, seen) == Ok(JArray(items))
    decreases items, 1, 0
  {
    ArrayResult(sensitive, h, o, depth, seen);
    ItemsFixed(sensitive, h, h[o].items, items, depth + 1, seen + {o});
  }

  lemma {:induction false} RecordFixes(sensitive: KeyTest, h: Heap, o: nat, entries: seq<Entry>, depth: nat, seen: set<nat>)
    requires Closed(h) && o in h && h[o].Rec? && |h[o].fields| == |entries| <= MAX_OBJECT_KEYS
    requires depth <= MAX_JSON_DEPTH && o !in seen && AncestorsBigger(h, seen + {o}, SizeOfEntries(entries))
    requires forall i :: 0 <= i < |entries| ==>
               h[o].fields[i].key == entries[i].key && Represents(h, h[o].fields[i].value, entries[i].value)
    requires CanonicalEntries(entries, depth + 1, |entries|) && CleanEntries(sensitive, entries)
    ensures Normalize(sensitive, h, Ref(o), depth, seen) == Ok(JObject(entries))
    decreases entries, 1, 0
  {
    RecordResult(sensitive, h, o, depth, seen);
    AllFieldsFixed(sensitive, h, h[o].fields, entries, depth + 1, seen + {o});
  }

  lemma {:induction false} AllFieldsFixed(sensitive: KeyTest, h: Heap, fields: seq<Field>, entries: seq<Entry>, depth: nat, seen: set<nat>)
    requires Closed(h) && FieldsInHeap(h, fields) && depth <= MAX_JSON_DEPTH + 1 && |fields| == |entries|
    requires forall i :: 0 <= i < |entries| ==> fields[i].key == entries[i].key && Represents(h, fields[i].value, entries[i].value)
    requires CanonicalEntries(entries, depth, |entries|) && CleanEntries(sensitive, entries)
    requires AncestorsBigger(h, seen, SizeOfEntries(entries))
    ensures NormalizeFields(sensitive, h, fields, depth, seen) == Ok(entries)
    decreases entries, 0, |entries| + 1
  {
    FieldsFixed(sensitive, h, fields, entries, depth, seen, |entries|);
    assert entries[..|entries|] == entries && fields[..|entries|] == fields;
  }

  lemma SmallerAncestors(h: Heap, seen: set<nat>, big: nat, small: nat)
    requires AncestorsBigger(h, seen, big) && small <= big
    ensures AncestorsBigger(h, seen, small)
  {
    forall x | x in seen ensures exists t :: Represents(h, Ref(x), t) && Size(t) > small {
      var t :| Represents(h, Ref(x), t) && Size(t) > big;
    }
  }

  lemma {:induction false} ItemsFixed(sensitive: KeyTest, h: Heap, vs: seq<Value>, items: seq<Json>, depth: nat, seen: set<nat>)
    requires Closed(h) && AllInHeap(h, vs) && depth <= MAX_JSON_DEPTH + 1 && |vs| == |items|
    requires forall i :: 0 <= i < |items| ==> Represents(h, vs[i], items[i])
    requires forall x :: x in items ==> Canonical(x, depth) && Clean(sensitive, x)
    requires AncestorsBigger(h, seen, SizeOfItems(items))
    ensures NormalizeItems(sensitive, h, vs, depth, seen) == Ok(items)
    decreases items, 0, |items|
  {
    if items != [] {
      var n := |items| - 1;
      assert items == items[..n] + [items[n]] && items[n] in items;
      assert forall x :: x in items[..n] ==> x in items;
      SizePrefix(items, n);
      SmallerAncestors(h, seen, SizeOfItems(items), SizeOfItems(items[..n]));
      ItemsFixed(sensitive, h, vs[..n], items[..n], depth, seen);
      ItemIsSmaller(items, items[n]);
      SmallerAncestors(h, seen, SizeOfItems(items), Size(items[n]));
      NormalizeFixes(sensitive, h, vs[n], items[n], depth, seen);
    }
  }

  lemma {:induction false} SizePrefix(items: seq<Json>, n: nat)
    requires n <= |items|
    ensures SizeOfItems(items[..n]) <= SizeOfItems(items)
  {
    if n > 0 {
      assert items[..n][1..] == items[1..][..n - 1];
      SizePrefix(items[1..], n - 1);
    }
  }

  lemma {:induction false} PutAppends(entries: seq<Entry>, key: string, value: Json)
    requires forall e :: e in entries ==> e.key != key
    ensures Put(entries, key, value) == entries + [Entry(key, value)]
  {
    if entries != [] {
      assert entries[0] in entries && forall e :: e in entries[1..] ==> e in entries;
      PutAppends(entries[1..], key, value);
    }
  }

  lemma {:induction false} FieldsFixed(sensitive: KeyTest, h: Heap, fields: seq<Field>, entries: seq<Entry>, depth: nat,
                                       seen: set<nat>, k: nat)
    requires Closed(h) && FieldsInHeap(h, fields) && depth <= MAX_JSON_DEPTH + 1 && |fields| == |entries| && k <= |entries|
    requires forall i :: 0 <= i < |entries| ==> fields[i].key == entries[i].key && Represents(h, fields[i].value, entries[i].value)
    requires CanonicalEntries(entries, depth, |entries|) && CleanEntries(sensitive, entries)
    requires AncestorsBigger(h, seen, SizeOfEntries(entries))
    ensures NormalizeFields(sensitive, h, fields[..k], depth, seen) == Ok(entries[..k])
    decreases entries, 0, k
  {
    if k > 0 {
      var n := k - 1;
      FieldsFixed(sensitive, h, fields, entries, depth, seen, n);
      assert fields[..k][..n] == fields[..n] && entries[n] in entries;
      EntryIsSmaller(entries, entries[n]);
      SmallerAncestors(h, seen, SizeOfEntries(entries), Size(entries[n].value));
      NormalizeFixes(sensitive, h, fields[n].value, entries[n].value, depth, seen);
      PutAppends(entries[..n], entries[n].key, entries[n].value);
      assert fields[..k][n] == fields[n] && Cut(fields[n].key) == entries[n].key;
      assert entries[..n] + [entries[n]] == entries[..k];
    } else {
      assert fields[..0] == [] && entries[..0] == [];
    }
  }

  /** Where a copy of a normalised value is stored, every kept key is short, so cutting it again is safe. */
  lemma {:induction false} CopyCutsSafely(sensitive: KeyTest, h: Heap, v: Value, j: Json, depth: nat)
    requires Closed(h) && InHeap(h, v) && Represents(h, v, j) && Canonical(j, depth)
    ensures CutsSafely(sensitive, h, v, depth)
    decreases j
  {
    if v.Ref? { assert AllInHeap(h, Children(h[v.id])); }
    match j
    case JArray(items) =>
      forall i | 0 <= i < |items| ensures CutsSafely(sensitive, h, Children(h[v.id])[i], depth + 1) {
        assert items[i] in items;
        CopyCutsSafely(sensitive, h, Children(h[v.id])[i], items[i], depth + 1);
      }
    case JObject(entries) =>
      forall i | 0 <= i < |entries|
        ensures CutsSafely(sensitive, h, Children(h[v.id])[i], depth + 1) && |h[v.id].fields[i].key| <= MAX_KEY_LENGTH
      {
        assert entries[i] in entries;
        CopyCutsSafely(sensitive, h, Children(h[v.id])[i], entries[i].value, depth + 1);
      }
    case _ =>
  }

  /** Normalising a result again, wherever it is stored, changes nothing exactly when the first cuts were safe. */
  lemma NormalizeIsIdempotent(sensitive: KeyTest, h: Heap, v: Value, h': Heap, v': Value)
    requires Closed(h) && InHeap(h, v) && Normalize(sensitive, h, v, 0, {}).Ok?
    requires Closed(h') && InHeap(h', v') && Represents(h', v', Normalize(sensitive, h, v, 0, {}).value)
    ensures Normalize(sensitive, h', v', 0, {}) == Normalize(sensitive, h, v, 0, {}) <==> CutsSafely(sensitive, h, v, 0)
    ensures KeysShort(h) ==> Normalize(sensitive, h', v', 0, {}) == Normalize(sensitive, h, v, 0, {})
  {
    var j := Normalize(sensitive, h, v, 0, {}).value;
    ResultIsCanonical(sensitive, h, v, 0, {});
    NoSensitiveKeySurvives(sensitive, h, v);
    CopyCutsSafely(sensitive, h', v', j, 0);
    if Clean(sensitive, j) { NormalizeFixes(sensitive, h', v', j, 0, {}); }
    if Normalize(sensitive, h', v', 0, {}).Ok? { NoSensitiveKeySurvives(sensitive, h', v'); }
  }
}
