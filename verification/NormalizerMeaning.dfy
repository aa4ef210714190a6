/** What normalising makes of a value, and when and why it fails, read off the value itself. */
module NormalizerMeaning {
  import opened Events
  import opened Json
  import opened JsHeap
  import opened JsonDepth
  import opened Normalizer

  function Least(a: nat, b: nat): nat { if a < b then a else b }

  /** The longest beginning of `s` within the limit. */
  ghost predicate IsStart(s: string, limit: nat, start: string) {
    |start| == Least(|s|, limit) && forall i :: 0 <= i < |start| ==> start[i] == s[i]
  }

  // ----- What a value becomes --------------------------------------------------------------------

  /** The `i`-th property is among the first hundred, not left out, and becomes an entry with this key. */
  ghost predicate Gives(sensitive: KeyTest, fields: seq<Field>, i: nat, key: string) {
    i < Least(|fields|, 100) && !sensitive(fields[i].key) && IsStart(fields[i].key, 128, key)
  }

  /** And no later property becomes an entry with the same key. */
  ghost predicate GivesLast(sensitive: KeyTest, fields: seq<Field>, i: nat, key: string) {
    Gives(sensitive, fields, i, key) && forall k: nat :: i < k ==> !Gives(sensitive, fields, k, key)
  }

  ghost predicate GivenEarlier(sensitive: KeyTest, fields: seq<Field>, i: nat, key: string) {
    exists k: nat :: k < i && Gives(sensitive, fields, k, key)
  }

  /** A key stands before another if it was given first. */
  ghost predicate KeysInOrder(sensitive: KeyTest, fields: seq<Field>, entries: seq<Entry>) {
    forall a, b, i: nat :: 0 <= a < b < |entries| && Gives(sensitive, fields, i, entries[b].key) ==>
      GivenEarlier(sensitive, fields, i, entries[a].key)
  }

  /**
   * `j` is what `v` becomes: scalars themselves, strings their first 2048 characters, arrays their first hundred
   * items in order, and objects one entry for each key of 128 characters that a property gives, with the value
   * of the last such property.
   */
  ghost predicate Image(sensitive: KeyTest, h: Heap, v: Value, j: Json)
    decreases j
  {
    match j
    case JNull => v.Null?
    case JBool(b) => v == Bool(b)
    case JNumber(t) => v == Num(t)
    case JString(t) => v.Str? && IsStart(v.text, 2048, t)
    case JArray(items) =>
      && v.Ref? && v.id in h && h[v.id].Arr? && |items| == Least(|h[v.id].items|, 100)
      && forall i :: 0 <= i < |items| ==> Image(sensitive, h, h[v.id].items[i], items[i])
    case JObject(entries) =>
      && v.Ref? && v.id in h && h[v.id].Rec?
      && DistinctKeys(entries) && KeysInOrder(sensitive, h[v.id].fields, entries)
      && (forall i: nat, key :: Gives(sensitive, h[v.id].fields, i, key) ==> exists e :: e in entries && e.key == key)
      && forall e :: e in entries ==> EntryIsImage(sensitive, h, h[v.id].fields, e)
  }

  ghost predicate EntryIsImage(sensitive: KeyTest, h: Heap, fields: seq<Field>, e: Entry)
    decreases e, 0
  {
    exists i: nat :: GivesLast(sensitive, fields, i, e.key) && Image(sensitive, h, fields[i].value, e.value)
  }

  lemma TakeStart(s: string, limit: nat)
    ensures IsStart(s, limit, Take(s, limit))
    ensures forall start :: IsStart(s, limit, start) ==> start == Take(s, limit)
  {
    forall start | IsStart(s, limit, start) ensures start == Take(s, limit) {
    }
  }

  /** Among the first hundred properties, giving a key is being kept with it as the cut key. */
  lemma GivesTaken(sensitive: KeyTest, fields: seq<Field>, i: nat, key: string)
    ensures var part := Take(fields, MAX_OBJECT_KEYS);
            Gives(sensitive, fields, i, key) <==> i < |part| && !sensitive(part[i].key) && Cut(part[i].key) == key
  {
    if i < |fields| { TakeStart(fields[i].key, 128); }
  }

  lemma KeptGivesLast(sensitive: KeyTest, fields: seq<Field>, i: nat, key: string)
    ensures var part := Take(fields, MAX_OBJECT_KEYS);
            GivesLast(sensitive, fields, i, key) <==> Kept(sensitive, part, i) && Cut(part[i].key) == key
  {
    forall k: nat ensures var part := Take(fields, MAX_OBJECT_KEYS);
                     Gives(sensitive, fields, k, key) <==> k < |part| && !sensitive(part[k].key) && Cut(part[k].key) == key
    {
      GivesTaken(sensitive, fields, k, key);
    }
  }

  // ----- Keys in order ---------------------------------------------------------------------------

  ghost predicate HasKey(entries: seq<Entry>, key: string) { exists i :: 0 <= i < |entries| && entries[i].key == key }

  /** One of the first `n` properties is kept and its cut key is this one. */
  ghost predicate GivenBefore(sensitive: KeyTest, fields: seq<Field>, n: nat, key: string)
    requires n <= |fields|
  {
    exists k :: 0 <= k < n && !sensitive(fields[k].key) && Cut(fields[k].key) == key
  }

  /** The keys of the entries are those given, in the order in which they were given first. */
  ghost predicate KeysOf(sensitive: KeyTest, fields: seq<Field>, n: nat, entries: seq<Entry>)
    requires n <= |fields|
  {
    && (forall key :: HasKey(entries, key) <==> GivenBefore(sensitive, fields, n, key))
    && forall a, b, i :: 0 <= a < b < |entries| && 0 <= i < n && !sensitive(fields[i].key) && Cut(fields[i].key) == entries[b].key ==>
         GivenBefore(sensitive, fields, i, entries[a].key)
  }

  /** Assigning a property keeps the keys where they are and puts a new one at the end. */
  lemma {:induction false} PutKeys(entries: seq<Entry>, key: string, value: Json)
    ensures var r := Put(entries, key, value);
            && |r| == (if HasKey(entries, key) then |entries| else |entries| + 1)
            && (forall i :: 0 <= i < |entries| ==> r[i].key == entries[i].key)
            && (!HasKey(entries, key) ==> r[|entries|].key == key)
  {
    if entries != [] && entries[0].key != key {
      PutKeys(entries[1..], key, value);
      if HasKey(entries, key) {
        var i :| 0 <= i < |entries| && entries[i].key == key;
        assert entries[1..][i - 1].key == key;
      }
    }
  }

  lemma GivenNext(sensitive: KeyTest, fields: seq<Field>, n: nat, key: string)
    requires n < |fields|
    ensures GivenBefore(sensitive, fields, n + 1, key)
            <==> GivenBefore(sensitive, fields, n, key) || (!sensitive(fields[n].key) && Cut(fields[n].key) == key)
  {
  }

  lemma KeysSkip(sensitive: KeyTest, fields: seq<Field>, n: nat, entries: seq<Entry>)
    requires n < |fields| && sensitive(fields[n].key) && KeysOf(sensitive, fields, n, entries)
    ensures KeysOf(sensitive, fields, n + 1, entries)
  {
    forall key ensures HasKey(entries, key) <==> GivenBefore(sensitive, fields, n + 1, key) {
      GivenNext(sensitive, fields, n, key);
    }
  }

  lemma PutHasKeys(entries: seq<Entry>, key: string, value: Json, k: string)
    ensures HasKey(Put(entries, key, value), k) <==> HasKey(entries, k) || k == key
  {
    PutKeys(entries, key, value);
    var r := Put(entries, key, value);
    if HasKey(entries, k) {
      var i :| 0 <= i < |entries| && entries[i].key == k;
      assert r[i].key == k;
    }
    if k == key && !HasKey(entries, key) { assert r[|entries|].key == k; }
  }

  lemma KeysPut(sensitive: KeyTest, fields: seq<Field>, n: nat, entries: seq<Entry>, value: Json)
    requires n < |fields| && !sensitive(fields[n].key) && KeysOf(sensitive, fields, n, entries)
    ensures KeysOf(sensitive, fields, n + 1, Put(entries, Cut(fields[n].key), value))
  {
    var r := Put(entries, Cut(fields[n].key), value);
    forall k ensures HasKey(r, k) <==> GivenBefore(sensitive, fields, n + 1, k) {
      GivenNext(sensitive, fields, n, k);
      PutHasKeys(entries, Cut(fields[n].key), value, k);
    }
    PutKeys(entries, Cut(fields[n].key), value);
    KeysPutOrder(sensitive, fields, n, entries, r);
  }

  lemma KeysPutOrder(sensitive: KeyTest, fields: seq<Field>, n: nat, entries: seq<Entry>, r: seq<Entry>)
    requires n < |fields| && KeysOf(sensitive, fields, n, entries)
    requires |r| == (if HasKey(entries, Cut(fields[n].key)) then |entries| else |entries| + 1)
    requires forall k :: 0 <= k < |entries| ==> r[k].key == entries[k].key
    requires !HasKey(entries, Cut(fields[n].key)) ==> r[|entries|].key == Cut(fields[n].key)
    ensures forall a, b, i :: 0 <= a < b < |r| && 0 <= i < n + 1 && !sensitive(fields[i].key) && Cut(fields[i].key) == r[b].key ==>
              GivenBefore(sensitive, fields, i, r[a].key)
  {
    forall a, b, i | 0 <= a < b < |r| && 0 <= i < n + 1 && !sensitive(fields[i].key) && Cut(fields[i].key) == r[b].key
      ensures GivenBefore(sensitive, fields, i, r[a].key)
    {
      KeysPutAt(sensitive, fields, n, entries, r, a, b, i);
    }
  }

  lemma KeysPutAt(sensitive: KeyTest, fields: seq<Field>, n: nat, entries: seq<Entry>, r: seq<Entry>, a: nat, b: nat, i: nat)
    requires n < |fields| && KeysOf(sensitive, fields, n, entries)
    requires |r| == (if HasKey(entries, Cut(fields[n].key)) then |entries| else |entries| + 1)
    requires forall k :: 0 <= k < |entries| ==> r[k].key == entries[k].key
    requires !HasKey(entries, Cut(fields[n].key)) ==> r[|entries|].key == Cut(fields[n].key)
    requires a < b < |r| && i <= n && !sensitive(fields[i].key) && Cut(fields[i].key) == r[b].key
    ensures GivenBefore(sensitive, fields, i, r[a].key)
  {
    assert HasKey(entries, entries[a].key);
    if i < n {
      assert GivenBefore(sensitive, fields, n, r[b].key);
      assert HasKey(entries, r[b].key);
    }
  }

  /** What is given by the first `n` properties, as entries. */
  lemma {:induction false} KeysOfFields(sensitive: KeyTest, h: Heap, fields: seq<Field>, depth: nat, seen: set<nat>, n: nat)
    requires Closed(h) && FieldsInHeap(h, fields) && depth <= MAX_JSON_DEPTH + 1 && n <= |fields|
    requires NormalizeFields(sensitive, h, fields[..n], depth, seen).Ok?
    ensures KeysOf(sensitive, fields, n, NormalizeFields(sensitive, h, fields[..n], depth, seen).value)
  {
    if n > 0 {
      assert fields[..n][..n - 1] == fields[..n - 1];
      KeysOfFields(sensitive, h, fields, depth, seen, n - 1);
      var before := NormalizeFields(sensitive, h, fields[..n - 1], depth, seen).value;
      if sensitive(fields[n - 1].key) {
        KeysSkip(sensitive, fields, n - 1, before);
      } else {
        KeysPut(sensitive, fields, n - 1, before, Normalize(sensitive, h, fields[n - 1].value, depth, seen).value);
      }
    }
  }

  // ----- Results are images ----------------------------------------------------------------------

  lemma {:induction false} ResultIsImage(sensitive: KeyTest, h: Heap, v: Value, depth: nat, seen: set<nat>)
    requires Closed(h) && InHeap(h, v) && depth <= MAX_JSON_DEPTH + 1 && Normalize(sensitive, h, v, depth, seen).Ok?
    ensures Image(sensitive, h, v, Normalize(sensitive, h, v, depth, seen).value)
    decreases MAX_JSON_DEPTH + 1 - depth, 1
  {
    match v
    case Str(s) => TakeStart(s, 2048);
    case Ref(o) =>
      if h[o].Arr? { ArrayIsImage(sensitive, h, o, depth, seen); } else { RecordIsImage(sensitive, h, o, depth, seen); }
    case _ =>
  }

  lemma {:induction false} ArrayIsImage(sensitive: KeyTest, h: Heap, o: nat, depth: nat, seen: set<nat>)
    requires Closed(h) && o in h && h[o].Arr? && depth <= MAX_JSON_DEPTH && Normalize(sensitive, h, Ref(o), depth, seen).Ok?
    ensures Image(sensitive, h, Ref(o), Normalize(sensitive, h, Ref(o), depth, seen).value)
    decreases MAX_JSON_DEPTH + 1 - depth, 0
  {
    var part := Take(h[o].items, MAX_ARRAY_ITEMS);
    ArrayResult(sensitive, h, o, depth, seen);
    ItemResults(sensitive, h, part, depth + 1, seen + {o});
    forall i | 0 <= i < |part| ensures Image(sensitive, h, h[o].items[i], Normalize(sensitive, h, part[i], depth + 1, seen + {o}).value) {
      ResultIsImage(sensitive, h, part[i], depth + 1, seen + {o});
    }
  }

  lemma {:induction false} RecordIsImage(sensitive: KeyTest, h: Heap, o: nat, depth: nat, seen: set<nat>)
    requires Closed(h) && o in h && h[o].Rec? && depth <= MAX_JSON_DEPTH && Normalize(sensitive, h, Ref(o), depth, seen).Ok?
    ensures Image(sensitive, h, Ref(o), Normalize(sensitive, h, Ref(o), depth, seen).value)
    decreases MAX_JSON_DEPTH + 1 - depth, 0
  {
    var fields, part, under := h[o].fields, Take(h[o].fields, MAX_OBJECT_KEYS), seen + {o};
    RecordResult(sensitive, h, o, depth, seen);
    var entries := NormalizeFields(sensitive, h, part, depth + 1, under).value;
    ResultIsCanonical(sensitive, h, Ref(o), depth, seen);
    FieldResults(sensitive, h, part, depth + 1, under);
    assert part[..|part|] == part;
    KeysOfFields(sensitive, h, part, depth + 1, under, |part|);
    KeysAreInOrder(sensitive, fields, entries);
    EveryKeyIsThere(sensitive, fields, entries);
    forall e | e in entries ensures EntryIsImage(sensitive, h, fields, e) {
      var i: nat :| EntryOf(sensitive, h, part, depth + 1, under, i, e);
      ResultIsImage(sensitive, h, part[i].value, depth + 1, under);
      EntryFrom(sensitive, h, fields, i, e);
    }
  }

  lemma EntryFrom(sensitive: KeyTest, h: Heap, fields: seq<Field>, i: nat, e: Entry)
    requires var part := Take(fields, MAX_OBJECT_KEYS);
             Kept(sensitive, part, i) && e.key == Cut(part[i].key) && Image(sensitive, h, part[i].value, e.value)
    ensures EntryIsImage(sensitive, h, fields, e)
  {
    KeptGivesLast(sensitive, fields, i, e.key);
  }

  lemma EveryKeyIsThere(sensitive: KeyTest, fields: seq<Field>, entries: seq<Entry>)
    requires var part := Take(fields, MAX_OBJECT_KEYS); KeysOf(sensitive, part, |part|, entries)
    ensures forall i: nat, key :: Gives(sensitive, fields, i, key) ==> exists e :: e in entries && e.key == key
  {
    var part := Take(fields, MAX_OBJECT_KEYS);
    forall i: nat, key | Gives(sensitive, fields, i, key) ensures exists e :: e in entries && e.key == key {
      GivesTaken(sensitive, fields, i, key);
      assert GivenBefore(sensitive, part, |part|, key);
      assert HasKey(entries, key);
    }
  }

  lemma KeysAreInOrder(sensitive: KeyTest, fields: seq<Field>, entries: seq<Entry>)
    requires var part := Take(fields, MAX_OBJECT_KEYS); KeysOf(sensitive, part, |part|, entries)
    ensures KeysInOrder(sensitive, fields, entries)
  {
    var part := Take(fields, MAX_OBJECT_KEYS);
    forall a, b, i: nat | 0 <= a < b < |entries| && Gives(sensitive, fields, i, entries[b].key)
      ensures GivenEarlier(sensitive, fields, i, entries[a].key)
    {
      GivesTaken(sensitive, fields, i, entries[b].key);
      assert GivenBefore(sensitive, part, i, entries[a].key);
      var k :| 0 <= k < i && !sensitive(part[k].key) && Cut(part[k].key) == entries[a].key;
      GivesTaken(sensitive, fields, k, entries[a].key);
    }
  }

  // ----- When normalising fails ------------------------------------------------------------------

  /** What is wrong with a value itself, at this depth and below these objects. */
  function Fault(h: Heap, v: Value, depth: nat, above: set<nat>): Option<Failure> {
    if depth > 5 then Some(TooDeep)
    else
      match v
      case NotFinite => Some(NonFiniteNumber)
      case Opaque => Some(Unsupported)
      case Ref(o) =>
        if o in h && h[o].Date? then Some(DateInstance) else if o in above then Some(CyclicReference) else None
      case _ => None
  }

  /** The `i`-th child is looked at: one of the first hundred, and not under a sensitive key. */
  predicate Visible(sensitive: KeyTest, container: Object, i: nat) {
    match container
    case Arr(items) => i < Least(|items|, 100)
    case Rec(fields) => i < Least(|fields|, 100) && !sensitive(fields[i].key)
    case Date => false
  }

  /** The path leads over visible children to a value with this fault, and over none with a fault. */
  ghost predicate FaultAt(sensitive: KeyTest, h: Heap, v: Value, path: Path, depth: nat, above: set<nat>, e: Failure)
    decreases |path|
  {
    if path == [] then Fault(h, v, depth, above) == Some(e)
    else
      && Fault(h, v, depth, above).None? && v.Ref? && v.id in h && Visible(sensitive, h[v.id], path[0])
      && FaultAt(sensitive, h, Children(h[v.id])[path[0]], path[1..], depth + 1, above + {v.id}, e)
  }

  /** The order in which values are visited. */
  ghost predicate VisitedBefore(p: Path, q: Path)
    decreases |p|
  {
    q != [] && (p == [] || p[0] < q[0] || (p[0] == q[0] && VisitedBefore(p[1..], q[1..])))
  }

  /** The fault at this path is there, and any other is visited later. */
  ghost predicate FirstFault(sensitive: KeyTest, h: Heap, v: Value, path: Path, depth: nat, above: set<nat>, e: Failure) {
    && FaultAt(sensitive, h, v, path, depth, above, e)
    && forall q, f :: FaultAt(sensitive, h, v, q, depth, above, f) ==> q == path || VisitedBefore(path, q)
  }

  ghost predicate NoFault(sensitive: KeyTest, h: Heap, v: Value, depth: nat, above: set<nat>) {
    forall q, f :: !FaultAt(sensitive, h, v, q, depth, above, f)
  }

  /** The first item that fails. */
  lemma {:induction false} FirstBadItem(sensitive: KeyTest, h: Heap, items: seq<Value>, depth: nat, seen: set<nat>) returns (i: nat)
    requires Closed(h) && AllInHeap(h, items) && depth <= MAX_JSON_DEPTH + 1
    requires NormalizeItems(sensitive, h, items, depth, seen).Err?
    ensures i < |items| && Normalize(sensitive, h, items[i], depth, seen) == Err(NormalizeItems(sensitive, h, items, depth, seen).error)
    ensures forall k :: 0 <= k < i ==> Normalize(sensitive, h, items[k], depth, seen).Ok?
    decreases |items|
  {
    var n := |items| - 1;
    if NormalizeItems(sensitive, h, items[..n], depth, seen).Err? {
      i := FirstBadItem(sensitive, h, items[..n], depth, seen);
      assert forall k :: 0 <= k <= i ==> items[..n][k] == items[k];
    } else {
      i := n;
      ItemResults(sensitive, h, items[..n], depth, seen);
      assert forall k :: 0 <= k < i ==> items[..n][k] == items[k];
    }
  }

  /** Where the properties succeed, each that is not left out does. */
  lemma {:induction false} FieldsSucceed(sensitive: KeyTest, h: Heap, fields: seq<Field>, depth: nat, seen: set<nat>)
    requires Closed(h) && FieldsInHeap(h, fields) && depth <= MAX_JSON_DEPTH + 1
    requires NormalizeFields(sensitive, h, fields, depth, seen).Ok?
    ensures forall k :: 0 <= k < |fields| && !sensitive(fields[k].key) ==> Normalize(sensitive, h, fields[k].value, depth, seen).Ok?
    decreases |fields|
  {
    if fields != [] {
      var n := |fields| - 1;
      FieldsSucceed(sensitive, h, fields[..n], depth, seen);
      assert forall k :: 0 <= k < n ==> fields[..n][k] == fields[k];
    }
  }

  /** The first property that fails. */
  lemma {:induction false} FirstBadField(sensitive: KeyTest, h: Heap, fields: seq<Field>, depth: nat, seen: set<nat>) returns (i: nat)
    requires Closed(h) && FieldsInHeap(h, fields) && depth <= MAX_JSON_DEPTH + 1
    requires NormalizeFields(sensitive, h, fields, depth, seen).Err?
    ensures i < |fields| && !sensitive(fields[i].key)
    ensures Normalize(sensitive, h, fields[i].value, depth, seen) == Err(NormalizeFields(sensitive, h, fields, depth, seen).error)
    ensures forall k :: 0 <= k < i && !sensitive(fields[k].key) ==> Normalize(sensitive, h, fields[k].value, depth, seen).Ok?
    decreases |fields|
  {
    var n := |fields| - 1;
    if NormalizeFields(sensitive, h, fields[..n], depth, seen).Err? {
      i := FirstBadField(sensitive, h, fields[..n], depth, seen);
      assert forall k :: 0 <= k <= i ==> fields[..n][k] == fields[k];
    } else {
      i := n;
      FieldsSucceed(sensitive, h, fields[..n], depth, seen);
      assert forall k :: 0 <= k < i ==> fields[..n][k] == fields[k];
    }
  }

  /** Of an object that has no fault itself: the visible child that fails first, if one does. */
  lemma ChildrenDecide(sensitive: KeyTest, h: Heap, o: nat, depth: nat, seen: set<nat>) returns (i: nat)
    requires Closed(h) && o in h && !h[o].Date? && o !in seen && depth <= MAX_JSON_DEPTH
    ensures AllInHeap(h, Children(h[o]))
    ensures var c := Children(h[o]); var r := Normalize(sensitive, h, Ref(o), depth, seen);
            if r.Err? then
              && i < |c| && Visible(sensitive, h[o], i) && Normalize(sensitive, h, c[i], depth + 1, seen + {o}) == Err(r.error)
              && forall k :: 0 <= k < i && Visible(sensitive, h[o], k) ==> Normalize(sensitive, h, c[k], depth + 1, seen + {o}).Ok?
            else forall k :: 0 <= k < |c| && Visible(sensitive, h[o], k) ==> Normalize(sensitive, h, c[k], depth + 1, seen + {o}).Ok?
  {
    i := 0;
    if h[o].Arr? {
      i := ArrayDecides(sensitive, h, o, depth, seen);
    } else {
      i := RecordDecides(sensitive, h, o, depth, seen);
    }
  }

  lemma ArrayDecides(sensitive: KeyTest, h: Heap, o: nat, depth: nat, seen: set<nat>) returns (i: nat)
    requires Closed(h) && o in h && h[o].Arr? && o !in seen && depth <= MAX_JSON_DEPTH
    ensures AllInHeap(h, h[o].items)
    ensures var c := h[o].items; var n := Least(|c|, 100); var r := Normalize(sensitive, h, Ref(o), depth, seen);
            if r.Err? then
              && i < n && Normalize(sensitive, h, c[i], depth + 1, seen + {o}) == Err(r.error)
              && forall k :: 0 <= k < i ==> Normalize(sensitive, h, c[k], depth + 1, seen + {o}).Ok?
            else forall k :: 0 <= k < n ==> Normalize(sensitive, h, c[k], depth + 1, seen + {o}).Ok?
  {
    assert AllInHeap(h, Children(h[o]));
    var part := Take(h[o].items, MAX_ARRAY_ITEMS);
    ArrayResult(sensitive, h, o, depth, seen);
    assert forall k :: 0 <= k < |part| ==> part[k] == h[o].items[k];
    i := 0;
    if NormalizeItems(sensitive, h, part, depth + 1, seen + {o}).Err? {
      i := FirstBadItem(sensitive, h, part, depth + 1, seen + {o});
    } else {
      ItemResults(sensitive, h, part, depth + 1, seen + {o});
    }
  }

  lemma RecordDecides(sensitive: KeyTest, h: Heap, o: nat, depth: nat, seen: set<nat>) returns (i: nat)
    requires Closed(h) && o in h && h[o].Rec? && o !in seen && depth <= MAX_JSON_DEPTH
    ensures AllInHeap(h, Children(h[o])) && |Children(h[o])| == |h[o].fields|
    ensures var c := Children(h[o]); var fields := h[o].fields; var n := Least(|fields|, 100);
            var r := Normalize(sensitive, h, Ref(o), depth, seen);
            if r.Err? then
              && i < n && !sensitive(fields[i].key) && Normalize(sensitive, h, c[i], depth + 1, seen + {o}) == Err(r.error)
              && forall k :: 0 <= k < i && !sensitive(fields[k].key) ==> Normalize(sensitive, h, c[k], depth + 1, seen + {o}).Ok?
            else forall k :: 0 <= k < n && !sensitive(fields[k].key) ==> Normalize(sensitive, h, c[k], depth + 1, seen + {o}).Ok?
  {
    assert AllInHeap(h, Children(h[o]));
    var part := Take(h[o].fields, MAX_OBJECT_KEYS);
    RecordResult(sensitive, h, o, depth, seen);
    assert forall k :: 0 <= k < |part| ==> part[k] == h[o].fields[k] && part[k].value == Children(h[o])[k];
    i := 0;
    if NormalizeFields(sensitive, h, part, depth + 1, seen + {o}).Err? {
      i := FirstBadField(sensitive, h, part, depth + 1, seen + {o});
    } else {
      FieldsSucceed(sensitive, h, part, depth + 1, seen + {o});
    }
  }

  /**
   * Normalising succeeds if and only if no value it looks at is too deep, not finite, unsupported, a date or below
   * itself; and otherwise it fails with what is wrong with the first such value it comes to.
   */
  lemma {:induction false} FailsAtTheFirstFault(sensitive: KeyTest, h: Heap, v: Value, depth: nat, above: set<nat>) returns (path: Path)
    requires Closed(h) && InHeap(h, v) && depth <= MAX_JSON_DEPTH + 1
    ensures match Normalize(sensitive, h, v, depth, above)
            case Ok(_) => NoFault(sensitive, h, v, depth, above)
            case Err(e) => FirstFault(sensitive, h, v, path, depth, above, e)
    decreases MAX_JSON_DEPTH + 1 - depth, 1
  {
    path := [];
    if Fault(h, v, depth, above).Some? {
      OwnFault(sensitive, h, v, depth, above);
    } else if v.Ref? {
      path := ContainerFails(sensitive, h, v.id, depth, above);
    } else {
      ScalarHasNone(sensitive, h, v, depth, above);
    }
  }

  lemma {:induction false} ContainerFails(sensitive: KeyTest, h: Heap, o: nat, depth: nat, above: set<nat>) returns (path: Path)
    requires Closed(h) && o in h && depth <= MAX_JSON_DEPTH && Fault(h, Ref(o), depth, above).None?
    ensures match Normalize(sensitive, h, Ref(o), depth, above)
            case Ok(_) => NoFault(sensitive, h, Ref(o), depth, above)
            case Err(e) => FirstFault(sensitive, h, Ref(o), path, depth, above, e)
    decreases MAX_JSON_DEPTH + 1 - depth, 0
  {
    var c, under := Children(h[o]), above + {o};
    var i := ChildrenDecide(sensitive, h, o, depth, above);
    var failed := Normalize(sensitive, h, Ref(o), depth, above).Err?;
    var n := if failed then i else |c|;
    forall k | 0 <= k < n && Visible(sensitive, h[o], k) ensures NoFault(sensitive, h, c[k], depth + 1, under) {
      var p := FailsAtTheFirstFault(sensitive, h, c[k], depth + 1, under);
    }
    path := [];
    if failed {
      var below := FailsAtTheFirstFault(sensitive, h, c[i], depth + 1, under);
      path := [i] + below;
      FirstFaultBelow(sensitive, h, o, depth, above, i, below, Normalize(sensitive, h, Ref(o), depth, above).error);
    } else {
      NoFaultBelow(sensitive, h, o, depth, above);
    }
  }

  lemma ScalarHasNone(sensitive: KeyTest, h: Heap, v: Value, depth: nat, above: set<nat>)
    requires Closed(h) && InHeap(h, v) && depth <= MAX_JSON_DEPTH && !v.Ref? && Fault(h, v, depth, above).None?
    ensures Normalize(sensitive, h, v, depth, above).Ok? && NoFault(sensitive, h, v, depth, above)
  {
  }

  lemma NoFaultBelow(sensitive: KeyTest, h: Heap, o: nat, depth: nat, above: set<nat>)
    requires o in h && Fault(h, Ref(o), depth, above).None?
    requires forall k :: 0 <= k < |Children(h[o])| && Visible(sensitive, h[o], k) ==>
               NoFault(sensitive, h, Children(h[o])[k], depth + 1, above + {o})
    ensures NoFault(sensitive, h, Ref(o), depth, above)
  {
    forall q, f ensures !FaultAt(sensitive, h, Ref(o), q, depth, above, f) {
      if q != [] && Visible(sensitive, h[o], q[0]) { assert q[0] < |Children(h[o])|; }
    }
  }

  lemma FirstFaultBelow(sensitive: KeyTest, h: Heap, o: nat, depth: nat, above: set<nat>, i: nat, below: Path, e: Failure)
    requires o in h && Fault(h, Ref(o), depth, above).None? && i < |Children(h[o])| && Visible(sensitive, h[o], i)
    requires forall k :: 0 <= k < i && Visible(sensitive, h[o], k) ==>
               NoFault(sensitive, h, Children(h[o])[k], depth + 1, above + {o})
    requires FirstFault(sensitive, h, Children(h[o])[i], below, depth + 1, above + {o}, e)
    ensures FirstFault(sensitive, h, Ref(o), [i] + below, depth, above, e)
  {
    var path := [i] + below;
    assert path[1..] == below;
    forall q, f | FaultAt(sensitive, h, Ref(o), q, depth, above, f) ensures q == path || VisitedBefore(path, q) {
      LaterFault(sensitive, h, o, depth, above, i, below, e, q, f);
    }
  }

  lemma LaterFault(sensitive: KeyTest, h: Heap, o: nat, depth: nat, above: set<nat>, i: nat, below: Path, e: Failure, q: Path, f: Failure)
    requires o in h && Fault(h, Ref(o), depth, above).None? && i < |Children(h[o])|
    requires forall k :: 0 <= k < i && Visible(sensitive, h[o], k) ==>
               NoFault(sensitive, h, Children(h[o])[k], depth + 1, above + {o})
    requires FirstFault(sensitive, h, Children(h[o])[i], below, depth + 1, above + {o}, e)
    requires FaultAt(sensitive, h, Ref(o), q, depth, above, f)
    ensures q == [i] + below || VisitedBefore([i] + below, q)
  {
    assert q == [q[0]] + q[1..] && ([i] + below)[1..] == below;
  }

  /** A value with a fault of its own is the first. */
  lemma OwnFault(sensitive: KeyTest, h: Heap, v: Value, depth: nat, above: set<nat>)
    requires Closed(h) && InHeap(h, v) && depth <= MAX_JSON_DEPTH + 1 && Fault(h, v, depth, above).Some?
    ensures Normalize(sensitive, h, v, depth, above) == Err(Fault(h, v, depth, above).value)
    ensures FirstFault(sensitive, h, v, [], depth, above, Fault(h, v, depth, above).value)
  {
  }
}
