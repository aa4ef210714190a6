/** The values that travel through the delivery engine: events, queued records and their sizes. */
module Events {
  datatype Option<+T> = None | Some(value: T)

  datatype Priority = Batch | Immediate

  /** `bytes` is the length of the event's JSON serialisation; ids are opaque. */
  datatype Event = Event(id: nat, timestamp: int, session: Option<nat>, page: Option<nat>, bytes: nat)

  datatype Record = Record(event: Event, priority: Priority, attempts: nat)

  const MAX_EVENT_BYTES: nat := 64 * 1024
  const MAX_ENVELOPE_BYTES: nat := 1024 * 1024
  const MAX_KEEPALIVE_ENVELOPE_BYTES: nat := 60 * 1024
  const MAX_DELIVERY_ATTEMPTS: nat := 8

  /** Total serialised size of the events of some records. */
  function Bytes(q: seq<Record>): nat {
    if q == [] then 0 else q[0].event.bytes + Bytes(q[1..])
  }

  function Ids(q: seq<Record>): set<nat> {
    set r | r in q :: r.event.id
  }

  ghost predicate DistinctIds(q: seq<Record>) {
    forall i, j :: 0 <= i < j < |q| ==> q[i].event.id != q[j].event.id
  }

  lemma {:induction false} BytesAppend(a: seq<Record>, b: seq<Record>)
    ensures Bytes(a + b) == Bytes(a) + Bytes(b)
  {
    if a == [] {
      assert a + b == b;
    } else {
      assert (a + b)[1..] == a[1..] + b;
      BytesAppend(a[1..], b);
    }
  }

  /** Removing one record takes exactly its size off the total. */
  lemma BytesWithout(q: seq<Record>, i: nat)
    requires i < |q|
    ensures Bytes(q) == Bytes(q[..i] + q[i + 1..]) + q[i].event.bytes
  {
    assert q == q[..i] + ([q[i]] + q[i + 1..]);
    BytesAppend(q[..i], [q[i]] + q[i + 1..]);
    BytesAppend(q[..i], q[i + 1..]);
  }
}
