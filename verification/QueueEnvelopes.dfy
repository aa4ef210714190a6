/** The size the queue measures is the length of the text that is sent. */
module QueueEnvelopes {
  import opened Events
  import opened EventQueues
  import opened Text

  const DIGITS := "0123456789"

  function Decimal(n: nat): string {
    if n < 10 then [DIGITS[n]] else Decimal(n / 10) + [DIGITS[n % 10]]
  }

  /** An event in the envelope, one character for each byte of its own text. */
  function ItemText(event: string): string { "{\"type\":\"event\",\"payload\":" + event + "}" }

  function ItemTexts(events: seq<string>): seq<string> { seq(|events|, i requires 0 <= i < |events| => ItemText(events[i])) }

  function EnvelopeText(now: nat, events: seq<string>): string {
    "{\"version\":1,\"sentAt\":" + Decimal(now) + ",\"items\":[" + Join(ItemTexts(events), ',') + "]}"
  }

  lemma {:induction false} DecimalLength(n: nat)
    ensures |Decimal(n)| == Digits(n)
  {
    if n >= 10 { DecimalLength(n / 10); }
  }

  lemma {:induction false} ItemsLength(items: seq<Record>, events: seq<string>)
    requires |events| == |items| && forall i :: 0 <= i < |items| ==> |events[i]| == items[i].event.bytes
    ensures |Join(ItemTexts(events), ',')| == Bytes(items) + 27 * |items| + (if items == [] then 0 else |items| - 1)
  {
    if items != [] {
      ItemsLength(items[1..], events[1..]);
      assert ItemTexts(events)[1..] == ItemTexts(events[1..]);
      assert |ItemText(events[0])| == items[0].event.bytes + 27;
    }
  }

  /** The measured size of an envelope is the length of its JSON text, header, wrapping and commas included. */
  lemma EnvelopeLength(now: nat, items: seq<Record>, events: seq<string>)
    requires |events| == |items| && forall i :: 0 <= i < |items| ==> |events[i]| == items[i].event.bytes
    ensures |EnvelopeText(now, events)| == EnvelopeBytes(now, items)
  {
    DecimalLength(now);
    ItemsLength(items, events);
    assert |"{\"version\":1,\"sentAt\":"| == 22 && |",\"items\":["| == 10 && |"]}"| == 2;
  }
}
