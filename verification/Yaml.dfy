/** The payload viewer's YAML printer, and a reader that recovers every value from what it prints. */
module Yaml {
  import opened Json
  import opened Events
  import opened Text

  // ----- The printer -----------------------------------------------------------------------------

  function HexDigit(n: nat): char
    requires n < 16
  {
    "0123456789abcdef"[n]
  }

  /** How JSON.stringify writes one character inside a string. */
  function EscapeChar(c: char): string {
    if c == '"' then "\\\""
    else if c == '\\' then "\\\\"
    else if c == '\n' then "\\n"
    else if c == '\r' then "\\r"
    else if c == '\t' then "\\t"
    else if c == 8 as char then "\\b"
    else if c == 12 as char then "\\f"
    else if c < ' ' then "\\u00" + [HexDigit(c as int / 16), HexDigit(c as int % 16)]
    else [c]
  }

  /** A character stands for itself unless it is a quote, a backslash or a control character; five of those have short forms. */
  lemma EscapeMeaning(c: char)
    ensures EscapeChar(c) == [c] <==> c != '"' && c != '\\' && c >= ' '
    ensures (c == '"' || c == '\\') ==> EscapeChar(c) == ['\\', c]
    ensures c == '\n' ==> EscapeChar(c) == "\\n"
    ensures c == '\r' ==> EscapeChar(c) == "\\r"
    ensures c == '\t' ==> EscapeChar(c) == "\\t"
    ensures c == 8 as char ==> EscapeChar(c) == "\\b"
    ensures c == 12 as char ==> EscapeChar(c) == "\\f"
    ensures c < ' ' && c !in {'\n', '\r', '\t', 8 as char, 12 as char} ==> |EscapeChar(c)| == 6 && "\\u00" <= EscapeChar(c)
  {
  }

  function Escape(s: string): string {
    if s == [] then [] else EscapeChar(s[0]) + Escape(s[1..])
  }

  function Quote(s: string): string { "\"" + Escape(s) + "\"" }

  function YamlScalar(v: Json): Option<string> {
    match v
    case JNull => Some("null")
    case JBool(b) => Some(if b then "true" else "false")
    case JNumber(t) => Some(t)
    case JString(s) => Some(Quote(s))
    case _ => None
  }

  function Indentation(depth: nat): string { seq(2 * depth, _ => ' ') }

  function YamlLines(v: Json, depth: nat): seq<string>
    decreases v, 1
  {
    var scalar := YamlScalar(v);
    if scalar.Some? then [Indentation(depth) + scalar.value]
    else if v.JArray? then
      if v.items == [] then [Indentation(depth) + "[]"] else ItemLines(v.items, depth)
    else
      if v.entries == [] then [Indentation(depth) + "{}"] else EntryLines(v.entries, depth)
  }

  function ItemLines(items: seq<Json>, depth: nat): seq<string>
    decreases items, 0
  {
    if items == [] then []
    else
      var scalar := YamlScalar(items[0]);
      (if scalar.Some? then [Indentation(depth) + "- " + scalar.value]
       else [Indentation(depth) + "-"] + YamlLines(items[0], depth + 1))
      + ItemLines(items[1..], depth)
  }

  function EntryLines(entries: seq<Entry>, depth: nat): seq<string>
    decreases entries, 0
  {
    if entries == [] then []
    else
      var Entry(key, item) := entries[0];
      var scalar := YamlScalar(item);
      (if scalar.Some? then [Indentation(depth) + Quote(key) + ": " + scalar.value]
       else [Indentation(depth) + Quote(key) + ":"] + YamlLines(item, depth + 1))
      + EntryLines(entries[1..], depth)
  }

  function FormatYaml(v: Json): string { Join(YamlLines(v, 0), '\n') }

  // ----- The reader ------------------------------------------------------------------------------

  function HexValue(c: char): nat {
    if '0' <= c <= '9' then c as int - '0' as int
    else if 'a' <= c <= 'f' then c as int - 'a' as int + 10
    else 0
  }

  /** Read up to the closing quote: the characters, and what follows the quote. */
  function ReadQuoted(t: string): Option<(string, string)>
    decreases |t|
  {
    if t == [] then None
    else if t[0] == '"' then Some(([], t[1..]))
    else if t[0] == '\\' then
      if |t| < 2 then None
      else if t[1] == 'u' then
        if |t| < 6 then None
        else After((16 * HexValue(t[4]) + HexValue(t[5])) as char, ReadQuoted(t[6..]))
      else
        var c := if t[1] == 'n' then '\n' else if t[1] == 'r' then '\r' else if t[1] == 't' then '\t'
                 else if t[1] == 'b' then 8 as char else if t[1] == 'f' then 12 as char else t[1];
        After(c, ReadQuoted(t[2..]))
    else After(t[0], ReadQuoted(t[1..]))
  }

  function After(c: char, rest: Option<(string, string)>): Option<(string, string)> {
    if rest.None? then None else Some(([c] + rest.value.0, rest.value.1))
  }

  function ReadScalar(t: string): Option<Json> {
    if t == "null" then Some(JNull)
    else if t == "true" then Some(JBool(true))
    else if t == "false" then Some(JBool(false))
    else if t != [] && t[0] == '"' then
      var q := ReadQuoted(t[1..]);
      if q.Some? && q.value.1 == [] then Some(JString(q.value.0)) else None
    else if IsNumberText(t) then Some(JNumber(t))
    else None
  }

  /** The number of leading spaces. */
  function Spaces(line: string): nat {
    if line != [] && line[0] == ' ' then 1 + Spaces(line[1..]) else 0
  }

  predicate AtDepth(lines: seq<string>, depth: nat) {
    lines != [] && Spaces(lines[0]) == 2 * depth && |lines[0]| > 2 * depth
  }

  function Body(lines: seq<string>, depth: nat): string
    requires AtDepth(lines, depth)
  {
    lines[0][2 * depth..]
  }

  /** Read one container whose lines start at `depth`; what is left over follows. */
  function ReadBlock(lines: seq<string>, depth: nat): (r: Option<(Json, seq<string>)>)
    ensures r.Some? ==> |r.value.1| <= |lines|
    decreases |lines|, 1
  {
    if !AtDepth(lines, depth) then None
    else
      var body := Body(lines, depth);
      if body == "[]" then Some((JArray([]), lines[1..]))
      else if body == "{}" then Some((JObject([]), lines[1..]))
      else if body[0] == '-' then
        var r := ReadItems(lines, depth);
        if r.Some? then Some((JArray(r.value.0), r.value.1)) else None
      else
        var r := ReadEntries(lines, depth);
        if r.Some? then Some((JObject(r.value.0), r.value.1)) else None
  }

  function ReadItems(lines: seq<string>, depth: nat): (r: Option<(seq<Json>, seq<string>)>)
    ensures r.Some? ==> |r.value.1| <= |lines|
    decreases |lines|, 0
  {
    if !AtDepth(lines, depth) then Some(([], lines))
    else
      var body := Body(lines, depth);
      if body == "-" then
        var v := ReadBlock(lines[1..], depth + 1);
        if v.None? then None
        else
          var more := ReadItems(v.value.1, depth);
          if more.None? then None else Some(([v.value.0] + more.value.0, more.value.1))
      else if |body| >= 2 && body[..2] == "- " then
        var v := ReadScalar(body[2..]);
        if v.None? then None
        else
          var more := ReadItems(lines[1..], depth);
          if more.None? then None else Some(([v.value] + more.value.0, more.value.1))
      else None
  }

  function ReadEntries(lines: seq<string>, depth: nat): (r: Option<(seq<Entry>, seq<string>)>)
    ensures r.Some? ==> |r.value.1| <= |lines|
    decreases |lines|, 0
  {
    if !AtDepth(lines, depth) then Some(([], lines))
    else
      var body := Body(lines, depth);
      if body[0] != '"' then None
      else
        var q := ReadQuoted(body[1..]);
        if q.None? then None
        else
          var (key, after) := q.value;
          if after == ":" then
            var v := ReadBlock(lines[1..], depth + 1);
            if v.None? then None
            else
              var more := ReadEntries(v.value.1, depth);
              if more.None? then None else Some(([Entry(key, v.value.0)] + more.value.0, more.value.1))
          else if |after| >= 2 && after[..2] == ": " then
            var v := ReadScalar(after[2..]);
            if v.None? then None
            else
              var more := ReadEntries(lines[1..], depth);
              if more.None? then None else Some(([Entry(key, v.value)] + more.value.0, more.value.1))
          else None
  }

  function ReadYaml(lines: seq<string>): Option<Json> {
    if |lines| == 1 && ReadScalar(lines[0]).Some? then ReadScalar(lines[0])
    else
      var r := ReadBlock(lines, 0);
      if r.Some? && r.value.1 == [] then Some(r.value.0) else None
  }

  // ----- Scalars ---------------------------------------------------------------------------------

  lemma ReadControlChar(c: char, t: string)
    requires c < ' '
    ensures ReadQuoted("\\u00" + [HexDigit(c as int / 16), HexDigit(c as int % 16)] + t) == After(c, ReadQuoted(t))
  {
    var hi, lo := c as int / 16, c as int % 16;
    var u := "\\u00" + [HexDigit(hi), HexDigit(lo)] + t;
    assert u[6..] == t && u[4] == HexDigit(hi) && u[5] == HexDigit(lo);
    HexRoundTrip(hi);
    HexRoundTrip(lo);
    assert 16 * hi + lo == c as int;
  }

  lemma HexRoundTrip(n: nat)
    requires n < 16
    ensures HexValue(HexDigit(n)) == n
  {
  }

  lemma ReadEscapedChar(c: char, t: string)
    ensures ReadQuoted(EscapeChar(c) + t) == After(c, ReadQuoted(t))
  {
    var e := EscapeChar(c);
    if |e| == 6 {
      ReadControlChar(c, t);
    } else if |e| == 2 {
      ReadShortEscape(c, t);
    } else {
      assert (e + t)[1..] == t;
    }
  }

  lemma ReadShortEscape(c: char, t: string)
    requires |EscapeChar(c)| == 2
    ensures ReadQuoted(EscapeChar(c) + t) == After(c, ReadQuoted(t))
  {
    assert (EscapeChar(c) + t)[2..] == t;
  }

  lemma {:induction false} ReadQuote(s: string, rest: string)
    ensures ReadQuoted(Escape(s) + "\"" + rest) == Some((s, rest))
  {
    if s == [] {
      assert (Escape(s) + "\"" + rest)[1..] == rest;
    } else {
      var t := Escape(s[1..]) + "\"" + rest;
      assert Escape(s) + "\"" + rest == EscapeChar(s[0]) + t;
      ReadEscapedChar(s[0], t);
      ReadQuote(s[1..], rest);
      assert [s[0]] + s[1..] == s;
    }
  }

  lemma ReadPrintedScalar(v: Json)
    requires WellFormed(v) && YamlScalar(v).Some?
    ensures var t := YamlScalar(v).value; ReadScalar(t) == Some(v) && t != [] && t[0] != ' '
  {
    match v
    case JString(s) => ReadQuotedString(s);
    case _ =>
  }

  lemma ReadQuotedString(s: string)
    ensures ReadScalar(Quote(s)) == Some(JString(s))
  {
    ReadQuote(s, "");
    assert Quote(s)[1..] == Escape(s) + "\"" + "";
  }

  // ----- Blocks ----------------------------------------------------------------------------------

  lemma {:induction false} SpacesOf(n: nat, body: string)
    requires body != [] && body[0] != ' '
    ensures Spaces(seq(n, _ => ' ') + body) == n
  {
    var line := seq(n, _ => ' ') + body;
    if n > 0 {
      assert line[1..] == seq(n - 1, _ => ' ') + body;
      SpacesOf(n - 1, body);
    }
  }

  lemma LineAt(depth: nat, body: string, rest: seq<string>)
    requires body != [] && body[0] != ' '
    ensures var lines := [Indentation(depth) + body] + rest;
            AtDepth(lines, depth) && Body(lines, depth) == body && lines[1..] == rest
  {
    SpacesOf(2 * depth, body);
  }

  /** What follows a block is indented less than the block. */
  ghost predicate Dedented(rest: seq<string>, depth: nat) {
    rest != [] ==> Spaces(rest[0]) < 2 * depth
  }

  lemma ItemsStart(items: seq<Json>, depth: nat)
    requires items != []
    ensures var lines := ItemLines(items, depth);
            AtDepth(lines, depth) && Body(lines, depth)[0] == '-' && Body(lines, depth) != "[]" && Body(lines, depth) != "{}"
  {
    var scalar := YamlScalar(items[0]);
    var body := if scalar.Some? then "- " + scalar.value else "-";
    var lines := ItemLines(items, depth);
    assert lines[0] == Indentation(depth) + body by {
      if scalar.Some? { assert Indentation(depth) + "- " + scalar.value == Indentation(depth) + body; }
    }
    LineAt(depth, body, lines[1..]);
    assert lines == [Indentation(depth) + body] + lines[1..];
  }

  lemma EntriesStart(entries: seq<Entry>, depth: nat)
    requires entries != []
    ensures var lines := EntryLines(entries, depth);
            AtDepth(lines, depth) && Body(lines, depth)[0] == '"'
  {
    var scalar := YamlScalar(entries[0].value);
    var body := Quote(entries[0].key) + if scalar.Some? then ": " + scalar.value else ":";
    var lines := EntryLines(entries, depth);
    assert lines[0] == Indentation(depth) + body by {
      if scalar.Some? {
        assert Indentation(depth) + Quote(entries[0].key) + ": " + scalar.value == Indentation(depth) + body;
      } else {
        assert Indentation(depth) + Quote(entries[0].key) + ":" == Indentation(depth) + body;
      }
    }
    LineAt(depth, body, lines[1..]);
    assert lines == [Indentation(depth) + body] + lines[1..];
  }

  lemma {:induction false} ReadPrintedBlock(v: Json, depth: nat, rest: seq<string>)
    requires WellFormed(v) && YamlScalar(v).None? && Dedented(rest, depth)
    ensures ReadBlock(YamlLines(v, depth) + rest, depth) == Some((v, rest))
    decreases v, 1
  {
    var lines := YamlLines(v, depth) + rest;
    if v.JArray? {
      if v.items == [] {
        LineAt(depth, "[]", rest);
      } else {
        ItemsStart(v.items, depth);
        ReadPrintedItems(v.items, depth, rest);
        assert lines[0] == ItemLines(v.items, depth)[0];
      }
    } else {
      if v.entries == [] {
        LineAt(depth, "{}", rest);
      } else {
        EntriesStart(v.entries, depth);
        ReadPrintedEntries(v.entries, depth, rest);
        assert lines[0] == EntryLines(v.entries, depth)[0];
      }
    }
  }

  // One item or entry at a time: how its lines look, and how they are read.

  lemma ItemLinesUnfold(items: seq<Json>, depth: nat, rest: seq<string>)
    requires items != []
    ensures var after := ItemLines(items[1..], depth) + rest; var scalar := YamlScalar(items[0]);
            ItemLines(items, depth) + rest
            == if scalar.Some? then [Indentation(depth) + ("- " + scalar.value)] + after
               else [Indentation(depth) + "-"] + (YamlLines(items[0], depth + 1) + after)
  {
    var scalar := YamlScalar(items[0]);
    if scalar.Some? {
      assert Indentation(depth) + "- " + scalar.value == Indentation(depth) + ("- " + scalar.value);
    }
  }

  lemma ReadScalarItem(depth: nat, text: string, v: Json, after: seq<string>)
    requires ReadScalar(text) == Some(v)
    ensures var more := ReadItems(after, depth);
            ReadItems([Indentation(depth) + ("- " + text)] + after, depth)
            == if more.None? then None else Some(([v] + more.value.0, more.value.1))
  {
    LineAt(depth, "- " + text, after);
    assert ("- " + text)[2..] == text && ("- " + text)[..2] == "- " && ("- " + text)[1] == ' ';
  }

  lemma ReadNestedItem(depth: nat, lines: seq<string>, v: Json, after: seq<string>)
    requires ReadBlock(lines, depth + 1) == Some((v, after))
    ensures var more := ReadItems(after, depth);
            ReadItems([Indentation(depth) + "-"] + lines, depth)
            == if more.None? then None else Some(([v] + more.value.0, more.value.1))
  {
    LineAt(depth, "-", lines);
  }

  lemma AfterIsDedented(first: seq<string>, rest: seq<string>, depth: nat)
    requires Dedented(rest, depth) && (first == [] || AtDepth(first, depth))
    ensures Dedented(first + rest, depth + 1)
  {
  }

  lemma MoreItemsDedented(items: seq<Json>, depth: nat, rest: seq<string>)
    requires Dedented(rest, depth)
    ensures Dedented(ItemLines(items, depth) + rest, depth + 1)
  {
    if items != [] { ItemsStart(items, depth); }
    AfterIsDedented(ItemLines(items, depth), rest, depth);
  }

  lemma {:induction false} ReadPrintedItems(items: seq<Json>, depth: nat, rest: seq<string>)
    requires (forall x :: x in items ==> WellFormed(x)) && Dedented(rest, depth)
    ensures ReadItems(ItemLines(items, depth) + rest, depth) == Some((items, rest))
    decreases items, 0
  {
    if items == [] {
      assert ItemLines(items, depth) + rest == rest;
    } else {
      var x, more := items[0], items[1..];
      var after := ItemLines(more, depth) + rest;
      assert items == [x] + more;
      ItemLinesUnfold(items, depth, rest);
      ReadPrintedItems(more, depth, rest);
      if YamlScalar(x).Some? {
        ReadPrintedScalar(x);
        ReadScalarItem(depth, YamlScalar(x).value, x, after);
      } else {
        MoreItemsDedented(more, depth, rest);
        ReadPrintedBlock(x, depth + 1, after);
        ReadNestedItem(depth, YamlLines(x, depth + 1) + after, x, after);
      }
    }
  }

  lemma EntryLinesUnfold(entries: seq<Entry>, depth: nat, rest: seq<string>)
    requires entries != []
    ensures var after := EntryLines(entries[1..], depth) + rest; var Entry(key, item) := entries[0];
            var scalar := YamlScalar(item);
            EntryLines(entries, depth) + rest
            == if scalar.Some? then [Indentation(depth) + (Quote(key) + (": " + scalar.value))] + after
               else [Indentation(depth) + (Quote(key) + ":")] + (YamlLines(item, depth + 1) + after)
  {
    var Entry(key, item) := entries[0];
    var scalar := YamlScalar(item);
    if scalar.Some? {
      assert Indentation(depth) + Quote(key) + ": " + scalar.value == Indentation(depth) + (Quote(key) + (": " + scalar.value));
    } else {
      assert Indentation(depth) + Quote(key) + ":" == Indentation(depth) + (Quote(key) + ":");
    }
  }

  lemma ReadScalarEntry(depth: nat, key: string, text: string, v: Json, after: seq<string>)
    requires ReadScalar(text) == Some(v)
    ensures var more := ReadEntries(after, depth);
            ReadEntries([Indentation(depth) + (Quote(key) + (": " + text))] + after, depth)
            == if more.None? then None else Some(([Entry(key, v)] + more.value.0, more.value.1))
  {
    EntryBody(key, ": " + text);
    LineAt(depth, Quote(key) + (": " + text), after);
    assert (": " + text)[2..] == text && (": " + text)[..2] == ": " && (": " + text) != ":" by {
      assert (": " + text)[1] == ' ';
    }
  }

  lemma ReadNestedEntry(depth: nat, key: string, lines: seq<string>, v: Json, after: seq<string>)
    requires ReadBlock(lines, depth + 1) == Some((v, after))
    ensures var more := ReadEntries(after, depth);
            ReadEntries([Indentation(depth) + (Quote(key) + ":")] + lines, depth)
            == if more.None? then None else Some(([Entry(key, v)] + more.value.0, more.value.1))
  {
    EntryBody(key, ":");
    LineAt(depth, Quote(key) + ":", lines);
  }

  lemma {:induction false} ReadPrintedEntries(entries: seq<Entry>, depth: nat, rest: seq<string>)
    requires (forall e :: e in entries ==> WellFormed(e.value)) && Dedented(rest, depth)
    ensures ReadEntries(EntryLines(entries, depth) + rest, depth) == Some((entries, rest))
    decreases entries, 1
  {
    if entries == [] {
      assert EntryLines(entries, depth) + rest == rest;
    } else {
      ReadPrintedEntries(entries[1..], depth, rest);
      ReadFirstEntry(entries, depth, rest);
    }
  }

  lemma {:induction false} ReadFirstEntry(entries: seq<Entry>, depth: nat, rest: seq<string>)
    requires entries != [] && (forall e :: e in entries ==> WellFormed(e.value)) && Dedented(rest, depth)
    requires ReadEntries(EntryLines(entries[1..], depth) + rest, depth) == Some((entries[1..], rest))
    ensures ReadEntries(EntryLines(entries, depth) + rest, depth) == Some((entries, rest))
    decreases entries, 0
  {
    var Entry(key, item) := entries[0];
    var more := entries[1..];
    var after := EntryLines(more, depth) + rest;
    assert entries == [Entry(key, item)] + more && entries[0] in entries;
    EntryLinesUnfold(entries, depth, rest);
    if YamlScalar(item).Some? {
      ReadPrintedScalar(item);
      ReadScalarEntry(depth, key, YamlScalar(item).value, item, after);
    } else {
      if more != [] { EntriesStart(more, depth); }
      AfterIsDedented(EntryLines(more, depth), rest, depth);
      ReadPrintedBlock(item, depth + 1, after);
      ReadNestedEntry(depth, key, YamlLines(item, depth + 1) + after, item, after);
    }
  }

  lemma EntryBody(key: string, tail: string)
    ensures (Quote(key) + tail)[0] == '"' && ReadQuoted((Quote(key) + tail)[1..]) == Some((key, tail))
  {
    ReadQuote(key, tail);
    assert (Quote(key) + tail)[1..] == Escape(key) + "\"" + tail;
  }

  // ----- The round trip --------------------------------------------------------------------------

  lemma ContainerIsNoScalar(v: Json)
    requires WellFormed(v) && YamlScalar(v).None? && |YamlLines(v, 0)| == 1
    ensures ReadScalar(YamlLines(v, 0)[0]).None?
  {
    assert Indentation(0) == [];
    if v.JArray? {
      if v.items != [] { ItemLineIsNoScalar(v.items); }
    } else if v.entries != [] {
      EntryLineIsNoScalar(v.entries);
    }
  }

  lemma ItemLineIsNoScalar(items: seq<Json>)
    requires items != [] && |ItemLines(items, 0)| == 1
    ensures ReadScalar(ItemLines(items, 0)[0]).None?
  {
    assert Indentation(0) == [];
    var scalar := YamlScalar(items[0]);
    if scalar.Some? {
      var line := "- " + scalar.value;
      assert ItemLines(items, 0)[0] == line;
      assert !IsNumberChar(line[1]);
    } else {
      SomeLine(items[0], 1);
    }
  }

  lemma EntryLineIsNoScalar(entries: seq<Entry>)
    requires entries != [] && |EntryLines(entries, 0)| == 1
    ensures ReadScalar(EntryLines(entries, 0)[0]).None?
  {
    assert Indentation(0) == [];
    var Entry(key, item) := entries[0];
    var scalar := YamlScalar(item);
    if scalar.Some? {
      assert EntryLines(entries, 0)[0] == Quote(key) + (": " + scalar.value);
      EntryBody(key, ": " + scalar.value);
    } else {
      SomeLine(item, 1);
    }
  }

  lemma SomeLine(v: Json, depth: nat)
    ensures YamlLines(v, depth) != []
  {
  }

  /** Reading back what the printer prints for a value gives the value, at any nesting. */
  lemma YamlRoundTrip(v: Json)
    requires WellFormed(v)
    ensures ReadYaml(YamlLines(v, 0)) == Some(v)
  {
    var lines := YamlLines(v, 0);
    assert Indentation(0) == [];
    if YamlScalar(v).Some? {
      ReadPrintedScalar(v);
      assert [] + YamlScalar(v).value == YamlScalar(v).value;
      assert lines == [YamlScalar(v).value];
    } else {
      if |lines| == 1 { ContainerIsNoScalar(v); }
      ReadPrintedBlock(v, 0, []);
      assert lines + [] == lines;
    }
  }

  // ----- Lines and text --------------------------------------------------------------------------

  ghost predicate OneLine(s: string) { Without(s, '\n') }

  ghost predicate AllOneLine(lines: seq<string>) { NoneContains(lines, '\n') }

  lemma {:induction false} EscapeOneLine(s: string)
    ensures OneLine(Escape(s))
  {
    if s != [] { EscapeOneLine(s[1..]); }
  }

  lemma ScalarOneLine(v: Json)
    requires WellFormed(v) && YamlScalar(v).Some?
    ensures OneLine(YamlScalar(v).value)
  {
    match v
    case JString(s) => EscapeOneLine(s);
    case _ =>
  }

  lemma {:induction false} LinesHaveNoBreaks(v: Json, depth: nat)
    requires WellFormed(v)
    ensures AllOneLine(YamlLines(v, depth)) && YamlLines(v, depth) != []
    decreases v, 1
  {
    if YamlScalar(v).Some? { ScalarOneLine(v); }
    else if v.JArray? { ItemsHaveNoBreaks(v.items, depth); }
    else { EntriesHaveNoBreaks(v.entries, depth); }
  }

  lemma {:induction false} ItemsHaveNoBreaks(items: seq<Json>, depth: nat)
    requires forall x :: x in items ==> WellFormed(x)
    ensures AllOneLine(ItemLines(items, depth))
    ensures items != [] ==> ItemLines(items, depth) != []
    decreases items, 0
  {
    if items != [] {
      if YamlScalar(items[0]).Some? { ScalarOneLine(items[0]); } else { LinesHaveNoBreaks(items[0], depth + 1); }
      ItemsHaveNoBreaks(items[1..], depth);
    }
  }

  lemma {:induction false} EntriesHaveNoBreaks(entries: seq<Entry>, depth: nat)
    requires forall e :: e in entries ==> WellFormed(e.value)
    ensures AllOneLine(EntryLines(entries, depth))
    ensures entries != [] ==> EntryLines(entries, depth) != []
    decreases entries, 0
  {
    if entries != [] {
      var e := entries[0];
      assert e in entries;
      EscapeOneLine(e.key);
      if YamlScalar(e.value).Some? { ScalarOneLine(e.value); } else { LinesHaveNoBreaks(e.value, depth + 1); }
      EntriesHaveNoBreaks(entries[1..], depth);
    }
  }

  /** The text shown for a payload determines the payload: distinct values print differently. */
  lemma YamlTextRoundTrip(v: Json)
    requires WellFormed(v)
    ensures ReadYaml(Split(FormatYaml(v), '\n')) == Some(v)
  {
    LinesHaveNoBreaks(v, 0);
    SplitJoin(YamlLines(v, 0), '\n');
    YamlRoundTrip(v);
  }

  lemma YamlIsInjective(v: Json, w: Json)
    requires WellFormed(v) && WellFormed(w) && FormatYaml(v) == FormatYaml(w)
    ensures v == w
  {
    YamlTextRoundTrip(v);
    YamlTextRoundTrip(w);
  }
}
