/** Resolving a reference inside a bundled schema document: JSON Pointer, sections 3 and 4 of RFC 6901. */
module SchemaPointer {
  import opened Events
  import opened Json
  import opened Text

  // ----- Escaping --------------------------------------------------------------------------------

  /** Replace every `c` by the substitute. */
  function ReplaceChar(s: string, c: char, substitute: string): string {
    if s == [] then [] else (if s[0] == c then substitute else [s[0]]) + ReplaceChar(s[1..], c, substitute)
  }

  /** Replace every `~` followed by `digit` by the substitute, left to right. */
  function ReplacePair(s: string, digit: char, substitute: char): string
    decreases |s|
  {
    if s == [] then []
    else if |s| > 1 && s[0] == '~' && s[1] == digit then [substitute] + ReplacePair(s[2..], digit, substitute)
    else [s[0]] + ReplacePair(s[1..], digit, substitute)
  }

  /** How the row builder writes a name into an id. */
  function EscapeToken(name: string): string { ReplaceChar(ReplaceChar(name, '~', "~0"), '/', "~1") }

  function UnescapeToken(segment: string): string { ReplacePair(ReplacePair(segment, '1', '/'), '0', '~') }

  /** A tilde that is not followed by 0 or 1. */
  predicate BadEscape(segment: string) {
    segment != []
    && ((segment[0] == '~' && (|segment| == 1 || (segment[1] != '0' && segment[1] != '1'))) || BadEscape(segment[1..]))
  }

  // ----- Resolving -------------------------------------------------------------------------------

  predicate IsDigits(s: string) { forall i :: 0 <= i < |s| ==> '0' <= s[i] <= '9' }

  /** `0`, or digits without a leading zero. */
  predicate IsIndex(key: string) { key == "0" || (key != [] && key[0] != '0' && IsDigits(key)) }

  function IndexValue(digits: string): nat {
    if digits == [] then 0
    else
      var n := |digits| - 1;
      10 * IndexValue(digits[..n]) + if '0' <= digits[n] <= '9' then digits[n] as int - '0' as int else 0
  }

  /** The value of an own property. */
  function Lookup(entries: seq<Entry>, key: string): Option<Json> {
    if entries == [] then None
    else if entries[0].key == key then Some(entries[0].value) else Lookup(entries[1..], key)
  }

  function Step(value: Json, segment: string): Option<Json> {
    if BadEscape(segment) then None
    else
      var key := UnescapeToken(segment);
      match value
      case JArray(items) =>
        if IsIndex(key) && IndexValue(key) < |items| then Some(items[IndexValue(key)]) else None
      case JObject(entries) => Lookup(entries, key)
      case _ => None
  }

  function Steps(value: Json, segments: seq<string>): Option<Json> {
    if segments == [] then Some(value)
    else
      var n := |segments| - 1;
      var before := Steps(value, segments[..n]);
      if before.None? then None else Step(before.value, segments[n])
  }

  predicate IsSchemaNode(value: Json) { value.JBool? || value.JObject? }

  function Segments(pointer: string): seq<string> {
    if pointer == [] then [] else Split(pointer[1..], '/')
  }

  function Resolve(document: Option<Json>, pointer: string): Option<Json> {
    if document.None? || (pointer != [] && pointer[0] != '/') then None
    else
      var value := Steps(document.value, Segments(pointer));
      if value.Some? && IsSchemaNode(value.value) then value else None
  }

  /** The walk as written; an index past the end makes the value undefined, which nothing later accepts. */
  method ResolveSchemaReference(documents: map<nat, Json>, id: nat, pointer: string) returns (node: Option<Json>)
    ensures node == Resolve(if id in documents then Some(documents[id]) else None, pointer)
  {
    if id !in documents || (|pointer| != 0 && pointer[0] != '/') {
      return None;
    }
    var value: Option<Json> := Some(documents[id]);
    var segments := Segments(pointer);
    for i := 0 to |segments|
      invariant value == Steps(documents[id], segments[..i])
    {
      var segment := segments[i];
      assert segments[..i + 1][..i] == segments[..i];
      if BadEscape(segment) || value.None? {
        StepsStop(documents[id], segments, i + 1);
        return None;
      }
      var key := UnescapeToken(segment);
      if value.value.JArray? {
        if !IsIndex(key) {
          StepsStop(documents[id], segments, i + 1);
          return None;
        }
        var items := value.value.items;
        value := if IndexValue(key) < |items| then Some(items[IndexValue(key)]) else None;
      } else if value.value.JObject? && Lookup(value.value.entries, key).Some? {
        value := Lookup(value.value.entries, key);
      } else {
        StepsStop(documents[id], segments, i + 1);
        return None;
      }
    }
    assert segments[..|segments|] == segments;
    node := if value.Some? && IsSchemaNode(value.value) then value else None;
  }

  lemma {:induction false} StepsStop(value: Json, segments: seq<string>, i: nat)
    requires i <= |segments| && Steps(value, segments[..i]).None?
    ensures Steps(value, segments).None?
    decreases |segments|
  {
    if i < |segments| {
      assert segments[..|segments| - 1][..i] == segments[..i];
      StepsStop(value, segments[..|segments| - 1], i);
    } else {
      assert segments[..i] == segments;
    }
  }

  // ----- Paths and their encoding ----------------------------------------------------------------

  /** One step of a path into a document. */
  datatype PathStep = Name(name: string) | Index(index: nat)

  function Child(value: Json, step: PathStep): Option<Json> {
    match step
    case Name(name) => if value.JObject? then Lookup(value.entries, name) else None
    case Index(index) => if value.JArray? && index < |value.items| then Some(value.items[index]) else None
  }

  function NodeAt(document: Json, path: seq<PathStep>): Option<Json> {
    if path == [] then Some(document)
    else
      var n := |path| - 1;
      var parent := NodeAt(document, path[..n]);
      if parent.None? then None else Child(parent.value, path[n])
  }

  function Decimal(n: nat): string {
    if n < 10 then [(n + '0' as int) as char] else Decimal(n / 10) + [(n % 10 + '0' as int) as char]
  }

  function Token(step: PathStep): string {
    match step
    case Name(name) => EscapeToken(name)
    case Index(index) => Decimal(index)
  }

  function Tokens(path: seq<PathStep>): seq<string> { seq(|path|, i requires 0 <= i < |path| => Token(path[i])) }

  /** The RFC 6901 section 3 form of a path. */
  function Encode(path: seq<PathStep>): string {
    if path == [] then [] else "/" + Join(Tokens(path), '/')
  }

  // ----- Escaping and unescaping -----------------------------------------------------------------

  /** The first pass of unescaping undoes the second of escaping, on text whose tildes are all escaped. */
  lemma {:induction false} FirstPassUndone(s: string)
    ensures ReplacePair(EscapeToken(s), '1', '/') == ReplaceChar(s, '~', "~0")
  {
    if s != [] {
      FirstPassUndone(s[1..]);
      EscapeStep(s);
      var rest := EscapeToken(s[1..]);
      if s[0] == '~' {
        assert ("~0" + rest)[1..] == "0" + rest && ("0" + rest)[1..] == rest;
        assert ReplacePair("~0" + rest, '1', '/') == "~" + ReplacePair("0" + rest, '1', '/');
      } else if s[0] == '/' {
        assert ("~1" + rest)[2..] == rest;
      } else {
        assert ([s[0]] + rest)[1..] == rest;
      }
    }
  }

  lemma EscapeStep(s: string)
    requires s != []
    ensures EscapeToken(s) == (if s[0] == '~' then "~0" else if s[0] == '/' then "~1" else [s[0]]) + EscapeToken(s[1..])
  {
    var mid := ReplaceChar(s[1..], '~', "~0");
    if s[0] == '~' {
      assert ("~0" + mid)[1..] == "0" + mid && ("0" + mid)[1..] == mid;
      assert ReplaceChar("0" + mid, '/', "~1") == "0" + ReplaceChar(mid, '/', "~1");
      assert "~" + ("0" + ReplaceChar(mid, '/', "~1")) == "~0" + ReplaceChar(mid, '/', "~1");
    } else {
      assert ([s[0]] + mid)[1..] == mid;
    }
  }

  lemma {:induction false} SecondPassUndone(s: string)
    ensures ReplacePair(ReplaceChar(s, '~', "~0"), '0', '~') == s
  {
    if s != [] {
      SecondPassUndone(s[1..]);
      var rest := ReplaceChar(s[1..], '~', "~0");
      if s[0] == '~' {
        assert ("~0" + rest)[2..] == rest;
      } else {
        assert ([s[0]] + rest)[1..] == rest;
      }
      assert [s[0]] + s[1..] == s;
    }
  }

  lemma {:induction false} EscapedIsGood(s: string)
    ensures !BadEscape(EscapeToken(s)) && Without(EscapeToken(s), '/')
  {
    if s != [] {
      EscapedIsGood(s[1..]);
      EscapeStep(s);
      var rest := EscapeToken(s[1..]);
      var e := EscapeToken(s);
      if s[0] == '~' || s[0] == '/' {
        assert e[1..] == [e[1]] + rest && e[1..][1..] == rest;
      } else {
        assert e[1..] == rest;
      }
    }
  }

  /** Unescaping recovers every name from its escaped form, tildes and slashes included. */
  lemma UnescapeEscape(s: string)
    ensures UnescapeToken(EscapeToken(s)) == s && !BadEscape(EscapeToken(s)) && Without(EscapeToken(s), '/')
  {
    FirstPassUndone(s);
    SecondPassUndone(s);
    EscapedIsGood(s);
  }

  lemma {:induction false} NoTildes(s: string, digit: char, substitute: char)
    requires Without(s, '~')
    ensures ReplacePair(s, digit, substitute) == s && !BadEscape(s)
  {
    if s != [] {
      assert s[0] in s && forall c :: c in s[1..] ==> c in s;
      NoTildes(s[1..], digit, substitute);
      assert [s[0]] + s[1..] == s;
    }
  }

  lemma {:induction false} DecimalMeaning(n: nat)
    ensures var d := Decimal(n);
            d != [] && IsDigits(d) && IndexValue(d) == n && (n > 0 ==> d[0] != '0')
  {
    if n >= 10 {
      DecimalMeaning(n / 10);
      var d := Decimal(n);
      assert d[..|d| - 1] == Decimal(n / 10);
    } else {
      assert Decimal(n)[..0] == [];
    }
  }

  lemma IndexToken(n: nat)
    ensures var d := Decimal(n);
            !BadEscape(d) && UnescapeToken(d) == d && IsIndex(d) && IndexValue(d) == n && Without(d, '/')
  {
    DecimalMeaning(n);
    var d := Decimal(n);
    assert Without(d, '~') && Without(d, '/');
    NoTildes(d, '1', '/');
    NoTildes(d, '0', '~');
  }

  // ----- Resolving encoded paths -----------------------------------------------------------------

  /** Stepping by a path step's token goes where the step goes. */
  lemma StepIsChild(value: Json, step: PathStep)
    requires Child(value, step).Some?
    ensures Step(value, Token(step)) == Child(value, step)
  {
    match step
    case Name(name) => UnescapeEscape(name);
    case Index(index) => IndexToken(index);
  }

  lemma {:induction false} StepsFollowPath(document: Json, path: seq<PathStep>)
    requires NodeAt(document, path).Some?
    ensures Steps(document, Tokens(path)) == NodeAt(document, path)
  {
    if path != [] {
      var n := |path| - 1;
      StepsFollowPath(document, path[..n]);
      assert Tokens(path)[..n] == Tokens(path[..n]);
      StepIsChild(NodeAt(document, path[..n]).value, path[n]);
    }
  }

  lemma SegmentsOfEncoded(path: seq<PathStep>)
    ensures Segments(Encode(path)) == Tokens(path)
  {
    if path != [] {
      var tokens := Tokens(path);
      forall i | 0 <= i < |tokens| ensures Without(tokens[i], '/') {
        match path[i]
        case Name(name) => UnescapeEscape(name);
        case Index(index) => IndexToken(index);
      }
      SplitJoin(tokens, '/');
      assert Encode(path)[1..] == Join(tokens, '/');
    }
  }

  /** For every document and every path into it, resolving the path's encoding returns the node at that path. */
  lemma ResolveEncodedPath(document: Json, path: seq<PathStep>)
    requires NodeAt(document, path).Some?
    ensures Resolve(Some(document), Encode(path))
            == var node := NodeAt(document, path).value; if node.JBool? || node.JObject? then Some(node) else None
  {
    SegmentsOfEncoded(path);
    StepsFollowPath(document, path);
  }

  // ----- What resolves ---------------------------------------------------------------------------

  lemma ReplaceOther(c: char, s: string, digit: char, substitute: char)
    requires c != '~'
    ensures ReplacePair([c] + s, digit, substitute) == [c] + ReplacePair(s, digit, substitute)
  {
    assert ([c] + s)[1..] == s;
  }

  lemma ReplaceTilde(d: char, s: string, digit: char, substitute: char)
    requires d != '~'
    ensures ReplacePair("~" + [d] + s, digit, substitute)
            == (if d == digit then [substitute] else "~" + [d]) + ReplacePair(s, digit, substitute)
  {
    var t := "~" + [d] + s;
    assert t[2..] == s && t[1..] == [d] + s;
    ReplaceOther(d, s, digit, substitute);
  }

  /** Escaping recovers every well-escaped segment from its unescaped form. */
  lemma {:induction false} EscapeUnescape(s: string)
    requires !BadEscape(s) && Without(s, '/')
    ensures EscapeToken(UnescapeToken(s)) == s
    decreases |s|
  {
    if s == [] {
    } else if s[0] == '~' {
      var d, t := s[1], s[2..];
      assert s == "~" + [d] + t && s[1..][1..] == t;
      assert forall c :: c in t ==> c in s;
      EscapeUnescape(t);
      ReplaceTilde(d, t, '1', '/');
      var first := ReplacePair(t, '1', '/');
      if d == '1' { ReplaceOther('/', first, '0', '~'); } else { ReplaceTilde('0', first, '0', '~'); }
      var u := UnescapeToken(s);
      assert u == [if d == '1' then '/' else '~'] + UnescapeToken(t);
      EscapeStep(u);
      assert u[1..] == UnescapeToken(t);
    } else {
      var c, t := s[0], s[1..];
      assert s == [c] + t && c in s;
      assert forall x :: x in t ==> x in s;
      EscapeUnescape(t);
      ReplaceOther(c, t, '1', '/');
      ReplaceOther(c, ReplacePair(t, '1', '/'), '0', '~');
      var u := UnescapeToken(s);
      assert u == [c] + UnescapeToken(t);
      EscapeStep(u);
      assert u[1..] == UnescapeToken(t);
    }
  }

  lemma {:induction false} EscapeDigits(s: string)
    requires IsDigits(s)
    ensures EscapeToken(s) == s
  {
    if s != [] {
      EscapeStep(s);
      EscapeDigits(s[1..]);
      assert [s[0]] + s[1..] == s;
    }
  }

  /** The decimal form of an index is the index. */
  lemma {:induction false} DecimalOfIndex(key: string)
    requires IsIndex(key)
    ensures Decimal(IndexValue(key)) == key && (key[0] != '0' ==> IndexValue(key) > 0)
  {
    var n := |key| - 1;
    assert '0' <= key[n] <= '9';
    if n > 0 {
      DecimalOfIndex(key[..n]);
      assert key == key[..n] + [key[n]];
    } else {
      assert key[..0] == [] && IndexValue([]) == 0;
      assert key == [key[0]];
    }
  }

  /** A segment that leads somewhere is the token of a step that leads there. */
  lemma SegmentIsToken(value: Json, segment: string) returns (step: PathStep)
    requires Step(value, segment).Some? && Without(segment, '/')
    ensures Token(step) == segment && Child(value, step) == Step(value, segment)
  {
    var key := UnescapeToken(segment);
    EscapeUnescape(segment);
    if value.JArray? {
      step := Index(IndexValue(key));
      DecimalOfIndex(key);
      EscapeDigits(key);
    } else {
      step := Name(key);
    }
  }

  lemma {:induction false} SegmentsArePath(document: Json, segments: seq<string>) returns (path: seq<PathStep>)
    requires Steps(document, segments).Some? && NoneContains(segments, '/')
    ensures NodeAt(document, path) == Steps(document, segments) && Tokens(path) == segments
  {
    if segments == [] {
      path := [];
    } else {
      var n := |segments| - 1;
      assert Without(segments[n], '/');
      var before := SegmentsArePath(document, segments[..n]);
      var last := SegmentIsToken(Steps(document, segments[..n]).value, segments[n]);
      path := before + [last];
      PathGrows(document, before, last);
      assert segments == segments[..n] + [segments[n]];
    }
  }

  lemma PathGrows(document: Json, path: seq<PathStep>, step: PathStep)
    ensures Tokens(path + [step]) == Tokens(path) + [Token(step)]
    ensures NodeAt(document, path + [step])
            == if NodeAt(document, path).None? then None else Child(NodeAt(document, path).value, step)
  {
    assert (path + [step])[..|path|] == path;
  }

  /** The pointer encodes the path, which leads to this node. */
  ghost predicate Locates(document: Json, path: seq<PathStep>, pointer: string, node: Json) {
    Encode(path) == pointer && NodeAt(document, path) == Some(node)
  }

  /** A pointer resolves to a node exactly when it is the encoding of a path to it, and the node is a schema. */
  lemma ResolvesExactly(document: Json, pointer: string, node: Json)
    ensures Resolve(Some(document), pointer) == Some(node)
            <==> (node.JBool? || node.JObject?) && exists path :: Locates(document, path, pointer, node)
  {
    if Resolve(Some(document), pointer) == Some(node) {
      var path := PathOfPointer(document, pointer);
      assert Locates(document, path, pointer, node);
    }
    if path :| Locates(document, path, pointer, node) {
      ResolveEncodedPath(document, path);
    }
  }

  lemma PathOfPointer(document: Json, pointer: string) returns (path: seq<PathStep>)
    requires Resolve(Some(document), pointer).Some?
    ensures Encode(path) == pointer && NodeAt(document, path) == Resolve(Some(document), pointer)
  {
    if pointer == [] {
      path := [];
    } else {
      JoinSplit(pointer[1..], '/');
      path := SegmentsArePath(document, Segments(pointer));
      assert |path| == |Tokens(path)| > 0;
      assert pointer == "/" + pointer[1..];
    }
  }
}
