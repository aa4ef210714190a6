/** Which property keys the SDK never sends, and where its test and its cut disagree. */
module SensitiveKeys {
  import opened Json
  import opened JsHeap
  import opened Normalizer

  const SENSITIVE_KEYS: set<string> := {"body", "input", "payload"}
  const SENSITIVE_KEY_FRAGMENTS: seq<string> := [
    "apikey", "authtoken", "authheader", "authorization", "cookie", "inputvalue", "password", "passwd",
    "requestbody", "requestpayload", "responsebody", "responsepayload", "secret", "setcookie"]

  predicate IsAlphanumeric(c: char) { 'a' <= c <= 'z' || '0' <= c <= '9' }

  /** What lower-casing and stripping leave of a character; two letters outside ASCII lower-case into it. */
  function Fold(c: char): string {
    if 'A' <= c <= 'Z' then [(c as int - 'A' as int + 'a' as int) as char]
    else if IsAlphanumeric(c) then [c]
    else if c == '\U{212A}' then "k"
    else if c == '\U{0130}' then "i"
    else []
  }

  function FoldAll(key: string): string {
    if key == [] then [] else Fold(key[0]) + FoldAll(key[1..])
  }

  predicate Includes(s: string, fragment: string) {
    fragment <= s || (s != [] && Includes(s[1..], fragment))
  }

  predicate IsSensitivePropertyKey(key: string) {
    var normalized := FoldAll(key);
    normalized in SENSITIVE_KEYS
    || exists k :: 0 <= k < |SENSITIVE_KEY_FRAGMENTS| && Includes(normalized, SENSITIVE_KEY_FRAGMENTS[k])
  }

  /** Normalising custom properties starts with nothing under way and leaves nothing behind. */
  method NormalizeProperties(h: Heap, properties: Value) returns (r: Outcome<Json>)
    requires Closed(h) && InHeap(h, properties)
    ensures r == Normalize(IsSensitivePropertyKey, h, properties, 0, {})
  {
    var seen := new WeakSet();
    r := NormalizeInPlace(IsSensitivePropertyKey, h, properties, 0, seen);
  }

  // ----- What counts as sensitive ------------------------------------------------------------------

  /** Case does not matter, and neither does anything that is not a letter or digit. */
  lemma FoldMeaning(c: char)
    ensures 'A' <= c <= 'Z' ==> Fold(c) == Fold((c as int + 32) as char)
    ensures 'a' <= c <= 'z' || '0' <= c <= '9' ==> Fold(c) == [c]
    ensures c < '0' || '9' < c < 'A' || 'Z' < c < 'a' || ('z' < c && c != '\U{212A}' && c != '\U{0130}') ==> Fold(c) == []
  {
  }

  /** Characters that fold to nothing may be put anywhere. */
  lemma SeparatorsDoNotMatter(a: string, c: char, b: string)
    requires Fold(c) == []
    ensures IsSensitivePropertyKey(a + [c] + b) <==> IsSensitivePropertyKey(a + b)
  {
    FoldSkips(a, c, b);
  }

  lemma FoldSkips(a: string, c: char, b: string)
    requires Fold(c) == []
    ensures FoldAll(a + [c] + b) == FoldAll(a + b)
  {
    FoldAppend(a + [c], b);
    FoldAppend(a, [c]);
    FoldAppend(a, b);
    assert [c][1..] == [] && FoldAll([c]) == Fold(c) + FoldAll([]);
  }

  lemma {:induction false} IncludesAnywhere(a: string, fragment: string, b: string)
    ensures Includes(a + fragment + b, fragment)
  {
    if a == [] {
      assert a + fragment + b == fragment + b;
    } else {
      assert (a + fragment + b)[1..] == a[1..] + fragment + b;
      IncludesAnywhere(a[1..], fragment, b);
    }
  }

  lemma {:induction false} IncludedSomewhere(s: string, fragment: string) returns (at: nat)
    requires Includes(s, fragment)
    ensures at + |fragment| <= |s| && s[at..at + |fragment|] == fragment
  {
    if fragment <= s {
      at := 0;
    } else {
      var i := IncludedSomewhere(s[1..], fragment);
      at := i + 1;
    }
  }

  /** Any key in which a fragment stands, disguised by case or separators, is sensitive. */
  lemma DisguisedFragment(a: string, x: string, b: string, k: nat)
    requires k < |SENSITIVE_KEY_FRAGMENTS| && FoldAll(x) == SENSITIVE_KEY_FRAGMENTS[k]
    ensures IsSensitivePropertyKey(a + x + b)
  {
    FoldAppend(a + x, b);
    FoldAppend(a, x);
    IncludesAnywhere(FoldAll(a), SENSITIVE_KEY_FRAGMENTS[k], FoldAll(b));
  }

  /** A sensitive key is, folded, one of three words, or has one of the fragments somewhere. */
  lemma SensitiveHasAReason(key: string)
    requires IsSensitivePropertyKey(key)
    ensures FoldAll(key) in {"body", "input", "payload"}
            || exists k, at :: 0 <= k < |SENSITIVE_KEY_FRAGMENTS| && HasAt(FoldAll(key), at, SENSITIVE_KEY_FRAGMENTS[k])
  {
    if FoldAll(key) !in SENSITIVE_KEYS {
      var k :| 0 <= k < |SENSITIVE_KEY_FRAGMENTS| && Includes(FoldAll(key), SENSITIVE_KEY_FRAGMENTS[k]);
      var at := IncludedSomewhere(FoldAll(key), SENSITIVE_KEY_FRAGMENTS[k]);
      assert HasAt(FoldAll(key), at, SENSITIVE_KEY_FRAGMENTS[k]);
    }
  }

  ghost predicate HasAt(s: string, at: nat, fragment: string) { at + |fragment| <= |s| && s[at..at + |fragment|] == fragment }

  // ----- A key that slips through ------------------------------------------------------------------

  lemma {:induction false} FoldDashes(n: nat, tail: string)
    ensures FoldAll(seq(n, _ => '-') + tail) == FoldAll(tail)
  {
    var s := seq(n, _ => '-') + tail;
    if n == 0 {
      assert s == tail;
    } else {
      FoldDashes(n - 1, tail);
      var rest := seq(n - 1, _ => '-') + tail;
      assert s[0] == '-' && s[1..] == rest && FoldAll(s) == Fold('-') + FoldAll(rest);
    }
  }

  lemma {:induction false} FoldAppend(a: string, b: string)
    ensures FoldAll(a + b) == FoldAll(a) + FoldAll(b)
  {
    if a == [] {
      assert a + b == b;
    } else {
      assert (a + b)[1..] == a[1..] + b;
      FoldAppend(a[1..], b);
    }
  }

  lemma {:induction false} TooShortToInclude(s: string, fragment: string)
    requires |s| < |fragment|
    ensures !Includes(s, fragment)
  {
    if s != [] { TooShortToInclude(s[1..], fragment); }
  }

  function LongKey(): string { "body" + (seq(124, _ => '-') + "x") }

  lemma FoldLongKey()
    ensures FoldAll(LongKey()) == "bodyx" && FoldAll(Cut(LongKey())) == "body"
  {
    var dashes := seq(124, _ => '-');
    FoldBody();
    FoldAppend("body", dashes + "x");
    FoldDashes(124, "x");
    assert FoldAll("x") == "x";
    FoldAppend("body", dashes);
    FoldDashes(124, "");
    assert dashes + "" == dashes;
    assert Cut(LongKey()) == "body" + dashes;
  }

  lemma FoldBody()
    ensures FoldAll("body") == "body"
  {
    assert "body"[1..] == "ody" && "ody"[1..] == "dy" && "dy"[1..] == "y" && "y"[1..] == "";
  }

  /** `body`, 124 dashes and an `x` is not sensitive, but its first 128 characters are. */
  lemma CutMakesSensitive()
    ensures !IsSensitivePropertyKey(LongKey()) && IsSensitivePropertyKey(Cut(LongKey()))
  {
    FoldLongKey();
    HarmlessWord();
  }

  /** No sensitive word and no sensitive fragment is in it. */
  lemma HarmlessWord()
    ensures "bodyx" !in SENSITIVE_KEYS
    ensures forall k :: 0 <= k < |SENSITIVE_KEY_FRAGMENTS| ==> !Includes("bodyx", SENSITIVE_KEY_FRAGMENTS[k])
  {
    forall k | 0 <= k < |SENSITIVE_KEY_FRAGMENTS| ensures !Includes("bodyx", SENSITIVE_KEY_FRAGMENTS[k]) {
      TooShortToInclude("bodyx", SENSITIVE_KEY_FRAGMENTS[k]);
    }
    assert |"bodyx"| == |"input"| && "bodyx"[0] != "input"[0];
  }

  /** So a harmless long key can leave a sensitive one in the result. */
  lemma CutCanExposeASensitiveKey()
    ensures var h := map[0 := Rec([Field(LongKey(), Null)])]; var r := Normalize(IsSensitivePropertyKey, h, Ref(0), 0, {});
            Closed(h) && r.Ok? && !Clean(IsSensitivePropertyKey, r.value)
  {
    CutMakesSensitive();
    OneProperty(IsSensitivePropertyKey, LongKey());
  }

  /** What becomes of an object with one property. */
  lemma OneProperty(sensitive: KeyTest, key: string)
    ensures var h := map[0 := Rec([Field(key, Null)])];
            && Closed(h)
            && Normalize(sensitive, h, Ref(0), 0, {}) == Ok(JObject(if sensitive(key) then [] else [Entry(Cut(key), JNull)]))
            && (!sensitive(key) && sensitive(Cut(key)) ==> !Clean(sensitive, JObject([Entry(Cut(key), JNull)])))
  {
    var fields := [Field(key, Null)];
    var h: Heap := map[0 := Rec(fields)];
    assert Children(h[0]) == [Null];
    assert fields[..0] == [] && Take(fields, MAX_OBJECT_KEYS) == fields;
    RecordResult(sensitive, h, 0, 0, {});
    assert NormalizeFields(sensitive, h, [], 1, {0}) == Ok([]);
    assert {} + {0} == {0} && Normalize(sensitive, h, Null, 1, {0}) == Ok(JNull);
    assert NormalizeFields(sensitive, h, fields, 1, {0}) == Ok(if sensitive(key) then [] else [Entry(Cut(key), JNull)]);
    assert Entry(Cut(key), JNull) in [Entry(Cut(key), JNull)];
  }
}
