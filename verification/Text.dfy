/** Joining pieces of text with a separator, and splitting them again. */
module Text {
  function Join(pieces: seq<string>, separator: char): string {
    if pieces == [] then [] else if |pieces| == 1 then pieces[0] else pieces[0] + [separator] + Join(pieces[1..], separator)
  }

  function Split(text: string, separator: char): (pieces: seq<string>)
    ensures pieces != []
  {
    if text == [] then [[]]
    else
      var rest := Split(text[1..], separator);
      if text[0] == separator then [[]] + rest else [[text[0]] + rest[0]] + rest[1..]
  }

  ghost predicate Without(s: string, c: char) { c !in s }

  ghost predicate NoneContains(pieces: seq<string>, c: char) { forall i :: 0 <= i < |pieces| ==> Without(pieces[i], c) }

  lemma {:induction false} SplitWhole(s: string, separator: char)
    requires Without(s, separator)
    ensures Split(s, separator) == [s]
  {
    if s != [] {
      assert s[0] in s && forall c :: c in s[1..] ==> c in s;
      SplitWhole(s[1..], separator);
      assert [s[0]] + s[1..] == s;
    }
  }

  lemma {:induction false} SplitFirst(s: string, separator: char, t: string)
    requires Without(s, separator)
    ensures Split(s + [separator] + t, separator) == [s] + Split(t, separator)
  {
    if s == [] {
      assert (s + [separator] + t)[1..] == t;
    } else {
      assert (s + [separator] + t)[1..] == s[1..] + [separator] + t;
      assert s[0] in s && forall c :: c in s[1..] ==> c in s;
      SplitFirst(s[1..], separator, t);
      assert [s[0]] + s[1..] == s;
    }
  }

  /** Splitting undoes joining when no piece contains the separator. */
  lemma {:induction false} SplitJoin(pieces: seq<string>, separator: char)
    requires pieces != [] && NoneContains(pieces, separator)
    ensures Split(Join(pieces, separator), separator) == pieces
  {
    if |pieces| == 1 {
      SplitWhole(pieces[0], separator);
    } else {
      SplitFirst(pieces[0], separator, Join(pieces[1..], separator));
      SplitJoin(pieces[1..], separator);
    }
  }

  /** And joining undoes splitting, whatever the text. */
  lemma {:induction false} JoinSplit(text: string, separator: char)
    ensures Join(Split(text, separator), separator) == text
    ensures NoneContains(Split(text, separator), separator)
  {
    if text != [] {
      JoinSplit(text[1..], separator);
      var rest := Split(text[1..], separator);
      if text[0] == separator {
        assert ([[]] + rest)[1..] == rest;
      } else {
        JoinLonger(text[0], rest, separator);
        assert rest[0] == [] || Without(rest[0], separator);
      }
      assert [text[0]] + text[1..] == text;
    }
  }

  lemma JoinLonger(c: char, pieces: seq<string>, separator: char)
    requires pieces != []
    ensures Join([[c] + pieces[0]] + pieces[1..], separator) == [c] + Join(pieces, separator)
  {
    var longer := [[c] + pieces[0]] + pieces[1..];
    assert longer[1..] == pieces[1..];
    if |pieces| > 1 {
      assert [c] + pieces[0] + [separator] + Join(pieces[1..], separator)
          == [c] + (pieces[0] + [separator] + Join(pieces[1..], separator));
    }
  }
}
