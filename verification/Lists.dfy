/** Small facts about sequences and the multisets of their elements. */
module Lists {
  lemma Associate<T>(a: seq<T>, b: seq<T>, c: seq<T>)
    ensures a + (b + c) == (a + b) + c
  {
  }

  lemma FrontAndLast<T>(s: seq<T>)
    requires s != []
    ensures s == s[..|s| - 1] + [s[|s| - 1]]
  {
  }

  lemma MultisetConcat<T>(a: seq<T>, b: seq<T>)
    ensures multiset(a + b) == multiset(a) + multiset(b)
  {
  }

  /** Where a list is split in two, one more element may join either part in front. */
  lemma OneMore<T>(x: T, a: seq<T>, b: seq<T>, all: seq<T>)
    requires multiset(a) + multiset(b) == multiset(all)
    ensures multiset([x] + a) + multiset(b) == multiset([x] + all)
    ensures multiset(a) + multiset([x] + b) == multiset([x] + all)
  {
  }

  /** The same at the end, where the other part may be written with nothing added. */
  lemma OneMoreLast<T>(x: T, a: seq<T>, b: seq<T>, all: seq<T>)
    requires multiset(a) + multiset(b) == multiset(all)
    ensures multiset(a + [x]) + multiset(b + []) == multiset(all + [x])
    ensures multiset(a + []) + multiset(b + [x]) == multiset(all + [x])
  {
    assert a + [] == a && b + [] == b;
  }

  /** Taking the same element out of two lists of the same elements leaves two such lists. */
  lemma BothWithout<T>(a: seq<T>, b: seq<T>, i: nat)
    requires multiset(a) == multiset(b) && a != [] && i < |b| && b[i] == a[0]
    ensures multiset(a[1..]) == multiset(b[..i] + b[i + 1..])
  {
    assert a == [a[0]] + a[1..];
    assert b == b[..i] + ([b[i]] + b[i + 1..]);
    assert multiset(a[1..]) == multiset(a) - multiset{a[0]};
    assert multiset(b[..i] + b[i + 1..]) == multiset(b) - multiset{b[i]};
  }

  lemma TakeFirst<T>(a: seq<T>, b: seq<T>, k: nat)
    requires k <= |a|
    ensures (a + b)[..k] == a[..k]
  {
  }

  lemma TakePast<T>(a: seq<T>, b: seq<T>, k: nat)
    requires |a| <= k <= |a| + |b|
    ensures (a + b)[..k] == a + b[..k - |a|]
  {
  }
}
