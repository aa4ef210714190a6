/** Insertion sort as the outbox performs it, and why its result is the stable sort. */
module StableSorting {
  import opened Lists

  /** Insert after every element whose key is not greater. */
  function Insert<T>(s: seq<T>, value: T, key: T -> int): seq<T> {
    if s == [] then [value]
    else if key(s[0]) > key(value) then [value] + s
    else [s[0]] + Insert(s[1..], value, key)
  }

  function StableSort<T>(values: seq<T>, key: T -> int): seq<T> {
    if values == [] then []
    else Insert(StableSort(values[..|values| - 1], key), values[|values| - 1], key)
  }

  ghost predicate Sorted<T>(s: seq<T>, key: T -> int) {
    forall i, j :: 0 <= i < j < |s| ==> key(s[i]) <= key(s[j])
  }

  /** The elements with key `k`, in order. */
  function WithKey<T>(s: seq<T>, key: T -> int, k: int): seq<T> {
    if s == [] then [] else (if key(s[0]) == k then [s[0]] else []) + WithKey(s[1..], key, k)
  }

  lemma {:induction false} WithKeyAppend<T>(a: seq<T>, b: seq<T>, key: T -> int, k: int)
    ensures WithKey(a + b, key, k) == WithKey(a, key, k) + WithKey(b, key, k)
  {
    if a == [] {
      assert a + b == b;
    } else {
      assert (a + b)[0] == a[0] && (a + b)[1..] == a[1..] + b;
      WithKeyAppend(a[1..], b, key, k);
      Associate(if key(a[0]) == k then [a[0]] else [], WithKey(a[1..], key, k), WithKey(b, key, k));
    }
  }

  lemma {:induction false} InsertPermutes<T>(s: seq<T>, value: T, key: T -> int)
    ensures multiset(Insert(s, value, key)) == multiset(s) + multiset{value}
  {
    if s != [] && key(s[0]) <= key(value) {
      InsertPermutes(s[1..], value, key);
      assert s == [s[0]] + s[1..];
      assert Insert(s, value, key) == [s[0]] + Insert(s[1..], value, key);
    }
  }

  lemma SortedCons<T>(x: T, s: seq<T>, key: T -> int)
    requires Sorted(s, key) && (s == [] || key(x) <= key(s[0]))
    ensures Sorted([x] + s, key)
  {
  }

  lemma {:induction false} InsertSorts<T>(s: seq<T>, value: T, key: T -> int)
    requires Sorted(s, key)
    ensures Sorted(Insert(s, value, key), key)
  {
    if s == [] {
    } else if key(s[0]) > key(value) {
      SortedCons(value, s, key);
    } else {
      InsertSorts(s[1..], value, key);
      SortedCons(s[0], Insert(s[1..], value, key), key);
    }
  }

  lemma {:induction false} NoneAbove<T>(s: seq<T>, key: T -> int, k: int)
    requires forall i :: 0 <= i < |s| ==> key(s[i]) > k
    ensures WithKey(s, key, k) == []
  {
    if s != [] { NoneAbove(s[1..], key, k); }
  }

  lemma {:induction false} InsertStable<T>(s: seq<T>, value: T, key: T -> int, k: int)
    requires Sorted(s, key)
    ensures WithKey(Insert(s, value, key), key, k) == WithKey(s, key, k) + if key(value) == k then [value] else []
  {
    if s != [] {
      if key(s[0]) > key(value) {
        WithKeyAppend([value], s, key, k);
        if key(value) == k { NoneAbove(s, key, k); }
      } else {
        InsertStable(s[1..], value, key, k);
        WithKeyAppend([s[0]], Insert(s[1..], value, key), key, k);
      }
    }
  }

  /** `ordered` returns a sorted permutation in which elements with equal keys keep their input order. */
  lemma {:induction false} StableSortCorrect<T>(values: seq<T>, key: T -> int)
    ensures var r := StableSort(values, key);
            && Sorted(r, key)
            && multiset(r) == multiset(values)
            && forall k :: WithKey(r, key, k) == WithKey(values, key, k)
  {
    if values != [] {
      var front, last := values[..|values| - 1], values[|values| - 1];
      StableSortCorrect(front, key);
      InsertSorts(StableSort(front, key), last, key);
      InsertPermutes(StableSort(front, key), last, key);
      assert values == front + [last];
      forall k ensures WithKey(StableSort(values, key), key, k) == WithKey(values, key, k) {
        InsertStable(StableSort(front, key), last, key, k);
        WithKeyLast(front, last, key, k);
      }
    }
  }

  lemma WithKeyLast<T>(front: seq<T>, last: T, key: T -> int, k: int)
    ensures WithKey(front + [last], key, k) == WithKey(front, key, k) + if key(last) == k then [last] else []
  {
    WithKeyAppend(front, [last], key, k);
    assert [last][1..] == [];
  }

  lemma {:induction false} WithKeyMember<T>(s: seq<T>, key: T -> int, x: T)
    ensures x in s <==> x in WithKey(s, key, key(x))
  {
    if s != [] { WithKeyMember(s[1..], key, x); }
  }

  lemma WithKeyTail<T>(s: seq<T>, key: T -> int, k: int)
    requires s != []
    ensures WithKey(s[1..], key, k) == if key(s[0]) == k then WithKey(s, key, k)[1..] else WithKey(s, key, k)
  {
  }

  lemma HeadWithKey<T>(s: seq<T>, key: T -> int)
    requires s != []
    ensures exists k :: WithKey(s, key, k) != []
  {
    assert WithKey(s, key, key(s[0])) != [];
  }

  /** Those properties determine the result: there is only one stable sort. */
  lemma {:induction false} StableSortUnique<T>(a: seq<T>, b: seq<T>, key: T -> int)
    requires Sorted(a, key) && Sorted(b, key)
    requires forall k :: WithKey(a, key, k) == WithKey(b, key, k)
    ensures a == b
  {
    if a == [] {
      if b != [] { HeadWithKey(b, key); }
    } else {
      WithKeyMember(a, key, a[0]);
      WithKeyMember(b, key, a[0]);
      WithKeyMember(a, key, b[0]);
      WithKeyMember(b, key, b[0]);
      assert key(a[0]) == key(b[0]);
      assert WithKey(a, key, key(a[0]))[0] == a[0] && WithKey(b, key, key(a[0]))[0] == b[0];
      forall k ensures WithKey(a[1..], key, k) == WithKey(b[1..], key, k) {
        WithKeyTail(a, key, k);
        WithKeyTail(b, key, k);
      }
      StableSortUnique(a[1..], b[1..], key);
    }
  }

  lemma {:induction false} InsertAt<T>(s: seq<T>, value: T, key: T -> int, i: nat)
    requires i <= |s|
    requires forall j :: 0 <= j < i ==> key(s[j]) <= key(value)
    requires i == |s| || key(s[i]) > key(value)
    ensures Insert(s, value, key) == s[..i] + [value] + s[i..]
  {
    if i > 0 {
      var t := s[1..];
      forall j | 0 <= j < i - 1 ensures key(t[j]) <= key(value) {
        assert t[j] == s[j + 1];
      }
      InsertAt(t, value, key, i - 1);
      assert Insert(s, value, key) == [s[0]] + (t[..i - 1] + [value] + t[i - 1..]);
    }
  }

  method Ordered<T>(values: seq<T>, key: T -> int) returns (result: seq<T>)
    ensures result == StableSort(values, key)
  {
    result := [];
    for v := 0 to |values|
      invariant result == StableSort(values[..v], key)
    {
      var value := values[v];
      var index := 0;
      while index < |result| && key(result[index]) <= key(value)
        invariant 0 <= index <= |result|
        invariant forall j :: 0 <= j < index ==> key(result[j]) <= key(value)
      {
        index := index + 1;
      }
      InsertAt(result, value, key, index);
      assert values[..v + 1][..v] == values[..v];
      result := result[..index] + [value] + result[index..];
    }
    assert values[..|values|] == values;
  }
}
