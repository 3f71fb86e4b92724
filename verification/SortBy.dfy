/** Sorting by a numeric key, largest key first, as `sort_by_key` with a reversed key does. */
module SortBy {

  ghost predicate Descending<T>(s: seq<T>, key: T -> int) {
    forall i, j :: 0 <= i < j < |s| ==> key(s[i]) >= key(s[j])
  }

  /** Put `x` behind the elements whose key is not smaller. */
  function InsertByKey<T>(x: T, s: seq<T>, key: T -> int): seq<T> {
    if s == [] then [x]
    else if key(s[0]) >= key(x) then [s[0]] + InsertByKey(x, s[1..], key)
    else [x] + s
  }

  function SortDescending<T>(s: seq<T>, key: T -> int): seq<T> {
    if s == [] then [] else InsertByKey(s[|s| - 1], SortDescending(s[..|s| - 1], key), key)
  }

  lemma BehindHead<T>(head: T, rest: seq<T>, x: T, tail: seq<T>, key: T -> int)
    requires multiset(rest) == multiset(tail) + multiset{x} && Descending(rest, key)
    requires key(head) >= key(x) && forall j :: 0 <= j < |tail| ==> key(head) >= key(tail[j])
    ensures Descending([head] + rest, key)
  {
    forall j | 0 <= j < |rest|
      ensures key(head) >= key(rest[j])
    {
      assert rest[j] in multiset(rest);
    }
  }

  lemma {:induction false} InsertKeepsOrder<T>(x: T, s: seq<T>, key: T -> int)
    requires Descending(s, key)
    ensures multiset(InsertByKey(x, s, key)) == multiset(s) + multiset{x}
    ensures Descending(InsertByKey(x, s, key), key)
  {
    if s != [] {
      assert s == [s[0]] + s[1..];
      if key(s[0]) >= key(x) {
        InsertKeepsOrder(x, s[1..], key);
        BehindHead(s[0], InsertByKey(x, s[1..], key), x, s[1..], key);
      }
    }
  }

  lemma {:induction false} SortIsSorted<T>(s: seq<T>, key: T -> int)
    ensures multiset(SortDescending(s, key)) == multiset(s)
    ensures Descending(SortDescending(s, key), key)
  {
    if s != [] {
      SortIsSorted(s[..|s| - 1], key);
      InsertKeepsOrder(s[|s| - 1], SortDescending(s[..|s| - 1], key), key);
      assert s == s[..|s| - 1] + [s[|s| - 1]];
    }
  }

  // ----- stability

  /** The elements with the given key, in their order. */
  function WithKey<T>(s: seq<T>, key: T -> int, k: int): seq<T> {
    if s == [] then []
    else if key(s[0]) == k then [s[0]] + WithKey(s[1..], key, k)
    else WithKey(s[1..], key, k)
  }

  lemma {:induction false} WithKeyOfAppend<T>(a: seq<T>, b: seq<T>, key: T -> int, k: int)
    ensures WithKey(a + b, key, k) == WithKey(a, key, k) + WithKey(b, key, k)
  {
    if a == [] {
      assert a + b == b;
    } else {
      WithKeyOfAppend(a[1..], b, key, k);
      assert (a + b)[1..] == a[1..] + b;
    }
  }

  lemma {:induction false} NoneWithKey<T>(s: seq<T>, key: T -> int, k: int)
    requires forall i :: 0 <= i < |s| ==> key(s[i]) < k
    ensures WithKey(s, key, k) == []
  {
    if s != [] {
      NoneWithKey(s[1..], key, k);
    }
  }

  lemma {:induction false} InsertIsStable<T>(x: T, s: seq<T>, key: T -> int, k: int)
    requires Descending(s, key)
    ensures WithKey(InsertByKey(x, s, key), key, k) == WithKey(s, key, k) + WithKey([x], key, k)
  {
    if s != [] && key(s[0]) >= key(x) {
      InsertIsStable(x, s[1..], key, k);
      assert ([s[0]] + InsertByKey(x, s[1..], key))[1..] == InsertByKey(x, s[1..], key);
    } else {
      WithKeyOfAppend([x], s, key, k);
      if k == key(x) {
        NoneWithKey(s, key, k);
      }
    }
  }

  /** Elements with equal keys stay in their order. */
  lemma {:induction false} SortIsStable<T>(s: seq<T>, key: T -> int, k: int)
    ensures WithKey(SortDescending(s, key), key, k) == WithKey(s, key, k)
  {
    if s != [] {
      var init, last := s[..|s| - 1], s[|s| - 1];
      SortIsStable(init, key, k);
      SortIsSorted(init, key);
      InsertIsStable(last, SortDescending(init, key), key, k);
      WithKeyOfAppend(init, [last], key, k);
      assert s == init + [last];
    }
  }
}
