/** Option and Result values shared by every component. */
module Prelude {
  datatype Option<+T> = None | Some(value: T)

  datatype Result<+T, +E> = Ok(value: T) | Err(error: E)

  /** Rust's `Option::or`. */
  function Or<T>(a: Option<T>, b: Option<T>): Option<T> {
    if a.Some? then a else b
  }

  // ----- iterating hash maps

  /** `order` lists exactly the keys of the map. */
  ghost predicate Visits<V>(m: map<string, V>, order: seq<string>) {
    forall name :: name in m <==> name in order
  }

  /** `order` lists each key of the map once, as iterating a hash map does. */
  ghost predicate IterationOrder<V>(m: map<string, V>, order: seq<string>) {
    Visits(m, order) && forall i, j :: 0 <= i < j < |order| ==> order[i] != order[j]
  }

  lemma OrderOfKeys(keys: set<string>) returns (order: seq<string>)
    ensures forall name :: name in keys <==> name in order
    ensures forall i, j :: 0 <= i < j < |order| ==> order[i] != order[j]
  {
    if keys == {} {
      order := [];
    } else {
      var name :| name in keys;
      var rest := OrderOfKeys(keys - {name});
      order := [name] + rest;
    }
  }

  /** Some order visits a given key first. */
  lemma OrderStartingWith<V>(m: map<string, V>, first: string) returns (order: seq<string>)
    requires first in m
    ensures IterationOrder(m, order) && order != [] && order[0] == first
  {
    var rest := OrderOfKeys(m.Keys - {first});
    order := [first] + rest;
  }

  // ----- sequence facts, stated once so that larger proofs need not rediscover them

  lemma AppendAssoc<T>(a: seq<T>, b: seq<T>, c: seq<T>)
    ensures a + b + c == a + (b + c)
  {
  }

  lemma DropOfAppend<T>(a: seq<T>, b: seq<T>, n: nat)
    requires n <= |a|
    ensures (a + b)[n..] == a[n..] + b
  {
  }

  lemma SplitAt<T>(s: seq<T>, n: nat)
    requires n <= |s|
    ensures s == s[..n] + s[n..]
  {
  }

  lemma PrefixAndRest<T>(a: seq<T>, s: seq<T>)
    requires a <= s
    ensures s == a + s[|a|..]
  {
  }

  lemma AppendNothing<T>(s: seq<T>)
    ensures s + [] == s && [] + s == s
  {
  }

  lemma ConsInjective<T>(x: T, a: seq<T>, b: seq<T>)
    ensures [x] + a == [x] + b <==> a == b
  {
    assert ([x] + a)[1..] == a && ([x] + b)[1..] == b;
  }

  lemma HeadAndTail<T>(s: seq<T>)
    requires s != []
    ensures [s[0]] + s[1..] == s
  {
  }

  lemma InitAndLast<T>(s: seq<T>)
    requires s != []
    ensures s[..|s| - 1] + [s[|s| - 1]] == s
  {
  }

  lemma ConsPrefix<T>(x: T, a: seq<T>, b: seq<T>)
    ensures [x] + a <= [x] + b <==> a <= b
  {
    if [x] + a <= [x] + b {
      assert a == ([x] + a)[1..] && b == ([x] + b)[1..];
    }
  }

  lemma PrefixesCompare<T>(a: seq<T>, b: seq<T>, s: seq<T>)
    requires a <= s && b <= s
    ensures |a| <= |b| <==> a <= b
  {
  }
}
