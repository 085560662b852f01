/** Sequences as lists and as enumerations of sets, and the machine word. */
module Sequences {

  /** 2 to the 64: unsigned words wrap around here. */
  const WORD: nat := 0x1_0000_0000_0000_0000

  ghost predicate Distinct<T>(s: seq<T>) {
    forall i, j :: 0 <= i < j < |s| ==> s[i] != s[j]
  }

  lemma Regroup<T>(a: seq<T>, b: seq<T>, c: seq<T>)
    ensures a + (b + c) == (a + b) + c
  {
  }

  /** The sequence without the first element equal to `x`. */
  function Without<T(==)>(s: seq<T>, x: T): (r: seq<T>) {
    if s == [] then []
    else if s[0] == x then s[1..]
    else [s[0]] + Without(s[1..], x)
  }

  lemma {:induction false} WithoutAbsent<T>(s: seq<T>, x: T)
    requires x !in s
    ensures Without(s, x) == s
  {
    if s != [] {
      WithoutAbsent(s[1..], x);
    }
  }

  lemma {:induction false} WithoutAt<T>(s: seq<T>, i: nat)
    requires i < |s| && s[i] !in s[..i]
    ensures Without(s, s[i]) == s[..i] + s[i + 1..]
  {
    if i > 0 {
      assert s[0] in s[..i];
      assert s[1..][i - 1] == s[i] && s[1..][..i - 1] == s[1..i];
      WithoutAt(s[1..], i - 1);
    }
  }

  lemma DistinctWithoutAt<T>(s: seq<T>, i: nat)
    requires Distinct(s) && i < |s|
    ensures Without(s, s[i]) == s[..i] + s[i + 1..]
  {
    WithoutAt(s, i);
  }

  lemma {:induction false} WithoutProperties<T>(s: seq<T>, x: T)
    requires Distinct(s)
    ensures Distinct(Without(s, x))
    ensures forall y :: y in Without(s, x) <==> y in s && y != x
    ensures |Without(s, x)| == if x in s then |s| - 1 else |s|
  {
    if s != [] {
      assert forall y :: y in s <==> y == s[0] || y in s[1..];
      assert s[0] !in s[1..];
      if s[0] != x {
        WithoutProperties(s[1..], x);
        var rest := Without(s[1..], x);
        assert forall i :: 0 <= i < |rest| ==> rest[i] in rest && rest[i] != s[0];
      }
    }
  }

  /** `order` lists the members of `keys`, each once: an order in which a loop
      over a Go map may meet them. */
  ghost predicate Enumerates<T(!new)>(order: seq<T>, keys: set<T>) {
    Distinct(order) && forall x :: x in order <==> x in keys
  }

  lemma EnumerateOneMore<T(!new)>(order: seq<T>, keys: set<T>, x: T)
    requires Enumerates(order, keys) && x !in keys
    ensures Enumerates(order + [x], keys + {x})
  {
  }

  /** Any member may come first. */
  lemma {:induction false} SomeOrder<T(!new)>(keys: set<T>, first: T) returns (order: seq<T>)
    requires first in keys
    ensures Enumerates(order, keys) && order[0] == first
    decreases |keys|
  {
    if keys == {first} {
      return [first];
    }
    assert keys - {first} != {};
    var x :| x in keys && x != first;
    var rest := SomeOrder(keys - {x}, first);
    EnumerateOneMore(rest, keys - {x}, x);
    assert keys - {x} + {x} == keys;
    return rest + [x];
  }

  lemma AnyOrder<T(!new)>(keys: set<T>) returns (order: seq<T>)
    ensures Enumerates(order, keys)
  {
    if keys == {} {
      return [];
    }
    var first :| first in keys;
    order := SomeOrder(keys, first);
  }

  lemma OrdersJoin<T(!new)>(front: seq<T>, before: set<T>, rest: seq<T>, pending: set<T>)
    requires Enumerates(front, before) && Enumerates(rest, pending) && before !! pending
    ensures Enumerates(front + rest, before + pending)
  {
    forall i, j | 0 <= i < j < |front + rest| ensures (front + rest)[i] != (front + rest)[j] {
      assert i < |front| ==> front[i] in front;
      assert j >= |front| ==> rest[j - |front|] in rest;
    }
  }
}
