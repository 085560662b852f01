/** The LRU cache shared by any number of threads. `Get` and `Delete` release
    the read lock before they take the write lock, so each is two steps and
    anything may happen in between; the other calls are one step. */
module LruConcurrent {
  import opened LruCache
  import opened LruHistory
  import opened Sequences
  import opened Wrappers

  type Thread = nat

  datatype Pending<K, V> = Idle | Touching(key: K, value: V, element: Element<K>) | Deleting(key: K)

  datatype System<K, V> = System(cache: Rep<K, V>, threads: map<Thread, Pending<K, V>>)

  datatype Action<K, V> =
    | StartGet(thread: Thread, key: K)
    | FinishGet(thread: Thread)
    | DoPut(thread: Thread, key: K, value: V)
    | StartDelete(thread: Thread, key: K)
    | FinishDelete(thread: Thread)
    | DoClear(thread: Thread)

  function At<K, V>(s: System<K, V>, t: Thread): Pending<K, V> {
    if t in s.threads then s.threads[t] else Idle
  }

  predicate Enabled<K, V>(s: System<K, V>, a: Action<K, V>) {
    match a
    case FinishGet(t) => At(s, t).Touching?
    case FinishDelete(t) => At(s, t).Deleting?
    case _ => At(s, a.thread).Idle?
  }

  function Next<K, V>(s: System<K, V>, capacity: nat, a: Action<K, V>): System<K, V>
    requires Enabled(s, a)
  {
    match a
    case StartGet(t, k) =>
      if k in s.cache.entries && k in s.cache.elements
      then s.(threads := s.threads[t := Touching(k, s.cache.entries[k], s.cache.elements[k])])
      else s
    case FinishGet(t) => System(Touched(s.cache, At(s, t).element), s.threads[t := Idle])
    case DoPut(t, k, v) => s.(cache := Stored(s.cache, capacity, k, v))
    case StartDelete(t, k) => if k in s.cache.entries then s.(threads := s.threads[t := Deleting(k)]) else s
    case FinishDelete(t) => System(Deleted(s.cache, At(s, t).key), s.threads[t := Idle])
    case DoClear(t) => s.(cache := Cleared(s.cache))
  }

  /** Every interleaving of the threads' steps from an empty cache. */
  ghost predicate Interleaving<K, V>(capacity: nat, actions: seq<Action<K, V>>)
    decreases |actions|, 0
  {
    actions != [] ==>
      && Interleaving(capacity, actions[..|actions| - 1])
      && Enabled(Reached(capacity, actions[..|actions| - 1]), actions[|actions| - 1])
  }

  ghost function Reached<K, V>(capacity: nat, actions: seq<Action<K, V>>): System<K, V>
    requires Interleaving(capacity, actions)
    decreases |actions|, 1
  {
    if actions == [] then System(Empty(), map[])
    else Next(Reached(capacity, actions[..|actions| - 1]), capacity, actions[|actions| - 1])
  }

  /** The first half of a `Get` or a `Delete` goes on to the second exactly when the
      key is resident, and changes nothing; a `Delete` that finishes leaves its key
      out, and a `Put` leaves its value in. */
  lemma WhatStepsDo<K, V>(s: System<K, V>, capacity: nat, a: Action<K, V>)
    requires Ok(s.cache, capacity) && 0 < capacity && Enabled(s, a)
    ensures var n := Next(s, capacity, a);
            match a
            case StartGet(t, k) => n.cache == s.cache && (At(n, t).Touching? <==> k in s.cache.entries) && (At(n, t).Touching? ==> At(n, t).key == k && At(n, t).value == s.cache.entries[k])
            case StartDelete(t, k) => n.cache == s.cache && At(n, t) == if k in s.cache.entries then Deleting(k) else Idle
            case FinishGet(t) => n.cache.entries == s.cache.entries && At(n, t).Idle?
            case FinishDelete(t) => n.cache.entries == s.cache.entries - {At(s, t).key} && At(n, t).Idle?
            case DoPut(t, k, v) => k in n.cache.entries && n.cache.entries[k] == v && n.threads == s.threads
            case DoClear(t) => n.cache.entries == map[] && n.threads == s.threads
  {
    match a
    case StartGet(t, k) => assert k in s.cache.entries ==> KeyOk(s.cache, k);
    case _ =>
  }

  // ------------------------------------------------------------- linearisation

  /** The call that a step performs on the cache, if it performs one: finishing
      a `Get` counts only if the element is still in the list. */
  ghost function Effect<K, V>(s: System<K, V>, a: Action<K, V>): seq<Op<K, V>>
    requires Enabled(s, a)
  {
    match a
    case FinishGet(t) => if At(s, t).element in s.cache.order then [Get(At(s, t).element.key)] else []
    case DoPut(t, k, v) => [Put(k, v)]
    case FinishDelete(t) => [Delete(At(s, t).key)]
    case DoClear(t) => [Clear]
    case _ => []
  }

  ghost function Linear<K, V>(capacity: nat, actions: seq<Action<K, V>>): seq<Op<K, V>>
    requires Interleaving(capacity, actions)
  {
    if actions == [] then []
    else Linear(capacity, actions[..|actions| - 1]) + Effect(Reached(capacity, actions[..|actions| - 1]), actions[|actions| - 1])
  }

  lemma EffectIsSequential<K, V>(s: System<K, V>, capacity: nat, a: Action<K, V>, ops: seq<Op<K, V>>)
    requires Ok(s.cache, capacity) && Enabled(s, a) && s.cache == After(capacity, ops)
    ensures Next(s, capacity, a).cache == After(capacity, ops + Effect(s, a))
  {
    var effect := Effect(s, a);
    if effect == [] {
      assert ops + effect == ops;
    } else {
      assert (ops + effect)[..|ops + effect| - 1] == ops;
      if a.FinishGet? {
        var e := At(s, a.thread).element;
        assert ElementOk(s.cache, e);
        assert KeyOk(s.cache, e.key);
      }
    }
  }

  /** Every interleaving leaves the contents of the cache as some sequence of
      whole calls would: the representation survives, and stale elements change
      nothing. What the calls return is the subject of the lemmas below. */
  lemma {:induction false} ContentsAreSequential<K, V>(capacity: nat, actions: seq<Action<K, V>>)
    requires 0 < capacity && Interleaving(capacity, actions)
    ensures Reached(capacity, actions).cache == After(capacity, Linear(capacity, actions))
    ensures Ok(Reached(capacity, actions).cache, capacity)
  {
    if actions != [] {
      var before := actions[..|actions| - 1];
      ContentsAreSequential(capacity, before);
      EffectIsSequential(Reached(capacity, before), capacity, actions[|actions| - 1], Linear(capacity, before));
    }
    AfterIsOk(capacity, Linear(capacity, actions));
  }

  // ------------------------------------------------------------ stale elements

  /** An element that has left the list never comes back: keys that are stored
      again get a new element. */
  lemma StaleStaysStale<K, V>(s: System<K, V>, capacity: nat, a: Action<K, V>, e: Element<K>)
    requires Ok(s.cache, capacity) && Enabled(s, a) && e.id < s.cache.nextId && e !in s.cache.order
    ensures e !in Next(s, capacity, a).cache.order && e.id < Next(s, capacity, a).cache.nextId
  {
    match a
    case FinishGet(t) =>
      WithoutProperties(s.cache.order, At(s, t).element);
    case DoPut(t, k, v) =>
      if k in s.cache.entries {
        assert KeyOk(s.cache, k);
        WithoutProperties(s.cache.order, s.cache.elements[k]);
      } else if |s.cache.order| == capacity && 0 < capacity {
        WithoutProperties(s.cache.order, s.cache.order[|s.cache.order| - 1]);
      }
    case FinishDelete(t) =>
      var k := At(s, t).key;
      if k in s.cache.elements {
        WithoutProperties(s.cache.order, s.cache.elements[k]);
      }
    case _ =>
  }

  // ---------------------------------------------------------------- hit values

  lemma PendingComesFrom<K, V>(s: System<K, V>, capacity: nat, a: Action<K, V>, t: Thread)
    requires Enabled(s, a) && At(Next(s, capacity, a), t).Touching?
    ensures a.thread != t ==> At(s, t) == At(Next(s, capacity, a), t)
    ensures a.thread == t ==>
              var p := At(Next(s, capacity, a), t);
              a == StartGet(t, p.key) && Holds(s.cache, p)
  {
  }

  /** Step `j` is where the thread read what it holds, its last step so far. */
  ghost predicate ReadAt<K, V>(capacity: nat, actions: seq<Action<K, V>>, t: Thread, p: Pending<K, V>, j: nat)
    requires p.Touching?
  {
    && j < |actions| && actions[j] == StartGet(t, p.key) && Interleaving(capacity, actions[..j])
    && Holds(Reached(capacity, actions[..j]).cache, p)
    && forall l :: j < l < |actions| ==> actions[l].thread != t
  }

  ghost predicate Holds<K, V>(c: Rep<K, V>, p: Pending<K, V>)
    requires p.Touching?
  {
    p.key in c.entries && c.entries[p.key] == p.value && p.key in c.elements && c.elements[p.key] == p.element
  }

  lemma ReadEarlier<K, V>(capacity: nat, actions: seq<Action<K, V>>, t: Thread, p: Pending<K, V>, j: nat)
    requires p.Touching? && actions != [] && actions[|actions| - 1].thread != t && ReadAt(capacity, actions[..|actions| - 1], t, p, j)
    ensures ReadAt(capacity, actions, t, p, j)
  {
    assert actions[..|actions| - 1][..j] == actions[..j];
  }

  /** A pending `Get` holds the value that was stored when it read the cache. */
  lemma {:induction false} ReadStep<K, V>(capacity: nat, actions: seq<Action<K, V>>, t: Thread) returns (j: nat)
    requires Interleaving(capacity, actions) && At(Reached(capacity, actions), t).Touching?
    ensures ReadAt(capacity, actions, t, At(Reached(capacity, actions), t), j)
  {
    var before, a := actions[..|actions| - 1], actions[|actions| - 1];
    PendingComesFrom(Reached(capacity, before), capacity, a, t);
    if a.thread == t {
      j := |actions| - 1;
    } else {
      j := ReadStep(capacity, before, t);
      ReadEarlier(capacity, actions, t, At(Reached(capacity, actions), t), j);
    }
  }

  /** What a read step finds is what the map cache would hold. */
  lemma ReadAgreesWithMap<K, V>(capacity: nat, actions: seq<Action<K, V>>, k: K)
    requires 0 < capacity && Interleaving(capacity, actions) && k in Reached(capacity, actions).cache.entries
    ensures k in MapAfter(Linear(capacity, actions))
    ensures MapAfter(Linear(capacity, actions))[k] == Reached(capacity, actions).cache.entries[k]
  {
    ContentsAreSequential(capacity, actions);
    HitsAgree(capacity, Linear(capacity, actions), k);
  }

  /** The value a `Get` returns when it finishes. */
  function Returned<K, V>(s: System<K, V>, t: Thread): V
    requires Enabled(s, FinishGet(t))
  {
    At(s, t).value
  }

  /** A hit returns the value held at its own read step `j`, which is what the
      map cache would have returned after the calls performed before `j`. */
  lemma HitReturnsValueRead<K, V>(capacity: nat, actions: seq<Action<K, V>>, t: Thread) returns (j: nat)
    requires 0 < capacity && Interleaving(capacity, actions) && Enabled(Reached(capacity, actions), FinishGet(t))
    ensures j < |actions| && actions[j].StartGet? && actions[j].thread == t
    ensures forall l :: j < l < |actions| ==> actions[l].thread != t
    ensures Interleaving(capacity, actions[..j])
    ensures var m := MapAfter(Linear(capacity, actions[..j]));
            actions[j].key in m && m[actions[j].key] == Returned(Reached(capacity, actions), t)
  {
    j := ReadStep(capacity, actions, t);
    ReadAgreesWithMap(capacity, actions[..j], actions[j].key);
  }

  // ------------------------------------------------- when a split `Get` is whole

  /** The value last put under the key in these steps, if any. */
  function LastPut<K(==), V>(actions: seq<Action<K, V>>, k: K): Option<V> {
    if actions == [] then None
    else
      var a := actions[|actions| - 1];
      if a.DoPut? && a.key == k then Some(a.value) else LastPut(actions[..|actions| - 1], k)
  }

  /** A key that is resident after a step was put by it, or was resident before
      with the same value. */
  lemma KeyStep<K, V>(s: System<K, V>, capacity: nat, a: Action<K, V>, k: K)
    requires Enabled(s, a) && k in Next(s, capacity, a).cache.entries
    ensures var v := Next(s, capacity, a).cache.entries[k];
            if a.DoPut? && a.key == k then v == a.value else k in s.cache.entries && v == s.cache.entries[k]
  {
  }

  lemma LastPutStep<K, V>(actions: seq<Action<K, V>>, j: nat, k: K)
    requires j < |actions|
    ensures var a := actions[|actions| - 1];
            LastPut(actions[j..], k) == if a.DoPut? && a.key == k then Some(a.value) else LastPut(actions[..|actions| - 1][j..], k)
  {
    assert actions[j..][..|actions[j..]| - 1] == actions[..|actions| - 1][j..];
  }

  /** A resident key has the value last put since step `j`, or else the one it had
      there. */
  lemma {:induction false} ValueSince<K, V>(capacity: nat, actions: seq<Action<K, V>>, j: nat, k: K)
    requires Interleaving(capacity, actions) && j <= |actions| && Interleaving(capacity, actions[..j])
    requires k in Reached(capacity, actions).cache.entries
    ensures var v, put := Reached(capacity, actions).cache.entries[k], LastPut(actions[j..], k);
            if put.Some? then v == put.value
            else k in Reached(capacity, actions[..j]).cache.entries && v == Reached(capacity, actions[..j]).cache.entries[k]
    decreases |actions|
  {
    if j == |actions| {
      assert actions[..j] == actions && actions[j..] == [];
    } else {
      var before, a := actions[..|actions| - 1], actions[|actions| - 1];
      assert before[..j] == actions[..j];
      KeyStep(Reached(capacity, before), capacity, a, k);
      LastPutStep(actions, j, k);
      if !(a.DoPut? && a.key == k) {
        ValueSince(capacity, before, j, k);
      }
    }
  }

  /** A split `Get`, current or stale, returns what a whole `Get` would where it
      finishes, if and only if the key is still resident and the last `Put` of it
      since the read step, if there was one, stored the very value that was read.
      It takes effect as a `Get` of its key, or not at all once its element has
      left the list. */
  lemma SplitGetIsWhole<K, V>(capacity: nat, actions: seq<Action<K, V>>, t: Thread) returns (j: nat)
    requires 0 < capacity && Interleaving(capacity, actions) && Enabled(Reached(capacity, actions), FinishGet(t))
    ensures j < |actions| && actions[j].StartGet? && actions[j].thread == t
    ensures forall l :: j < l < |actions| ==> actions[l].thread != t
    ensures var s, k := Reached(capacity, actions), actions[j].key;
            var put := LastPut(actions[j..], k);
            && (Lookup(s.cache.entries, k) == Some(Returned(s, t)) <==>
                  k in s.cache.entries && (put.None? || put.value == Returned(s, t)))
            && Effect(s, FinishGet(t)) == if At(s, t).element in s.cache.order then [Get(k)] else []
  {
    j := ReadStep(capacity, actions, t);
    var s, p := Reached(capacity, actions), At(Reached(capacity, actions), t);
    ContentsAreSequential(capacity, actions[..j]);
    assert KeyOk(Reached(capacity, actions[..j]).cache, p.key);
    if p.key in s.cache.entries {
      ValueSince(capacity, actions, j, p.key);
    }
  }

  lemma Extend<K, V>(capacity: nat, actions: seq<Action<K, V>>, a: Action<K, V>)
    requires Interleaving(capacity, actions) && Enabled(Reached(capacity, actions), a)
    ensures Interleaving(capacity, actions + [a])
    ensures Reached(capacity, actions + [a]) == Next(Reached(capacity, actions), capacity, a)
  {
    assert (actions + [a])[..|actions|] == actions;
  }

  /** A `Put` of another value between the two halves: the `Get` returns the old
      value, takes effect, and the entry has the new one. */
  lemma SplitGetReturnsOldValue<K, V>(capacity: nat, k: K, before: V, after: V)
    requires 0 < capacity && before != after
    ensures var actions := [DoPut(1, k, before)] + [StartGet(0, k)] + [DoPut(1, k, after)];
            && Interleaving(capacity, actions) && Enabled(Reached(capacity, actions), FinishGet(0))
            && Returned(Reached(capacity, actions), 0) == before
            && Effect(Reached(capacity, actions), FinishGet(0)) == [Get(k)]
            && Lookup(Reached(capacity, actions).cache.entries, k) == Some(after)
  {
    var a, b, c := DoPut(1, k, before), StartGet(0, k), DoPut(1, k, after);
    assert Interleaving<K, V>(capacity, []);
    Extend(capacity, [], a);
    assert [] + [a] == [a];
    Extend(capacity, [a], b);
    Extend(capacity, [a] + [b], c);
    var e := Element(0, k);
    assert Reached(capacity, [a]).cache == Rep(map[k := before], map[k := e], [e], 1);
  }

  /** A stale one: the key was deleted in between, and the `Get` still returns what
      it had read, without any effect. */
  lemma StaleGetReturnsDeletedValue<K, V>(capacity: nat, k: K, v: V)
    requires 0 < capacity
    ensures var actions := [DoPut(1, k, v)] + [StartGet(0, k)] + [StartDelete(1, k)] + [FinishDelete(1)];
            && Interleaving(capacity, actions) && Enabled(Reached(capacity, actions), FinishGet(0))
            && Returned(Reached(capacity, actions), 0) == v
            && Effect(Reached(capacity, actions), FinishGet(0)) == []
            && Lookup(Reached(capacity, actions).cache.entries, k) == None
  {
    var a, b, c, d := DoPut(1, k, v), StartGet(0, k), StartDelete(1, k), FinishDelete(1);
    assert Interleaving<K, V>(capacity, []);
    Extend(capacity, [], a);
    assert [] + [a] == [a];
    Extend(capacity, [a], b);
    Extend(capacity, [a] + [b], c);
    Extend(capacity, [a] + [b] + [c], d);
    var e := Element(0, k);
    assert Reached(capacity, [a]).cache == Rep(map[k := v], map[k := e], [e], 1);
    assert Without([e], e) == [];
  }
}
