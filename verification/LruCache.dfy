/** The LRU cache: a map of entries, a map from keys to list elements, and a
    list of elements from most to least recently used. */
module LruCache {
  import opened Wrappers
  import opened Sequences

  /** A list element. `id` is its identity: elements are never re-used. */
  datatype Element<K> = Element(id: nat, key: K)

  datatype Rep<K, V> = Rep(entries: map<K, V>, elements: map<K, Element<K>>, order: seq<Element<K>>, nextId: nat)

  function Empty<K, V>(): Rep<K, V> {
    Rep(map[], map[], [], 0)
  }

  // --------------------------------------------------------------- list library

  /** Moving an element that is not in the list does nothing. */
  function MovedToFront<T(==)>(s: seq<T>, x: T): seq<T> {
    if x in s then [x] + Without(s, x) else s
  }

  // ------------------------------------------------------------ representation

  ghost predicate ElementOk<K, V>(c: Rep<K, V>, e: Element<K>) {
    e.key in c.elements && c.elements[e.key] == e && e.id < c.nextId
  }

  ghost predicate KeyOk<K, V>(c: Rep<K, V>, k: K) {
    k in c.entries && k in c.elements && c.elements[k] in c.order && c.elements[k].key == k
  }

  /** List, element map and entries hold the same keys, each once, and no more
      than the capacity. */
  ghost predicate Ok<K, V>(c: Rep<K, V>, capacity: nat) {
    && |c.order| <= capacity
    && Distinct(c.order)
    && (forall e {:trigger ElementOk(c, e)} :: e in c.order ==> ElementOk(c, e))
    && (forall k {:trigger KeyOk(c, k)} :: k in c.entries ==> KeyOk(c, k))
    && (forall k {:trigger KeyOk(c, k)} :: k in c.elements ==> KeyOk(c, k))
  }

  // ---------------------------------------------------------------- operations

  /** The second half of `Get`: the element read earlier, current or not. */
  function Touched<K, V>(c: Rep<K, V>, e: Element<K>): Rep<K, V> {
    c.(order := MovedToFront(c.order, e))
  }

  function Got<K, V>(c: Rep<K, V>, k: K): Rep<K, V> {
    if k in c.entries && k in c.elements then Touched(c, c.elements[k]) else c
  }

  function Evicted<K, V>(c: Rep<K, V>, capacity: nat): Rep<K, V> {
    if |c.order| == capacity && 0 < capacity then
      var e := c.order[|c.order| - 1];
      Rep(c.entries - {e.key}, c.elements - {e.key}, Without(c.order, e), c.nextId)
    else c
  }

  function Added<K, V>(c: Rep<K, V>, k: K, v: V): Rep<K, V> {
    var e := Element(c.nextId, k);
    Rep(c.entries[k := v], c.elements[k := e], [e] + c.order, c.nextId + 1)
  }

  function Stored<K, V>(c: Rep<K, V>, capacity: nat, k: K, v: V): Rep<K, V> {
    if k in c.entries then Got(c, k).(entries := c.entries[k := v])
    else Added(Evicted(c, capacity), k, v)
  }

  /** The second half of `Delete`, whatever happened since the first. */
  function Deleted<K, V>(c: Rep<K, V>, k: K): Rep<K, V> {
    if k in c.elements then Rep(c.entries - {k}, c.elements - {k}, Without(c.order, c.elements[k]), c.nextId)
    else c.(entries := c.entries - {k})
  }

  function Cleared<K, V>(c: Rep<K, V>): Rep<K, V> {
    Rep(map[], map[], [], c.nextId)
  }

  lemma TouchedKeepsOk<K, V>(c: Rep<K, V>, capacity: nat, e: Element<K>)
    requires Ok(c, capacity)
    ensures Ok(Touched(c, e), capacity)
  {
    WithoutProperties(c.order, e);
    var d := Touched(c, e);
    assert forall f :: f in d.order <==> f in c.order;
    forall f | f in d.order ensures ElementOk(d, f) {
      assert ElementOk(c, f);
    }
    forall k | k in d.entries.Keys + d.elements.Keys ensures KeyOk(d, k) {
      assert KeyOk(c, k);
    }
  }

  lemma DeletedKeepsOk<K, V>(c: Rep<K, V>, capacity: nat, k: K)
    requires Ok(c, capacity)
    ensures Ok(Deleted(c, k), capacity)
  {
    assert k in c.entries || k in c.elements ==> KeyOk(c, k);
    if k in c.elements {
      var d := Deleted(c, k);
      WithoutProperties(c.order, c.elements[k]);
      forall f | f in d.order ensures ElementOk(d, f) {
        assert ElementOk(c, f);
      }
      forall l | l in d.entries.Keys + d.elements.Keys ensures KeyOk(d, l) {
        assert KeyOk(c, l);
      }
    } else {
      assert Deleted(c, k) == c;
    }
  }

  lemma EvictedIsDeleted<K, V>(c: Rep<K, V>, capacity: nat)
    requires Ok(c, capacity) && |c.order| == capacity && 0 < capacity
    ensures Evicted(c, capacity) == Deleted(c, c.order[|c.order| - 1].key)
    ensures |Evicted(c, capacity).order| == capacity - 1
  {
    assert ElementOk(c, c.order[|c.order| - 1]);
    WithoutProperties(c.order, c.order[|c.order| - 1]);
  }

  lemma AddedKeepsOk<K, V>(c: Rep<K, V>, capacity: nat, k: K, v: V)
    requires Ok(c, capacity) && |c.order| < capacity && k !in c.entries
    ensures Ok(Added(c, k, v), capacity)
  {
    var d := Added(c, k, v);
    forall f | f in c.order ensures ElementOk(c, f) && f.key != k {
      assert ElementOk(c, f);
      assert KeyOk(c, f.key);
    }
    forall f | f in d.order ensures ElementOk(d, f) {
    }
    forall l | l in d.entries.Keys + d.elements.Keys ensures KeyOk(d, l) {
      assert l != k ==> KeyOk(c, l);
    }
  }

  lemma StoredKeepsOk<K, V>(c: Rep<K, V>, capacity: nat, k: K, v: V)
    requires Ok(c, capacity) && 0 < capacity
    ensures Ok(Stored(c, capacity, k, v), capacity)
  {
    if k in c.entries {
      assert KeyOk(c, k);
      TouchedKeepsOk(c, capacity, c.elements[k]);
      var d := Got(c, k);
      var e := Stored(c, capacity, k, v);
      forall f | f in e.order ensures ElementOk(e, f) {
        assert ElementOk(d, f);
      }
      forall l | l in e.entries.Keys + e.elements.Keys ensures KeyOk(e, l) {
        assert KeyOk(d, l);
      }
    } else {
      if |c.order| == capacity {
        EvictedIsDeleted(c, capacity);
        DeletedKeepsOk(c, capacity, c.order[|c.order| - 1].key);
      }
      AddedKeepsOk(Evicted(c, capacity), capacity, k, v);
    }
  }

  ghost predicate Linked<K>(order: seq<Element<K>>, elements: map<K, Element<K>>) {
    Distinct(order) && forall e :: e in order ==> e.key in elements && elements[e.key] == e
  }

  lemma DropKeepsLinked<K>(order: seq<Element<K>>, elements: map<K, Element<K>>, k: K)
    requires Linked(order, elements) && k in elements
    ensures Linked(Without(order, elements[k]), elements - {k})
  {
    WithoutProperties(order, elements[k]);
  }

  lemma LinkedNotEmpty<K>(order: seq<Element<K>>, elements: map<K, Element<K>>)
    requires Linked(order, elements)
    ensures order != [] ==> elements.Keys != {}
  {
    if order != [] {
      assert order[0] in order;
    }
  }

  // ----------------------------------------------------------------- the class

  class Cache<K(==), V> {
    const capacity: nat
    var entries: map<K, V>
    var lruElements: map<K, Element<K>>
    var lruKeys: seq<Element<K>>
    var nextId: nat

    ghost function View(): Rep<K, V>
      reads this
    {
      Rep(entries, lruElements, lruKeys, nextId)
    }

    ghost predicate Valid()
      reads this
    {
      0 < capacity && Ok(View(), capacity)
    }

    constructor (capacity: nat)
      requires 0 < capacity
      ensures Valid() && View() == Empty() && this.capacity == capacity
    {
      this.capacity := capacity;
      entries, lruElements, lruKeys, nextId := map[], map[], [], 0;
    }

    method MoveToFront(e: Element<K>)
      modifies this`lruKeys
      ensures View() == Touched(old(View()), e)
    {
      if e in lruKeys {
        lruKeys := [e] + Without(lruKeys, e);
      }
    }

    /** Under the read lock: the value and the element to move, if any. */
    method Lookup(key: K) returns (hit: Option<(V, Element<K>)>)
      requires Valid()
      ensures hit.Some? <==> key in entries
      ensures hit.Some? ==> key in lruElements && hit.value == (entries[key], lruElements[key])
    {
      assert key in entries ==> KeyOk(View(), key);
      if key in entries && key in lruElements {
        return Some((entries[key], lruElements[key]));
      }
      return None;
    }

    method Get(key: K) returns (value: Option<V>)
      requires Valid()
      modifies this`lruKeys
      ensures Valid()
      ensures View() == Got(old(View()), key)
      ensures value == if key in old(entries) then Some(old(entries)[key]) else None
    {
      var hit := Lookup(key);
      if hit.None? {
        return None;
      }
      TouchedKeepsOk(View(), capacity, hit.value.1);
      MoveToFront(hit.value.1);
      return Some(hit.value.0);
    }

    method Put(key: K, value: V)
      requires Valid()
      modifies this
      ensures Valid()
      ensures View() == Stored(old(View()), capacity, key, value)
    {
      StoredKeepsOk(View(), capacity, key, value);
      assert key in entries ==> KeyOk(View(), key);
      if key !in entries {
        if |lruKeys| == capacity {
          var back := lruKeys[|lruKeys| - 1];
          lruKeys := Without(lruKeys, back);
          lruElements := lruElements - {back.key};
          entries := entries - {back.key};
        }
        var element := Element(nextId, key);
        nextId := nextId + 1;
        lruKeys := [element] + lruKeys;
        lruElements := lruElements[key := element];
      } else if key in lruElements {
        MoveToFront(lruElements[key]);
      }
      entries := entries[key := value];
    }

    /** Under the write lock, whatever happened since the key was seen. */
    method Remove(key: K)
      requires Valid()
      modifies this
      ensures Valid()
      ensures View() == Deleted(old(View()), key)
    {
      DeletedKeepsOk(View(), capacity, key);
      if key in lruElements {
        var element := lruElements[key];
        lruElements := lruElements - {key};
        lruKeys := Without(lruKeys, element);
      }
      entries := entries - {key};
    }

    method Delete(key: K)
      requires Valid()
      modifies this
      ensures Valid()
      ensures View() == Deleted(old(View()), key)
    {
      assert key in lruElements ==> KeyOk(View(), key);
      if key in entries {
        Remove(key);
      }
    }

    method ClearElements()
      requires Linked(lruKeys, lruElements)
      modifies this`lruElements, this`lruKeys
      ensures lruElements == map[] && lruKeys == []
    {
      while lruElements.Keys != {}
        invariant Linked(lruKeys, lruElements)
        decreases |lruElements.Keys|
      {
        var key :| key in lruElements.Keys;
        var element := lruElements[key];
        DropKeepsLinked(lruKeys, lruElements, key);
        ghost var before := lruElements;
        lruElements := lruElements - {key};
        assert lruElements.Keys == before.Keys - {key};
        lruKeys := Without(lruKeys, element);
      }
      LinkedNotEmpty(lruKeys, lruElements);
    }

    method ClearEntries()
      modifies this`entries
      ensures entries == map[]
    {
      while entries.Keys != {}
        decreases |entries.Keys|
      {
        var key :| key in entries.Keys;
        ghost var before := entries;
        entries := entries - {key};
        assert entries.Keys == before.Keys - {key};
      }
    }

    method Clear()
      requires Valid()
      modifies this
      ensures Valid()
      ensures View() == Cleared(old(View()))
    {
      forall e | e in lruKeys ensures e.key in lruElements && lruElements[e.key] == e {
        assert ElementOk(View(), e);
      }
      ClearElements();
      ClearEntries();
    }

    method ToMap() returns (copied: map<K, V>)
      ensures copied == entries
    {
      copied := map[];
      var pending := entries.Keys;
      while pending != {}
        invariant pending <= entries.Keys
        invariant copied.Keys == entries.Keys - pending
        invariant forall k :: k in copied ==> copied[k] == entries[k]
        decreases |pending|
      {
        var key :| key in pending;
        copied := copied[key := entries[key]];
        pending := pending - {key};
      }
    }
  }

  /** Refuses a capacity that is not positive. */
  method NewLRUCache<K(==), V>(capacity: int) returns (c: Cache?<K, V>)
    ensures c == null <==> capacity <= 0
    ensures c != null ==> fresh(c) && c.Valid() && c.capacity == capacity && c.View() == Empty()
  {
    if capacity <= 0 {
      return null;
    }
    c := new Cache(capacity);
  }
}
