/** The LRU cache over whole histories of calls, against two references: the
    plain map cache, and the order of last use. */
module LruHistory {
  import opened LruCache
  import opened Wrappers
  import opened Sequences

  datatype Op<K, V> = Get(key: K) | Put(key: K, value: V) | Delete(key: K) | Clear

  function Apply<K, V>(c: Rep<K, V>, capacity: nat, op: Op<K, V>): Rep<K, V> {
    match op
    case Get(k) => Got(c, k)
    case Put(k, v) => Stored(c, capacity, k, v)
    case Delete(k) => Deleted(c, k)
    case Clear => Cleared(c)
  }

  function After<K, V>(capacity: nat, ops: seq<Op<K, V>>): Rep<K, V> {
    if ops == [] then Empty() else Apply(After(capacity, ops[..|ops| - 1]), capacity, ops[|ops| - 1])
  }

  lemma {:induction false} AfterIsOk<K, V>(capacity: nat, ops: seq<Op<K, V>>)
    requires 0 < capacity
    ensures Ok(After(capacity, ops), capacity)
  {
    if ops != [] {
      var c := After(capacity, ops[..|ops| - 1]);
      AfterIsOk(capacity, ops[..|ops| - 1]);
      match ops[|ops| - 1]
      case Get(k) =>
        if k in c.entries && k in c.elements {
          TouchedKeepsOk(c, capacity, c.elements[k]);
        }
      case Put(k, v) => StoredKeepsOk(c, capacity, k, v);
      case Delete(k) => DeletedKeepsOk(c, capacity, k);
      case Clear =>
    }
  }

  // ------------------------------------------------------------- the map cache

  function MapApply<K, V>(m: map<K, V>, op: Op<K, V>): map<K, V> {
    match op
    case Get(k) => m
    case Put(k, v) => m[k := v]
    case Delete(k) => m - {k}
    case Clear => map[]
  }

  function MapAfter<K, V>(ops: seq<Op<K, V>>): map<K, V> {
    if ops == [] then map[] else MapApply(MapAfter(ops[..|ops| - 1]), ops[|ops| - 1])
  }

  function Lookup<K, V>(m: map<K, V>, k: K): Option<V> {
    if k in m then Some(m[k]) else None
  }

  /** The value of the last `Put` of the key, unless it was deleted since. */
  function LastStored<K(==), V>(ops: seq<Op<K, V>>, k: K): Option<V> {
    if ops == [] then None
    else
      match ops[|ops| - 1]
      case Put(l, v) => if l == k then Some(v) else LastStored(ops[..|ops| - 1], k)
      case Delete(l) => if l == k then None else LastStored(ops[..|ops| - 1], k)
      case Clear => None
      case Get(_) => LastStored(ops[..|ops| - 1], k)
  }

  lemma {:induction false} MapHoldsLastStored<K, V>(ops: seq<Op<K, V>>, k: K)
    ensures Lookup(MapAfter(ops), k) == LastStored(ops, k)
  {
    if ops != [] {
      MapHoldsLastStored(ops[..|ops| - 1], k);
    }
  }

  lemma MapAfterSnoc<K, V>(ops: seq<Op<K, V>>, op: Op<K, V>)
    ensures MapAfter(ops + [op]) == MapApply(MapAfter(ops), op)
  {
    assert (ops + [op])[..|ops|] == ops;
  }

  /** The plain map cache. Whatever calls it has had, `Get` returns what was last
      stored under the key. */
  class MapCache<K(==), V> {
    var entries: map<K, V>
    ghost var history: seq<Op<K, V>>

    ghost predicate Valid()
      reads this
    {
      entries == MapAfter(history)
    }

    constructor ()
      ensures Valid() && history == []
    {
      entries, history := map[], [];
    }

    method Get(key: K) returns (value: Option<V>)
      requires Valid()
      modifies this`history
      ensures Valid() && history == old(history) + [Op<K, V>.Get(key)]
      ensures value == LastStored(history, key)
    {
      value := if key in entries then Some(entries[key]) else None;
      Record(Op<K, V>.Get(key));
      MapHoldsLastStored(history, key);
    }

    method Put(key: K, value: V)
      requires Valid()
      modifies this
      ensures Valid() && history == old(history) + [Op<K, V>.Put(key, value)]
    {
      entries := entries[key := value];
      Record(Op<K, V>.Put(key, value));
    }

    method Delete(key: K)
      requires Valid()
      modifies this
      ensures Valid() && history == old(history) + [Op<K, V>.Delete(key)]
    {
      entries := entries - {key};
      Record(Op<K, V>.Delete(key));
    }

    method Clear()
      requires Valid()
      modifies this
      ensures Valid() && history == old(history) + [Op<K, V>.Clear]
    {
      while entries.Keys != {}
        invariant history == old(history)
        decreases |entries.Keys|
      {
        var key :| key in entries.Keys;
        ghost var before := entries;
        entries := entries - {key};
        assert entries.Keys == before.Keys - {key};
      }
      Record(Op<K, V>.Clear);
    }

    ghost method Record(op: Op<K, V>)
      requires entries == MapApply(MapAfter(history), op)
      modifies this`history
      ensures Valid() && history == old(history) + [op]
    {
      MapAfterSnoc(history, op);
      history := history + [op];
    }
  }

  /** What one call does to the entries: the same as to the map cache, except
      that storing a new key in a full cache first drops one other key. */
  lemma EntriesStep<K, V>(c: Rep<K, V>, capacity: nat, op: Op<K, V>) returns (dropped: set<K>)
    requires Ok(c, capacity) && 0 < capacity
    ensures Apply(c, capacity, op).entries == MapApply(c.entries - dropped, op)
    ensures dropped != {} ==> op.Put? && op.key !in c.entries && |c.order| == capacity
    ensures op.Put? ==> op.key !in dropped
  {
    dropped := {};
    match op
    case Put(k, v) =>
      if k !in c.entries && |c.order| == capacity {
        var e := c.order[|c.order| - 1];
        assert ElementOk(c, e);
        assert KeyOk(c, e.key);
        dropped := {e.key};
      }
    case Delete(k) =>
      assert k in c.elements ==> KeyOk(c, k);
    case _ =>
  }

  /** A hit always returns what the map cache would after the same calls: what
      was last stored under the key. */
  lemma {:induction false} HitsAgree<K, V>(capacity: nat, ops: seq<Op<K, V>>, k: K)
    requires 0 < capacity
    ensures k in After(capacity, ops).entries ==> k in MapAfter(ops) && MapAfter(ops)[k] == After(capacity, ops).entries[k]
    ensures k in After(capacity, ops).entries ==> LastStored(ops, k) == Some(After(capacity, ops).entries[k])
  {
    MapHoldsLastStored(ops, k);
    if ops != [] {
      AfterIsOk(capacity, ops[..|ops| - 1]);
      HitsAgree(capacity, ops[..|ops| - 1], k);
      var dropped := EntriesStep(After(capacity, ops[..|ops| - 1]), capacity, ops[|ops| - 1]);
    }
  }

  ghost predicate NeverAbove<K, V>(capacity: nat, ops: seq<Op<K, V>>) {
    forall i :: 0 <= i <= |ops| ==> |MapAfter(ops[..i])| <= capacity
  }

  lemma OrderCountsEntries<K, V>(c: Rep<K, V>, capacity: nat)
    requires Ok(c, capacity)
    ensures |c.order| == |c.entries|
  {
    var keys := seq(|c.order|, i requires 0 <= i < |c.order| => c.order[i].key);
    forall i | 0 <= i < |keys| ensures keys[i] in c.entries.Keys {
      assert c.order[i] in c.order;
      assert ElementOk(c, c.order[i]) && KeyOk(c, c.order[i].key);
    }
    forall i, j | 0 <= i < j < |keys| ensures keys[i] != keys[j] {
      assert c.order[i] in c.order && c.order[j] in c.order;
      assert ElementOk(c, c.order[i]) && ElementOk(c, c.order[j]);
    }
    forall k | k in c.entries.Keys ensures k in keys {
      assert KeyOk(c, k);
      var i :| 0 <= i < |c.order| && c.order[i] == c.elements[k];
      assert keys[i] == k;
    }
    Enumeration(keys, c.entries.Keys);
  }

  lemma {:induction false} Enumeration<T>(s: seq<T>, t: set<T>)
    requires Distinct(s) && forall x :: x in s <==> x in t
    ensures |s| == |t|
  {
    if s == [] {
      assert t == {};
    } else {
      assert s[0] in s;
      assert forall x :: x in s[1..] ==> x in s && x != s[0];
      assert forall x :: x in t - {s[0]} ==> x in s[1..];
      Enumeration(s[1..], t - {s[0]});
    }
  }

  /** As long as the map cache stays within the capacity the two caches hold the
      same entries, so they agree on every `Get`. */
  lemma {:induction false} SameWhileSmall<K, V>(capacity: nat, ops: seq<Op<K, V>>)
    requires 0 < capacity && NeverAbove(capacity, ops)
    ensures After(capacity, ops).entries == MapAfter(ops)
  {
    if ops != [] {
      var before, op := ops[..|ops| - 1], ops[|ops| - 1];
      assert forall i :: 0 <= i <= |before| ==> before[..i] == ops[..i];
      SameWhileSmall(capacity, before);
      AfterIsOk(capacity, before);
      var c := After(capacity, before);
      OrderCountsEntries(c, capacity);
      var dropped := EntriesStep(c, capacity, op);
      assert ops[..|ops|] == ops;
      if op.Put? && op.key !in c.entries {
        assert MapAfter(ops).Keys == c.entries.Keys + {op.key};
        assert |MapAfter(ops)| == |c.entries| + 1;
      }
      assert dropped == {};
      assert c.entries - dropped == c.entries;
    }
  }

  // ------------------------------------------------------------------- recency

  function KeysOf<K>(order: seq<Element<K>>): (keys: seq<K>)
    ensures |keys| == |order| && forall i :: 0 <= i < |order| ==> keys[i] == order[i].key
  {
    seq(|order|, i requires 0 <= i < |order| => order[i].key)
  }

  /** The keys in the order in which they were used: every `Put`, and every
      `Get` that hits. */
  function Uses<K(==), V>(capacity: nat, ops: seq<Op<K, V>>): seq<K> {
    if ops == [] then []
    else
      var op := ops[|ops| - 1];
      Uses(capacity, ops[..|ops| - 1]) +
      if op.Put? || (op.Get? && op.key in After(capacity, ops[..|ops| - 1]).entries) then [op.key] else []
  }

  /** The distinct keys of a sequence of uses, the last used one first. */
  function MostRecent<K(==)>(uses: seq<K>): seq<K> {
    if uses == [] then []
    else MovedOrAdded(MostRecent(uses[..|uses| - 1]), uses[|uses| - 1])
  }

  function MovedOrAdded<K(==)>(s: seq<K>, k: K): seq<K> {
    [k] + Without(s, k)
  }

  function Take<T>(s: seq<T>, n: nat): seq<T> {
    if |s| <= n then s else s[..n]
  }

  lemma {:induction false} MostRecentDistinct<K>(uses: seq<K>)
    ensures Distinct(MostRecent(uses))
    ensures forall k :: k in MostRecent(uses) <==> k in uses
  {
    if uses != [] {
      var before, k := uses[..|uses| - 1], uses[|uses| - 1];
      MostRecentDistinct(before);
      WithoutProperties(MostRecent(before), k);
      assert forall x :: x in uses <==> x == k || x in before;
      var rest := Without(MostRecent(before), k);
      assert forall i :: 0 <= i < |rest| ==> rest[i] in rest;
    }
  }

  lemma TakeHas<T>(s: seq<T>, n: nat)
    ensures forall i :: 0 <= i < |s| && i < n ==> s[i] in Take(s, n)
  {
    forall i | 0 <= i < |s| && i < n ensures s[i] in Take(s, n) {
      assert Take(s, n)[i] == s[i];
    }
  }

  lemma CutOut<T>(s: seq<T>, k: T, i: nat, n: nat)
    requires i < n <= |s|
    ensures ([k] + (s[..i] + s[i + 1..]))[..n] == [k] + (s[..n][..i] + s[..n][i + 1..])
  {
    var cut := s[..i] + s[i + 1..];
    assert cut[..n - 1] == s[..n][..i] + s[..n][i + 1..];
    assert ([k] + cut)[..n] == [k] + cut[..n - 1];
  }

  /** Using a key that is among the first `n` moves it to their front. */
  lemma TakeMoved<K>(s: seq<K>, k: K, n: nat)
    requires Distinct(s) && k in Take(s, n)
    ensures Take(MovedOrAdded(s, k), n) == MovedOrAdded(Take(s, n), k)
  {
    var i :| 0 <= i < |Take(s, n)| && Take(s, n)[i] == k;
    DistinctWithoutAt(s, i);
    if n < |s| {
      DistinctWithoutAt(s[..n], i);
      CutOut(s, k, i, n);
    }
  }

  /** Using a key that is not among them pushes the last one out. */
  lemma TakeAdded<K>(s: seq<K>, k: K, n: nat)
    requires Distinct(s) && k !in Take(s, n) && 0 < n
    ensures Take(MovedOrAdded(s, k), n) == [k] + Take(Take(s, n), n - 1)
  {
    if k in s {
      var i :| 0 <= i < |s| && s[i] == k;
      TakeHas(s, n);
      DistinctWithoutAt(s, i);
    } else {
      WithoutAbsent(s, k);
    }
  }

  lemma KeysOfOk<K, V>(c: Rep<K, V>, capacity: nat)
    requires Ok(c, capacity)
    ensures Distinct(KeysOf(c.order))
    ensures forall k :: k in KeysOf(c.order) <==> k in c.entries
  {
    forall i, j | 0 <= i < j < |c.order| ensures c.order[i].key != c.order[j].key {
      assert c.order[i] in c.order && c.order[j] in c.order;
      assert ElementOk(c, c.order[i]) && ElementOk(c, c.order[j]);
    }
    forall k | k in KeysOf(c.order) ensures k in c.entries {
      var i :| 0 <= i < |c.order| && c.order[i].key == k;
      assert c.order[i] in c.order;
      assert ElementOk(c, c.order[i]) && KeyOk(c, k);
    }
    forall k | k in c.entries ensures k in KeysOf(c.order) {
      assert KeyOk(c, k);
      var i :| 0 <= i < |c.order| && c.order[i] == c.elements[k];
      assert KeysOf(c.order)[i] == k;
    }
  }

  lemma {:induction false} KeysWithout<K>(order: seq<Element<K>>, e: Element<K>)
    requires Distinct(KeysOf(order)) && e in order
    ensures KeysOf(Without(order, e)) == Without(KeysOf(order), e.key)
  {
    var keys := KeysOf(order);
    assert KeysOf(order[1..]) == keys[1..];
    if order[0] != e {
      var i :| 0 <= i < |order| && order[i] == e;
      assert keys[0] != keys[i];
      KeysWithout(order[1..], e);
      assert KeysOf([order[0]] + Without(order[1..], e)) == [keys[0]] + KeysOf(Without(order[1..], e));
    }
  }

  lemma KeysAfterGet<K, V>(c: Rep<K, V>, capacity: nat, k: K)
    requires Ok(c, capacity) && k in c.entries
    ensures KeysOf(Got(c, k).order) == MovedOrAdded(KeysOf(c.order), k)
  {
    assert KeyOk(c, k);
    var e := c.elements[k];
    KeysOfOk(c, capacity);
    KeysWithout(c.order, e);
    assert KeysOf([e] + Without(c.order, e)) == [k] + KeysOf(Without(c.order, e));
  }

  lemma KeysAfterNewPut<K, V>(c: Rep<K, V>, capacity: nat, k: K, v: V)
    requires Ok(c, capacity) && 0 < capacity && k !in c.entries
    ensures KeysOf(Stored(c, capacity, k, v).order) == [k] + Take(KeysOf(c.order), capacity - 1)
  {
    if |c.order| == capacity {
      DistinctWithoutAt(c.order, capacity - 1);
    }
  }

  /** What each call does to the recency order, for every history: a hit or a `Put`
      of a resident key moves it to the front, a new key goes to the front and
      pushes the last one out of a full cache, a `Delete` takes only its own key
      out, and `Clear` empties it. */
  lemma OrderStep<K, V>(c: Rep<K, V>, capacity: nat, op: Op<K, V>)
    requires Ok(c, capacity) && 0 < capacity
    ensures var before, after := KeysOf(c.order), KeysOf(Apply(c, capacity, op).order);
            match op
            case Get(k) => after == if k in c.entries then [k] + Without(before, k) else before
            case Put(k, v) => after == if k in c.entries then [k] + Without(before, k) else [k] + Take(before, capacity - 1)
            case Delete(k) => after == Without(before, k)
            case Clear => after == []
  {
    KeysOfOk(c, capacity);
    match op
    case Get(k) =>
      if k in c.entries {
        KeysAfterGet(c, capacity, k);
      }
    case Put(k, v) =>
      if k in c.entries {
        KeysAfterGet(c, capacity, k);
      } else {
        KeysAfterNewPut(c, capacity, k, v);
      }
    case Delete(k) =>
      if k in c.elements {
        assert KeyOk(c, k);
        KeysWithout(c.order, c.elements[k]);
      } else {
        assert k in c.entries ==> KeyOk(c, k);
        WithoutAbsent(KeysOf(c.order), k);
      }
    case Clear =>
  }

  /** Without deletions, the cache holds exactly the most recently used keys, in
      the order of their last use. */
  lemma {:induction false} HoldsMostRecent<K, V>(capacity: nat, ops: seq<Op<K, V>>)
    requires 0 < capacity && forall op :: op in ops ==> op.Get? || op.Put?
    ensures KeysOf(After(capacity, ops).order) == Take(MostRecent(Uses(capacity, ops)), capacity)
  {
    if ops != [] {
      var before, op := ops[..|ops| - 1], ops[|ops| - 1];
      assert op in ops;
      var c, used := After(capacity, before), Uses(capacity, before);
      HoldsMostRecent(capacity, before);
      AfterIsOk(capacity, before);
      KeysOfOk(c, capacity);
      MostRecentDistinct(used);
      assert used + [] == used;
      if op.Put? || op.key in c.entries {
        assert (used + [op.key])[..|used|] == used;
        if op.key in c.entries {
          KeysAfterGet(c, capacity, op.key);
          TakeMoved(MostRecent(used), op.key, capacity);
        } else {
          KeysAfterNewPut(c, capacity, op.key, op.value);
          TakeAdded(MostRecent(used), op.key, capacity);
        }
      }
    }
  }

  function Members<K>(s: seq<K>): set<K> {
    set k | k in s
  }

  lemma MembersConcat<K>(s: seq<K>, t: seq<K>)
    ensures Members(s + t) == Members(s) + Members(t)
  {
  }

  /** Moving the element at `j` to the front of a list shifts the earlier ones. */
  lemma FrontBefore<K>(s: seq<K>, j: nat, p: nat)
    requires j < |s| && 0 < p <= j
    ensures ([s[j]] + (s[..j] + s[j + 1..]))[p] == s[p - 1]
    ensures Members(([s[j]] + (s[..j] + s[j + 1..]))[..p]) == Members(s[..p - 1]) + {s[j]}
  {
    assert ([s[j]] + (s[..j] + s[j + 1..]))[..p] == [s[j]] + s[..p - 1];
    MembersConcat([s[j]], s[..p - 1]);
  }

  lemma FrontBehind<K>(s: seq<K>, j: nat, p: nat)
    requires j < p < |s|
    ensures ([s[j]] + (s[..j] + s[j + 1..]))[p] == s[p]
    ensures Members(([s[j]] + (s[..j] + s[j + 1..]))[..p]) == Members(s[..p]) + {s[j]}
  {
    assert ([s[j]] + (s[..j] + s[j + 1..]))[..p] == [s[j]] + (s[..j] + s[j + 1..p]);
    assert s[..p] == s[..j] + ([s[j]] + s[j + 1..p]);
    MembersConcat([s[j]], s[..j] + s[j + 1..p]);
    MembersConcat(s[..j], s[j + 1..p]);
    MembersConcat(s[..j], [s[j]] + s[j + 1..p]);
    MembersConcat([s[j]], s[j + 1..p]);
  }

  /** The keys before position `p` once `k` has been used: `k` itself and those
      before the old position `q` of the same key. */
  lemma FrontAfterUse<K>(s: seq<K>, k: K, p: nat) returns (q: nat)
    requires Distinct(s) && 0 < p < |MovedOrAdded(s, k)|
    ensures q < |s| && MovedOrAdded(s, k)[p] == s[q]
    ensures Members(MovedOrAdded(s, k)[..p]) == Members(s[..q]) + {k}
  {
    if k in s {
      var j :| 0 <= j < |s| && s[j] == k;
      DistinctWithoutAt(s, j);
      if p <= j {
        FrontBefore(s, j, p);
        return p - 1;
      }
      FrontBehind(s, j, p);
      return p;
    }
    WithoutAbsent(s, k);
    assert MovedOrAdded(s, k)[..p] == [k] + s[..p - 1];
    MembersConcat([k], s[..p - 1]);
    return p - 1;
  }

  /** Position `p` in the recency order is held by the key whose last use is
      followed by uses of exactly the `p` keys before it. */
  lemma {:induction false} RecencyRank<K>(uses: seq<K>, p: nat) returns (i: nat)
    requires p < |MostRecent(uses)|
    ensures i < |uses| && uses[i] == MostRecent(uses)[p] && uses[i] !in uses[i + 1..]
    ensures Members(uses[i + 1..]) == Members(MostRecent(uses)[..p])
  {
    if p == 0 {
      return |uses| - 1;
    }
    var before, k := uses[..|uses| - 1], uses[|uses| - 1];
    MostRecentDistinct(before);
    MostRecentDistinct(uses);
    var q := FrontAfterUse(MostRecent(before), k, p);
    i := RecencyRank(before, q);
    assert uses[i + 1..] == before[i + 1..] + [k];
    MembersConcat(before[i + 1..], [k]);
    assert MostRecent(uses)[0] == k;
  }

  /** A key is resident exactly when, since some use of it, no more than
      `capacity` different keys were used, itself included. */
  lemma ResidentIffRecent<K, V>(capacity: nat, ops: seq<Op<K, V>>, k: K)
    requires 0 < capacity && forall op :: op in ops ==> op.Get? || op.Put?
    ensures var uses := Uses(capacity, ops);
            k in After(capacity, ops).entries <==>
            exists i :: 0 <= i < |uses| && uses[i] == k && |Members(uses[i..])| <= capacity
  {
    var uses := Uses(capacity, ops);
    HoldsMostRecent(capacity, ops);
    AfterIsOk(capacity, ops);
    KeysOfOk(After(capacity, ops), capacity);
    MostRecentDistinct(uses);
    if k in uses {
      var p :| 0 <= p < |MostRecent(uses)| && MostRecent(uses)[p] == k;
      var i := RecencyRank(uses, p);
      RankedMembers(uses, p, i);
      forall j | 0 <= j < |uses| && uses[j] == k ensures |Members(uses[j..])| >= p + 1 {
        assert j <= i;
        assert Members(uses[i..]) <= Members(uses[j..]);
        SubsetSize(Members(uses[i..]), Members(uses[j..]));
      }
      assert p < capacity ==> |Members(uses[i..])| <= capacity;
    }
    assert k in Take(MostRecent(uses), capacity) <==> exists q :: 0 <= q < |MostRecent(uses)| && q < capacity && MostRecent(uses)[q] == k;
  }

  lemma RankedMembers<K>(uses: seq<K>, p: nat, i: nat)
    requires p < |MostRecent(uses)| && i < |uses| && uses[i] == MostRecent(uses)[p] && uses[i] !in uses[i + 1..]
    requires Members(uses[i + 1..]) == Members(MostRecent(uses)[..p])
    ensures |Members(uses[i..])| == p + 1
  {
    MostRecentDistinct(uses);
    var front := MostRecent(uses)[..p];
    Enumeration(front, Members(front));
    assert Members(uses[i..]) == Members(uses[i + 1..]) + {uses[i]} by {
      assert uses[i..] == [uses[i]] + uses[i + 1..];
    }
  }

  lemma SubsetSize<T>(s: set<T>, t: set<T>)
    requires s <= t
    ensures |s| <= |t|
  {
    assert t == s + (t - s);
  }
}
