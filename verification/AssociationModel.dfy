/** The three association indexes of the mock Schema Registry client as a value:
    lists by subject, lists by resource, and one entry per (resource, resource
    type, association type). */
module AssociationModel {
  import opened Sequences

  datatype LifecyclePolicy = STRONG | WEAK | NoLifecycle | UnknownLifecycle(name: string)
  datatype ResourceType = Topic | NoResourceType | OtherResourceType(name: string)
  datatype AssociationType = Key | Value | NoAssociationType | OtherAssociationType(name: string)

  datatype Association = Association(
    subject: string,
    guid: nat,
    resourceName: string,
    resourceNamespace: string,
    resourceID: string,
    resourceType: ResourceType,
    associationType: AssociationType,
    lifecycle: LifecyclePolicy,
    frozen: bool)

  datatype ResourceKey = ResourceKey(resourceID: string, resourceType: ResourceType, associationType: AssociationType)

  datatype Index = Index(
    bySubject: map<string, seq<Association>>,
    byKey: map<ResourceKey, Association>,
    byResource: map<string, seq<Association>>)

  const EmptyIndex := Index(map[], map[], map[])

  function KeyOf(a: Association): ResourceKey {
    ResourceKey(a.resourceID, a.resourceType, a.associationType)
  }

  predicate SameButGuid(a: Association, b: Association) {
    && a.subject == b.subject && a.resourceName == b.resourceName && a.resourceNamespace == b.resourceNamespace
    && a.resourceID == b.resourceID && a.resourceType == b.resourceType && a.associationType == b.associationType
    && a.lifecycle == b.lifecycle && a.frozen == b.frozen
  }

  /** Reading an absent key of a Go map of slices gives the empty slice. */
  function At(m: map<string, seq<Association>>, k: string): seq<Association> {
    if k in m then m[k] else []
  }

  // ---------------------------------------------------------------- invariant

  predicate Listed(x: Index, a: Association) {
    a in At(x.bySubject, a.subject)
  }

  ghost predicate NoneEmpty(m: map<string, seq<Association>>) {
    forall k :: k in m ==> m[k] != []
  }

  /** Every list holds only associations of its own subject or resource. */
  ghost predicate Filed(x: Index) {
    && (forall s, a {:trigger a in At(x.bySubject, s)} :: a in At(x.bySubject, s) ==> a.subject == s)
    && (forall r, a {:trigger a in At(x.byResource, r)} :: a in At(x.byResource, r) ==> a.resourceID == r)
  }

  /** How often `a` is stored in the subject lists, and in the resource lists. */
  function SubjectCount(x: Index, a: Association): nat {
    multiset(At(x.bySubject, a.subject))[a]
  }

  function ResourceCount(x: Index, a: Association): nat {
    multiset(At(x.byResource, a.resourceID))[a]
  }

  ghost predicate SameMultiset(x: Index) {
    forall a {:trigger SubjectCount(x, a)} {:trigger ResourceCount(x, a)} :: SubjectCount(x, a) == ResourceCount(x, a)
  }

  ghost predicate ListedIsKeyed(x: Index) {
    forall a {:trigger Listed(x, a)} :: Listed(x, a) ==> KeyOf(a) in x.byKey && SameButGuid(x.byKey[KeyOf(a)], a)
  }

  ghost predicate KeyedIsListed(x: Index) {
    forall k :: k in x.byKey ==> KeyOf(x.byKey[k]) == k && Listed(x, x.byKey[k])
  }

  /** The three indexes hold the same associations, up to GUID where re-creating
      an association has stored several copies of it. */
  ghost predicate Agree(x: Index) {
    && NoneEmpty(x.bySubject) && NoneEmpty(x.byResource)
    && Filed(x) && SameMultiset(x) && ListedIsKeyed(x) && KeyedIsListed(x)
  }

  lemma ListedByResource(x: Index, a: Association)
    requires Agree(x)
    ensures Listed(x, a) <==> a in At(x.byResource, a.resourceID)
  {
    assert SubjectCount(x, a) == ResourceCount(x, a);
    assert a in At(x.bySubject, a.subject) <==> a in multiset(At(x.bySubject, a.subject));
    assert a in At(x.byResource, a.resourceID) <==> a in multiset(At(x.byResource, a.resourceID));
  }

  predicate WellFormed(a: Association) {
    (a.lifecycle == STRONG || (a.lifecycle == WEAK && !a.frozen)) && a.subject != ""
  }

  ghost predicate AllWellFormed(x: Index) {
    forall a {:trigger WellFormed(a)} :: Listed(x, a) ==> WellFormed(a)
  }

  predicate Compatible(a: Association, b: Association) {
    (a.lifecycle == WEAK && b.lifecycle == WEAK) || SameButGuid(a, b)
  }

  /** Each subject has only WEAK associations, or a single STRONG one up to GUID. */
  ghost predicate Exclusive(x: Index) {
    forall a, b {:trigger Compatible(a, b)} :: Listed(x, a) && Listed(x, b) && a.subject == b.subject ==> Compatible(a, b)
  }

  // ---------------------------------------------------------------- insertion

  function Inserted(x: Index, a: Association): Index {
    Index(x.bySubject[a.subject := At(x.bySubject, a.subject) + [a]],
          x.byKey[KeyOf(a) := a],
          x.byResource[a.resourceID := At(x.byResource, a.resourceID) + [a]])
  }

  function InsertedAll(x: Index, added: seq<Association>): Index
    decreases |added|
  {
    if added == [] then x else InsertedAll(Inserted(x, added[0]), added[1..])
  }

  predicate FitsKey(x: Index, a: Association) {
    KeyOf(a) in x.byKey ==> SameButGuid(x.byKey[KeyOf(a)], a)
  }

  ghost predicate DistinctKeys(added: seq<Association>) {
    forall i, j :: 0 <= i < j < |added| ==> KeyOf(added[i]) != KeyOf(added[j])
  }

  ghost predicate Fits(x: Index, added: seq<Association>) {
    DistinctKeys(added) && forall i :: 0 <= i < |added| ==> FitsKey(x, added[i])
  }

  lemma InsertedListed(x: Index, a: Association, b: Association)
    ensures Listed(Inserted(x, a), b) <==> b == a || Listed(x, b)
  {
  }

  lemma InsertedKeepsAgree(x: Index, a: Association)
    requires Agree(x) && FitsKey(x, a)
    ensures Agree(Inserted(x, a))
  {
    InsertedKeepsFiled(x, a);
    InsertedKeepsMultiset(x, a);
    InsertedKeepsKeys(x, a);
  }

  lemma InsertedKeepsFiled(x: Index, a: Association)
    requires Filed(x)
    ensures Filed(Inserted(x, a))
  {
    var y := Inserted(x, a);
    forall s, b | b in At(y.bySubject, s) ensures b.subject == s {
      assert b == a || b in At(x.bySubject, s);
      assert s == a.subject || b in At(x.bySubject, s);
    }
    forall r, b | b in At(y.byResource, r) ensures b.resourceID == r {
      assert b == a || b in At(x.byResource, r);
      assert r == a.resourceID || b in At(x.byResource, r);
    }
  }

  lemma InsertedKeepsMultiset(x: Index, a: Association)
    requires SameMultiset(x)
    ensures SameMultiset(Inserted(x, a))
  {
    var y := Inserted(x, a);
    forall b ensures SubjectCount(y, b) == ResourceCount(y, b) {
      assert SubjectCount(x, b) == ResourceCount(x, b);
      assert SubjectCount(y, b) == SubjectCount(x, b) + if b == a then 1 else 0;
      assert ResourceCount(y, b) == ResourceCount(x, b) + if b == a then 1 else 0;
    }
  }

  lemma InsertedKeepsKeys(x: Index, a: Association)
    requires ListedIsKeyed(x) && KeyedIsListed(x) && FitsKey(x, a)
    ensures ListedIsKeyed(Inserted(x, a)) && KeyedIsListed(Inserted(x, a))
  {
    var y := Inserted(x, a);
    forall b | Listed(y, b) ensures KeyOf(b) in y.byKey && SameButGuid(y.byKey[KeyOf(b)], b) {
      InsertedListed(x, a, b);
    }
    forall k | k in y.byKey ensures KeyOf(y.byKey[k]) == k && Listed(y, y.byKey[k]) {
      InsertedListed(x, a, y.byKey[k]);
    }
  }

  lemma {:induction false} InsertedAllKeepsAgree(x: Index, added: seq<Association>)
    requires Agree(x) && Fits(x, added)
    ensures Agree(InsertedAll(x, added))
    decreases |added|
  {
    if added != [] {
      InsertedKeepsAgree(x, added[0]);
      InsertedAllKeepsAgree(Inserted(x, added[0]), added[1..]);
    }
  }

  lemma {:induction false} InsertedAllListed(x: Index, added: seq<Association>, b: Association)
    ensures Listed(InsertedAll(x, added), b) <==> b in added || Listed(x, b)
    decreases |added|
  {
    if added != [] {
      InsertedListed(x, added[0], b);
      InsertedAllListed(Inserted(x, added[0]), added[1..], b);
      assert b in added <==> b == added[0] || b in added[1..];
    }
  }

  lemma {:induction false} InsertedAllSnoc(x: Index, added: seq<Association>, a: Association)
    ensures InsertedAll(x, added + [a]) == Inserted(InsertedAll(x, added), a)
    decreases |added|
  {
    if added == [] {
      assert [a][1..] == [];
      assert added + [a] == [a];
    } else {
      InsertedAllSnoc(Inserted(x, added[0]), added[1..], a);
      assert (added + [a])[1..] == added[1..] + [a];
    }
  }

  // ----------------------------------------------------------------- deletion

  datatype Query = Query(resourceType: ResourceType, types: seq<AssociationType>, lifecycle: LifecyclePolicy)

  predicate Matches(q: Query, a: Association) {
    && (q.resourceType == NoResourceType || a.resourceType == q.resourceType)
    && (q.types == [] || a.associationType in q.types)
    && (q.lifecycle == NoLifecycle || a.lifecycle == q.lifecycle)
  }

  function Keep(list: seq<Association>, q: Query): (r: seq<Association>) {
    if list == [] then []
    else (if Matches(q, list[0]) then [list[0]] else []) + Keep(list[1..], q)
  }

  /** One page of a filtered list; a limit of zero or less means no limit. The page
      starts at the offset and holds what is there, up to the limit. */
  function Page(list: seq<Association>, offset: nat, limit: int): (page: seq<Association>)
    ensures |page| == if offset >= |list| then 0 else if 0 < limit < |list| - offset then limit else |list| - offset
    ensures forall i :: 0 <= i < |page| ==> page[i] == list[offset + i]
    ensures limit <= 0 && offset == 0 ==> page == list
  {
    var start := if offset > |list| then |list| else offset;
    var end := if limit <= 0 || start + limit > |list| then |list| else start + limit;
    list[start..end]
  }

  lemma {:induction false} KeepSnoc(list: seq<Association>, a: Association, q: Query)
    ensures Keep(list + [a], q) == Keep(list, q) + if Matches(q, a) then [a] else []
  {
    if list == [] {
      assert list + [a] == [a];
    } else {
      KeepSnoc(list[1..], a, q);
      assert (list + [a])[1..] == list[1..] + [a];
    }
  }

  /** The query without any restriction. */
  const EVERYTHING := Query(NoResourceType, [], NoLifecycle)

  lemma {:induction false} KeepEverything(list: seq<Association>)
    ensures Keep(list, EVERYTHING) == list
  {
    if list != [] {
      KeepEverything(list[1..]);
    }
  }

  predicate Doomed(resourceID: string, q: Query, a: Association) {
    a.resourceID == resourceID && Matches(q, a)
  }

  predicate DoomedKey(resourceID: string, q: Query, k: ResourceKey) {
    && k.resourceID == resourceID
    && (q.resourceType == NoResourceType || k.resourceType == q.resourceType)
    && (q.types == [] || k.associationType in q.types)
  }

  function Spared(list: seq<Association>, resourceID: string, q: Query): seq<Association> {
    if list == [] then []
    else (if Doomed(resourceID, q, list[0]) then [] else [list[0]]) + Spared(list[1..], resourceID, q)
  }

  function SparedLists(m: map<string, seq<Association>>, resourceID: string, q: Query): map<string, seq<Association>> {
    map k | k in m && Spared(m[k], resourceID, q) != [] :: Spared(m[k], resourceID, q)
  }

  /** What remains once every association of the resource that matches is gone. */
  function Purged(x: Index, resourceID: string, q: Query): Index {
    Index(SparedLists(x.bySubject, resourceID, q),
          map k | k in x.byKey && !DoomedKey(resourceID, q, k) :: x.byKey[k],
          SparedLists(x.byResource, resourceID, q))
  }

  function Stored(m: map<string, seq<Association>>, k: string, list: seq<Association>): map<string, seq<Association>> {
    if list == [] then m - {k} else m[k := list]
  }

  function Removed(x: Index, a: Association): Index {
    Index(Stored(x.bySubject, a.subject, Without(At(x.bySubject, a.subject), a)),
          x.byKey - {KeyOf(a)},
          Stored(x.byResource, a.resourceID, Without(At(x.byResource, a.resourceID), a)))
  }

  function RemovedAll(x: Index, gone: seq<Association>): Index
    decreases |gone|
  {
    if gone == [] then x else RemovedAll(Removed(x, gone[0]), gone[1..])
  }

  lemma {:induction false} RemovedAllSnoc(x: Index, gone: seq<Association>, a: Association)
    ensures RemovedAll(x, gone + [a]) == Removed(RemovedAll(x, gone), a)
    decreases |gone|
  {
    if gone == [] {
      assert [a][1..] == [];
      assert gone + [a] == [a];
    } else {
      RemovedAllSnoc(Removed(x, gone[0]), gone[1..], a);
      assert (gone + [a])[1..] == gone[1..] + [a];
    }
  }

  function WithoutEach(list: seq<Association>, gone: seq<Association>): seq<Association>
    decreases |gone|
  {
    if gone == [] then list else WithoutEach(Without(list, gone[0]), gone[1..])
  }

  lemma {:induction false} WithoutFirstCount(list: seq<Association>, a: Association)
    ensures multiset(Without(list, a)) == multiset(list) - multiset{a}
  {
    if list != [] {
      assert list == [list[0]] + list[1..];
      if list[0] != a {
        WithoutFirstCount(list[1..], a);
      }
    }
  }

  lemma {:induction false} WithoutFirstSpares(list: seq<Association>, a: Association, resourceID: string, q: Query)
    requires Doomed(resourceID, q, a)
    ensures Spared(Without(list, a), resourceID, q) == Spared(list, resourceID, q)
  {
    if list != [] && list[0] != a {
      WithoutFirstSpares(list[1..], a, resourceID, q);
      assert ([list[0]] + Without(list[1..], a))[1..] == Without(list[1..], a);
    }
  }

  lemma {:induction false} SparedUnchanged(list: seq<Association>, resourceID: string, q: Query)
    requires forall a :: a in list ==> !Doomed(resourceID, q, a)
    ensures Spared(list, resourceID, q) == list
  {
    if list != [] {
      SparedUnchanged(list[1..], resourceID, q);
    }
  }

  ghost predicate Covered(list: seq<Association>, gone: seq<Association>, resourceID: string, q: Query) {
    forall a {:trigger Doomed(resourceID, q, a)} :: Doomed(resourceID, q, a) ==> multiset(list)[a] <= multiset(gone)[a]
  }

  /** Removing doomed elements one by one, as often as each occurs, leaves the
      spared ones in their order. */
  lemma {:induction false} WithoutEachSpares(list: seq<Association>, gone: seq<Association>, resourceID: string, q: Query)
    requires forall a :: a in gone ==> Doomed(resourceID, q, a)
    requires Covered(list, gone, resourceID, q)
    ensures WithoutEach(list, gone) == Spared(list, resourceID, q)
    decreases |gone|
  {
    if gone == [] {
      forall a | a in list ensures !Doomed(resourceID, q, a) {
        assert a in multiset(list);
      }
      SparedUnchanged(list, resourceID, q);
    } else {
      CoveredStep(list, gone, resourceID, q);
      WithoutFirstSpares(list, gone[0], resourceID, q);
      WithoutEachSpares(Without(list, gone[0]), gone[1..], resourceID, q);
    }
  }

  lemma CoveredStep(list: seq<Association>, gone: seq<Association>, resourceID: string, q: Query)
    requires gone != [] && Covered(list, gone, resourceID, q)
    ensures Covered(Without(list, gone[0]), gone[1..], resourceID, q)
  {
    WithoutFirstCount(list, gone[0]);
    assert gone == [gone[0]] + gone[1..];
    assert multiset(gone) == multiset{gone[0]} + multiset(gone[1..]);
  }

  lemma RemovedAt(x: Index, a: Association, k: string)
    requires Filed(x)
    ensures At(Removed(x, a).bySubject, k) == Without(At(x.bySubject, k), a)
    ensures At(Removed(x, a).byResource, k) == Without(At(x.byResource, k), a)
  {
    if k != a.subject {
      WithoutAbsent(At(x.bySubject, k), a);
    }
    if k != a.resourceID {
      WithoutAbsent(At(x.byResource, k), a);
    }
  }

  lemma {:induction false} WithoutFirstWithin(list: seq<Association>, a: Association, b: Association)
    requires b in Without(list, a)
    ensures b in list
  {
    if list != [] && list[0] != a && b != list[0] {
      WithoutFirstWithin(list[1..], a, b);
    }
  }

  lemma RemovedKeepsFiled(x: Index, a: Association)
    requires Filed(x)
    ensures Filed(Removed(x, a))
  {
    var y := Removed(x, a);
    forall s, b | b in At(y.bySubject, s) ensures b.subject == s {
      RemovedAt(x, a, s);
      WithoutFirstWithin(At(x.bySubject, s), a, b);
    }
    forall r, b | b in At(y.byResource, r) ensures b.resourceID == r {
      RemovedAt(x, a, r);
      WithoutFirstWithin(At(x.byResource, r), a, b);
    }
  }

  lemma {:induction false} RemovedAllAt(x: Index, gone: seq<Association>, k: string)
    requires Filed(x)
    ensures At(RemovedAll(x, gone).bySubject, k) == WithoutEach(At(x.bySubject, k), gone)
    ensures At(RemovedAll(x, gone).byResource, k) == WithoutEach(At(x.byResource, k), gone)
    decreases |gone|
  {
    if gone != [] {
      RemovedAt(x, gone[0], k);
      RemovedKeepsFiled(x, gone[0]);
      RemovedAllAt(Removed(x, gone[0]), gone[1..], k);
    }
  }

  lemma {:induction false} RemovedAllKeys(x: Index, gone: seq<Association>)
    requires NoneEmpty(x.bySubject) && NoneEmpty(x.byResource)
    ensures NoneEmpty(RemovedAll(x, gone).bySubject) && NoneEmpty(RemovedAll(x, gone).byResource)
    ensures RemovedAll(x, gone).byKey == x.byKey - (set a | a in gone :: KeyOf(a))
    decreases |gone|
  {
    if gone != [] {
      RemovedAllKeys(Removed(x, gone[0]), gone[1..]);
      assert (set a | a in gone :: KeyOf(a)) == {KeyOf(gone[0])} + set a | a in gone[1..] :: KeyOf(a) by {
        assert gone == [gone[0]] + gone[1..];
      }
    }
  }

  lemma {:induction false} KeepCount(list: seq<Association>, q: Query, a: Association)
    ensures multiset(Keep(list, q))[a] == if Matches(q, a) then multiset(list)[a] else 0
  {
    if list != [] {
      assert list == [list[0]] + list[1..];
      KeepCount(list[1..], q, a);
    }
  }

  lemma {:induction false} SparedCount(list: seq<Association>, resourceID: string, q: Query, a: Association)
    ensures multiset(Spared(list, resourceID, q))[a] == if Doomed(resourceID, q, a) then 0 else multiset(list)[a]
  {
    if list != [] {
      assert list == [list[0]] + list[1..];
      SparedCount(list[1..], resourceID, q, a);
    }
  }

  lemma KeepMember(list: seq<Association>, q: Query, a: Association)
    ensures a in Keep(list, q) <==>
            && a in list
            && (q.resourceType == NoResourceType || a.resourceType == q.resourceType)
            && (q.types == [] || a.associationType in q.types)
            && (q.lifecycle == NoLifecycle || a.lifecycle == q.lifecycle)
  {
    KeepCount(list, q, a);
    assert a in Keep(list, q) <==> a in multiset(Keep(list, q));
    assert a in list <==> a in multiset(list);
  }

  lemma SparedMember(list: seq<Association>, resourceID: string, q: Query, a: Association)
    ensures a in Spared(list, resourceID, q) <==> a in list && !Doomed(resourceID, q, a)
  {
    SparedCount(list, resourceID, q, a);
    assert a in Spared(list, resourceID, q) <==> a in multiset(Spared(list, resourceID, q));
    assert a in list <==> a in multiset(list);
  }

  lemma PurgedAt(x: Index, resourceID: string, q: Query, k: string)
    ensures At(Purged(x, resourceID, q).bySubject, k) == Spared(At(x.bySubject, k), resourceID, q)
    ensures At(Purged(x, resourceID, q).byResource, k) == Spared(At(x.byResource, k), resourceID, q)
  {
  }

  lemma ListsDetermineMap(m: map<string, seq<Association>>, n: map<string, seq<Association>>)
    requires NoneEmpty(m) && NoneEmpty(n)
    requires forall k :: At(m, k) == At(n, k)
    ensures m == n
  {
    forall k ensures k in m <==> k in n {
      assert At(m, k) == At(n, k);
    }
    forall k | k in m ensures m[k] == n[k] {
      assert At(m, k) == At(n, k);
    }
  }

  /** The associations that a deletion finds: those of the resource that match. */
  function Found(x: Index, resourceID: string, q: Query): seq<Association> {
    Keep(At(x.byResource, resourceID), q)
  }

  lemma FoundIsDoomed(x: Index, resourceID: string, q: Query, a: Association)
    requires Agree(x)
    ensures a in Found(x, resourceID, q) <==> Listed(x, a) && Doomed(resourceID, q, a)
  {
    KeepMember(At(x.byResource, resourceID), q, a);
    ListedByResource(x, a);
  }

  lemma FoundCovers(x: Index, resourceID: string, q: Query, k: string)
    requires Agree(x)
    ensures Covered(At(x.bySubject, k), Found(x, resourceID, q), resourceID, q)
    ensures Covered(At(x.byResource, k), Found(x, resourceID, q), resourceID, q)
  {
    forall a | Doomed(resourceID, q, a)
      ensures multiset(At(x.bySubject, k))[a] <= multiset(Found(x, resourceID, q))[a]
      ensures multiset(At(x.byResource, k))[a] <= multiset(Found(x, resourceID, q))[a]
    {
      KeepCount(At(x.byResource, resourceID), q, a);
      assert SubjectCount(x, a) == ResourceCount(x, a);
      assert a in multiset(At(x.bySubject, k)) ==> a in At(x.bySubject, k);
      assert a in multiset(At(x.byResource, k)) ==> a in At(x.byResource, k);
    }
  }

  lemma FoundKeys(x: Index, resourceID: string, q: Query, k: ResourceKey)
    requires Agree(x) && q.lifecycle == NoLifecycle && k in x.byKey
    ensures k in (set a | a in Found(x, resourceID, q) :: KeyOf(a)) <==> DoomedKey(resourceID, q, k)
  {
    FoundIsDoomed(x, resourceID, q, x.byKey[k]);
    forall a | a in Found(x, resourceID, q) && KeyOf(a) == k ensures DoomedKey(resourceID, q, k) {
      FoundIsDoomed(x, resourceID, q, a);
    }
  }

  /** Removing what the filter found, one association at a time, purges exactly
      the matching associations from all three indexes. */
  lemma RemovedAllIsPurged(x: Index, resourceID: string, q: Query)
    requires Agree(x) && q.lifecycle == NoLifecycle
    ensures RemovedAll(x, Found(x, resourceID, q)) == Purged(x, resourceID, q)
  {
    var gone := Found(x, resourceID, q);
    var y := RemovedAll(x, gone);
    var z := Purged(x, resourceID, q);
    RemovedAllKeys(x, gone);
    forall a | a in gone ensures Doomed(resourceID, q, a) {
      FoundIsDoomed(x, resourceID, q, a);
    }
    forall k ensures At(y.bySubject, k) == At(z.bySubject, k) && At(y.byResource, k) == At(z.byResource, k) {
      RemovedAllAt(x, gone, k);
      PurgedAt(x, resourceID, q, k);
      FoundCovers(x, resourceID, q, k);
      WithoutEachSpares(At(x.bySubject, k), gone, resourceID, q);
      WithoutEachSpares(At(x.byResource, k), gone, resourceID, q);
    }
    ListsDetermineMap(y.bySubject, z.bySubject);
    ListsDetermineMap(y.byResource, z.byResource);
    forall k | k in x.byKey ensures k in y.byKey <==> k in z.byKey {
      FoundKeys(x, resourceID, q, k);
    }
    assert y.byKey == z.byKey;
  }

  lemma PurgedListed(x: Index, resourceID: string, q: Query, a: Association)
    ensures Listed(Purged(x, resourceID, q), a) <==> Listed(x, a) && !Doomed(resourceID, q, a)
  {
    PurgedAt(x, resourceID, q, a.subject);
    SparedMember(At(x.bySubject, a.subject), resourceID, q, a);
  }

  lemma PurgedKeepsAgree(x: Index, resourceID: string, q: Query)
    requires Agree(x) && q.lifecycle == NoLifecycle
    ensures Agree(Purged(x, resourceID, q))
  {
    PurgedKeepsLists(x, resourceID, q);
    PurgedKeepsKeys(x, resourceID, q);
  }

  lemma PurgedKeepsLists(x: Index, resourceID: string, q: Query)
    requires Filed(x) && SameMultiset(x)
    ensures Filed(Purged(x, resourceID, q)) && SameMultiset(Purged(x, resourceID, q))
  {
    var y := Purged(x, resourceID, q);
    forall s, a | a in At(y.bySubject, s) ensures a.subject == s {
      PurgedAt(x, resourceID, q, s);
      SparedMember(At(x.bySubject, s), resourceID, q, a);
    }
    forall r, a | a in At(y.byResource, r) ensures a.resourceID == r {
      PurgedAt(x, resourceID, q, r);
      SparedMember(At(x.byResource, r), resourceID, q, a);
    }
    forall a ensures SubjectCount(y, a) == ResourceCount(y, a) {
      PurgedAt(x, resourceID, q, a.subject);
      PurgedAt(x, resourceID, q, a.resourceID);
      SparedCount(At(x.bySubject, a.subject), resourceID, q, a);
      SparedCount(At(x.byResource, a.resourceID), resourceID, q, a);
      assert SubjectCount(x, a) == ResourceCount(x, a);
    }
  }

  lemma PurgedKeepsKeys(x: Index, resourceID: string, q: Query)
    requires ListedIsKeyed(x) && KeyedIsListed(x) && q.lifecycle == NoLifecycle
    ensures ListedIsKeyed(Purged(x, resourceID, q)) && KeyedIsListed(Purged(x, resourceID, q))
  {
    var y := Purged(x, resourceID, q);
    forall a | Listed(y, a) ensures KeyOf(a) in y.byKey && SameButGuid(y.byKey[KeyOf(a)], a) {
      PurgedListed(x, resourceID, q, a);
    }
    forall k | k in y.byKey ensures KeyOf(y.byKey[k]) == k && Listed(y, y.byKey[k]) {
      PurgedListed(x, resourceID, q, x.byKey[k]);
    }
  }
}
