/** The mock Schema Registry client: fields updated in place, loops over its
    maps in whatever order they are met, and contracts in terms of `MockState`. */
module MockClient {
  import opened RegistryModel
  import opened AssociationModel
  import opened MockState
  import Meanings = CallMeanings
  import Runs = RegistryRuns
  import opened Wrappers
  import opened Sequences

  predicate Increasing(s: seq<int>) {
    forall i, j :: 0 <= i < j < |s| ==> s[i] < s[j]
  }

  lemma FirstIsLeast(s: seq<int>, y: int)
    requires Increasing(s) && s != [] && y in s[1..]
    ensures s[0] < y
  {
    var j :| 0 <= j < |s[1..]| && s[1..][j] == y;
    assert s[j + 1] == y;
  }

  lemma PrependIncreasing(x: int, s: seq<int>)
    requires Increasing(s) && forall y :: y in s ==> x < y
    ensures Increasing([x] + s)
  {
    assert forall i :: 0 <= i < |s| ==> s[i] in s;
  }

  /** Sorted insertion, standing for the sort of the collected versions. */
  function Insert(s: seq<int>, x: int): (t: seq<int>)
    requires Increasing(s) && x !in s
    ensures Increasing(t)
    ensures forall y :: y in t <==> y == x || y in s
  {
    if s == [] then [x]
    else if x < s[0] then [x] + s
    else
      var rest := Insert(s[1..], x);
      assert forall y :: y in s <==> y == s[0] || y in s[1..];
      assert forall y :: y in rest ==> s[0] < y by {
        forall y | y in rest ensures s[0] < y {
          if y != x {
            FirstIsLeast(s, y);
          }
        }
      }
      PrependIncreasing(s[0], rest);
      [s[0]] + rest
  }

  datatype SubjectVersion = SubjectVersion(subject: Subject, version: int)

  datatype IdLookup = Pairs(pairs: seq<SubjectVersion>) | UnknownId | VersionMissing

  const TOP: int := WORD / 2

  /** A Go `int`, and the sum of two of them, which wraps around. */
  type Int = x: int | -TOP <= x < TOP

  function Sum(a: Int, b: Int): (c: Int) {
    if a + b >= TOP then a + b - WORD else if a + b < -TOP then a + b + WORD else a + b
  }

  /** Taking this page of `n` associations panics: the offset is negative, or the
      end of the page wraps around to a negative number. */
  predicate Panics(n: nat, offset: Int, limit: Int) {
    offset < 0 || (0 < limit && (if offset > n then n else offset) + limit >= TOP)
  }

  /** A query for associations is refused, panics, or lists them. */
  datatype Listing = Listing(associations: seq<Association>) | Invalid | Panic

  predicate LiveWithId(r: Registry, k: SubjectJson, id: int) {
    k in r.info && !r.info[k].softDeleted && r.info[k].metadata.id == id
  }

  lemma SameIdSameKey(r: Registry, k: SubjectJson, l: SubjectJson)
    requires Valid(r) && k in r.info && l in r.info && r.info[k].metadata.id == r.info[l].metadata.id
    ensures k == l
  {
    assert EntryOk(r, k) && EntryOk(r, l);
    assert IdOk(r, IdKey(r, k));
  }

  predicate Shows(r: Registry, k: SubjectJson, subject: Subject, version: int, deleted: bool) {
    AtVersion(r, k, subject, version) && (!r.versions[k].softDeleted || deleted)
  }

  /** The key that a scan of the version table in this order meets first. */
  function FirstShown(r: Registry, order: seq<SubjectJson>, subject: Subject, version: int, deleted: bool): Option<SubjectJson> {
    if order == [] then None
    else if Shows(r, order[0], subject, version, deleted) then Some(order[0])
    else FirstShown(r, order[1..], subject, version, deleted)
  }

  lemma {:induction false} FirstShownIsShown(r: Registry, order: seq<SubjectJson>, subject: Subject, version: int, deleted: bool)
    ensures var first := FirstShown(r, order, subject, version, deleted);
            && (first.None? ==> forall k :: k in order ==> !Shows(r, k, subject, version, deleted))
            && (first.Some? ==> first.value in order && Shows(r, first.value, subject, version, deleted))
  {
    if order != [] {
      FirstShownIsShown(r, order[1..], subject, version, deleted);
      assert forall k :: k in order <==> k == order[0] || k in order[1..];
    }
  }

  lemma {:induction false} SkipUnshown(r: Registry, met: seq<SubjectJson>, rest: seq<SubjectJson>, subject: Subject, version: int, deleted: bool)
    requires forall k :: k in met ==> !Shows(r, k, subject, version, deleted)
    ensures FirstShown(r, met + rest, subject, version, deleted) == FirstShown(r, rest, subject, version, deleted)
  {
    if met == [] {
      assert met + rest == rest;
    } else {
      assert met[0] in met;
      assert (met + rest)[1..] == met[1..] + rest;
      SkipUnshown(r, met[1..], rest, subject, version, deleted);
    }
  }

  /** A scan that stops at `key` could have gone on to meet the pending keys. */
  lemma ShownHere(r: Registry, met: seq<SubjectJson>, pending: set<SubjectJson>, key: SubjectJson, subject: Subject, version: int, deleted: bool)
    returns (order: seq<SubjectJson>)
    requires pending <= r.versions.Keys && key in pending && Enumerates(met, r.versions.Keys - pending)
    requires Shows(r, key, subject, version, deleted) && forall k :: k in met ==> !Shows(r, k, subject, version, deleted)
    ensures Enumerates(order, r.versions.Keys) && FirstShown(r, order, subject, version, deleted) == Some(key)
  {
    var rest := SomeOrder(pending, key);
    OrdersJoin(met, r.versions.Keys - pending, rest, pending);
    assert r.versions.Keys - pending + pending == r.versions.Keys;
    SkipUnshown(r, met, rest, subject, version, deleted);
    order := met + rest;
  }

  /** Every scan finds the same key, whatever the map order, if and only if no
      other key shows at the version. For live versions that is always so; with
      deleted ones it fails when a number was given again after a deletion. */
  lemma ScanIsUniqueIff(r: Registry, subject: Subject, version: int, deleted: bool, k: SubjectJson)
    ensures (forall order :: Enumerates(order, r.versions.Keys) ==> FirstShown(r, order, subject, version, deleted) == Some(k))
       <==> Shows(r, k, subject, version, deleted) && forall l :: Shows(r, l, subject, version, deleted) ==> l == k
  {
    if Shows(r, k, subject, version, deleted) && forall l :: Shows(r, l, subject, version, deleted) ==> l == k {
      forall order | Enumerates(order, r.versions.Keys) ensures FirstShown(r, order, subject, version, deleted) == Some(k) {
        FirstShownIsShown(r, order, subject, version, deleted);
        assert k in order;
      }
    } else if l :| Shows(r, l, subject, version, deleted) && l != k {
      var order := SomeOrder(r.versions.Keys, l);
      assert FirstShown(r, order, subject, version, deleted) == Some(l);
    } else {
      var order := AnyOrder(r.versions.Keys);
      FirstShownIsShown(r, order, subject, version, deleted);
    }
  }

  /** Registering one schema, deleting it softly and registering another one gives
      both the number 1. */
  lemma NumbersAreGivenAgain(subject: Subject, first: Schema, second: Schema)
    requires first != second
    ensures var a, b := SubjectJson(subject, first), SubjectJson(subject, second);
            var r := Registered(SubjectDeleted(Registered(EmptyRegistry, a, NO_GUID).0, subject, false), b, NO_GUID).0;
            Shows(r, a, subject, 1, true) && Shows(r, b, subject, 1, true) && !Shows(r, a, subject, 1, false)
  {
    var a := SubjectJson(subject, first);
    assert LiveKeys(EmptyRegistry, subject) == {};
    var r1 := Registered(EmptyRegistry, a, NO_GUID).0;
    assert r1.versions == map[a := VersionEntry(1, false)];
    var r2 := SubjectDeleted(r1, subject, false);
    assert r2.versions == map[a := VersionEntry(1, true)];
    assert LiveKeys(r2, subject) == {};
  }

  /** The metadata is that of the registration `k`, with a GUID of its schema. */
  predicate Describes(r: Registry, k: SubjectJson, m: SchemaMetadata) {
    && k in r.info && k in r.versions
    && m.schema == k.json && m.subject == k.subject
    && m.id == r.info[k].metadata.id && m.version == r.versions[k].version
    && m.guid in r.guids && r.guids[m.guid].info == k.json
  }

  function DeletedKeys(r: Registry, subject: Subject, permanent: bool): set<SubjectJson> {
    set k | k in r.versions && k.subject == subject && (!r.versions[k].softDeleted || permanent)
  }

  /** `versions` lists the version of every key in `expected`, one per key. */
  ghost predicate VersionsOfKeys(r: Registry, expected: set<SubjectJson>, keys: seq<SubjectJson>, versions: seq<int>) {
    && |versions| == |keys|
    && (forall i :: 0 <= i < |keys| ==> keys[i] in expected && keys[i] in r.versions && versions[i] == r.versions[keys[i]].version)
    && (forall i, j :: 0 <= i < j < |keys| ==> keys[i] != keys[j])
    && (forall k :: k in expected ==> k in keys)
  }

  /** One more key handled: its version is listed if it is one of those deleted. */
  lemma ListOneMore(r: Registry, subject: Subject, permanent: bool, pending: set<SubjectJson>,
                    keys: seq<SubjectJson>, versions: seq<int>, key: SubjectJson)
    requires VersionsOfKeys(r, DeletedKeys(r, subject, permanent) - pending, keys, versions) && key in pending && key in r.versions
    ensures if key in DeletedKeys(r, subject, permanent)
            then VersionsOfKeys(r, DeletedKeys(r, subject, permanent) - (pending - {key}), keys + [key], versions + [r.versions[key].version])
            else VersionsOfKeys(r, DeletedKeys(r, subject, permanent) - (pending - {key}), keys, versions)
  {
  }

  /** The version table once all keys but the pending ones have been handled. */
  function VersionsDeletedSoFar(r: Registry, subject: Subject, permanent: bool, pending: set<SubjectJson>): map<SubjectJson, VersionEntry> {
    map k | k in r.versions && (k in pending || k.subject != subject || !permanent) ::
      if k in pending || k.subject != subject then r.versions[k] else r.versions[k].(softDeleted := true)
  }

  lemma DeletedSoFarEnds(r: Registry, subject: Subject, permanent: bool)
    ensures VersionsDeletedSoFar(r, subject, permanent, r.versions.Keys) == r.versions
    ensures VersionsDeletedSoFar(r, subject, permanent, {}) == SubjectDeleted(r, subject, permanent).versions
  {
  }

  lemma DeleteOneMore(r: Registry, subject: Subject, permanent: bool, pending: set<SubjectJson>, key: SubjectJson)
    requires pending <= r.versions.Keys && key in pending
    ensures var m := VersionsDeletedSoFar(r, subject, permanent, pending);
            VersionsDeletedSoFar(r, subject, permanent, pending - {key}) ==
            if key.subject != subject then m
            else if permanent then m - {key}
            else m[key := r.versions[key].(softDeleted := true)]
  {
  }

  /** The registry once all keys but the pending ones have been handled. */
  function VersionDeletedSoFar(r: Registry, subject: Subject, version: int, permanent: bool, pending: set<SubjectJson>): Registry {
    if permanent then
      r.(info := map k | k in r.info && !(AtVersion(r, k, subject, version) && k !in pending) :: r.info[k],
         versions := map k | k in r.versions && !(AtVersion(r, k, subject, version) && k !in pending) :: r.versions[k],
         ids := map i | i in r.ids && !(AtVersion(r, InfoKey(r, i), subject, version) && InfoKey(r, i) !in pending) :: r.ids[i])
    else
      r.(info := map k | k in r.info ::
           if AtVersion(r, k, subject, version) && k !in pending then r.info[k].(softDeleted := true) else r.info[k],
         versions := map k | k in r.versions ::
           if AtVersion(r, k, subject, version) && k !in pending then r.versions[k].(softDeleted := true) else r.versions[k])
  }

  lemma VersionDeletedSoFarEnds(r: Registry, subject: Subject, version: int, permanent: bool)
    ensures VersionDeletedSoFar(r, subject, version, permanent, r.versions.Keys) == r
    ensures VersionDeletedSoFar(r, subject, version, permanent, {}) == VersionDeleted(r, subject, version, permanent)
  {
  }

  function EntryDeleted(r: Registry, key: SubjectJson, permanent: bool): Registry
    requires key in r.info && key in r.versions
  {
    if permanent then
      r.(info := r.info - {key}, versions := r.versions - {key}, ids := r.ids - {IdKey(r, key)})
    else
      r.(info := r.info[key := r.info[key].(softDeleted := true)],
         versions := r.versions[key := r.versions[key].(softDeleted := true)])
  }

  lemma PendingIsUntouched(r: Registry, subject: Subject, version: int, permanent: bool, pending: set<SubjectJson>, key: SubjectJson)
    requires Valid(r) && pending <= r.versions.Keys && key in pending
    ensures var s := VersionDeletedSoFar(r, subject, version, permanent, pending);
            && key in s.info && key in s.versions
            && s.info[key] == r.info[key] && s.versions[key] == r.versions[key]
  {
    assert EntryOk(r, key);
  }

  lemma SkipOneMore(r: Registry, subject: Subject, version: int, permanent: bool, pending: set<SubjectJson>, key: SubjectJson)
    requires !AtVersion(r, key, subject, version)
    ensures VersionDeletedSoFar(r, subject, version, permanent, pending - {key}) == VersionDeletedSoFar(r, subject, version, permanent, pending)
  {
  }

  lemma DeleteVersionOneMore(r: Registry, subject: Subject, version: int, permanent: bool, pending: set<SubjectJson>, key: SubjectJson)
    requires Valid(r) && pending <= r.versions.Keys && key in pending && AtVersion(r, key, subject, version)
    requires var s := VersionDeletedSoFar(r, subject, version, permanent, pending); key in s.info && key in s.versions && s.info[key] == r.info[key]
    ensures VersionDeletedSoFar(r, subject, version, permanent, pending - {key}) ==
            EntryDeleted(VersionDeletedSoFar(r, subject, version, permanent, pending), key, permanent)
  {
    var s := VersionDeletedSoFar(r, subject, version, permanent, pending);
    var t := VersionDeletedSoFar(r, subject, version, permanent, pending - {key});
    if permanent {
      forall i | i in r.ids ensures InfoKey(r, i) == key <==> i == IdKey(r, key) {
        assert IdOk(r, i) && EntryOk(r, key);
      }
      assert t.ids == s.ids - {IdKey(r, key)};
    }
    assert t.info == EntryDeleted(s, key, permanent).info;
    assert t.versions == EntryDeleted(s, key, permanent).versions;
  }

  lemma InsertOneMore(x: Index, added: seq<Association>, i: nat)
    requires i < |added|
    ensures InsertedAll(x, added[..i + 1]) == Inserted(InsertedAll(x, added[..i]), added[i])
  {
    InsertedAllSnoc(x, added[..i], added[i]);
    assert added[..i] + [added[i]] == added[..i + 1];
  }

  lemma StrongSubjectsSnoc(gone: seq<Association>, i: nat)
    requires i < |gone|
    ensures StrongSubjects(gone[..i + 1]) ==
            if gone[i].lifecycle == STRONG then StrongSubjects(gone[..i]) + {gone[i].subject} else StrongSubjects(gone[..i])
  {
    assert gone[..i + 1] == gone[..i] + [gone[i]];
  }

  class Client {
    var infoToSchemaCache: map<SubjectJson, MetadataEntry>
    var idToSchemaCache: map<SubjectId, InfoEntry>
    var guidToSchemaCache: map<Guid, InfoEntry>
    var schemaToVersionCache: map<SubjectJson, VersionEntry>
    var subjectToAssocCache: map<string, seq<Association>>
    var resourceAndAssocTypeCache: map<ResourceKey, Association>
    var resourceIDToAssocCache: map<string, seq<Association>>
    var counter: int
    var nextGuid: Guid

    ghost function Reg(): Registry
      reads this
    {
      Registry(infoToSchemaCache, idToSchemaCache, guidToSchemaCache, schemaToVersionCache, counter, nextGuid)
    }

    ghost function Idx(): Index
      reads this
    {
      Index(subjectToAssocCache, resourceAndAssocTypeCache, resourceIDToAssocCache)
    }

    ghost function View(): State
      reads this
    {
      State(Reg(), Idx())
    }

    ghost predicate Valid()
      reads this
    {
      Invariant(View())
    }

    constructor ()
      ensures View() == EmptyState
    {
      infoToSchemaCache, idToSchemaCache, guidToSchemaCache, schemaToVersionCache := map[], map[], map[], map[];
      subjectToAssocCache, resourceAndAssocTypeCache, resourceIDToAssocCache := map[], map[], map[];
      counter, nextGuid := 0, NO_GUID + 1;
    }

    // ----------------------------------------------------------------- versions

    /** The live versions of a subject in increasing order, each once. */
    method AllVersions(subject: Subject) returns (versions: seq<int>)
      requires RegistryModel.Valid(Reg())
      ensures Increasing(versions)
      ensures forall v :: v in versions <==> exists k :: k in LiveKeys(Reg(), subject) && schemaToVersionCache[k].version == v
    {
      versions := [];
      var pending := schemaToVersionCache.Keys;
      while pending != {}
        invariant pending <= schemaToVersionCache.Keys
        invariant Increasing(versions)
        invariant forall v :: v in versions <==>
          exists k :: k in LiveKeys(Reg(), subject) && k !in pending && schemaToVersionCache[k].version == v
        decreases |pending|
      {
        var key :| key in pending;
        var value := schemaToVersionCache[key];
        if key.subject == subject && !value.softDeleted {
          if value.version in versions {
            ghost var other :| other in LiveKeys(Reg(), subject) && other !in pending && schemaToVersionCache[other].version == value.version;
            assert SameLiveVersion(Reg(), key, other);
          }
          versions := Insert(versions, value.version);
        }
        pending := pending - {key};
      }
    }

    method LatestVersion(subject: Subject) returns (version: int)
      requires RegistryModel.Valid(Reg())
      ensures version == Latest(Reg(), subject)
      ensures version < 0 <==> LiveKeys(Reg(), subject) == {}
    {
      var versions := AllVersions(subject);
      assert LiveKeys(Reg(), subject) != {} ==> Latest(Reg(), subject) in versions;
      if |versions| == 0 {
        return -1;
      }
      version := versions[|versions| - 1];
      assert version in versions;
      ghost var k :| k in LiveKeys(Reg(), subject) && schemaToVersionCache[k].version == version;
      assert EntryOk(Reg(), k);
    }

    // ------------------------------------------------------------- registration

    /** Some id of the subject whose schema is `schema`, -1 when there is none. */
    method FindId(subject: Subject, schema: Schema, deleted: bool) returns (id: int)
      requires RegistryModel.Valid(Reg())
      ensures id == -1 || 0 < id
      ensures SubjectJson(subject, schema) in infoToSchemaCache ==> id == infoToSchemaCache[SubjectJson(subject, schema)].metadata.id
      ensures SubjectJson(subject, schema) !in infoToSchemaCache ==> id == -1
    {
      var key := SubjectJson(subject, schema);
      assert key in infoToSchemaCache ==> EntryOk(Reg(), key);
      var pending := idToSchemaCache.Keys;
      while pending != {}
        invariant pending <= idToSchemaCache.Keys
        invariant key in infoToSchemaCache ==> IdKey(Reg(), key) in pending
        decreases |pending|
      {
        var candidate :| candidate in pending;
        var value := idToSchemaCache[candidate];
        assert IdOk(Reg(), candidate) && EntryOk(Reg(), InfoKey(Reg(), candidate));
        if candidate.subject == subject && value.info == schema && (!value.softDeleted || deleted) {
          return candidate.id;
        }
        pending := pending - {candidate};
      }
      return -1;
    }

    /** Some GUID of the schema, the empty one when there is none. */
    method FindGuid(schema: Schema, deleted: bool) returns (guid: Guid)
      requires RegistryModel.Valid(Reg())
      ensures guid == NO_GUID ==> forall g :: g in guidToSchemaCache ==> guidToSchemaCache[g].info != schema
      ensures guid != NO_GUID ==> guid in guidToSchemaCache && guidToSchemaCache[guid].info == schema
    {
      var pending := guidToSchemaCache.Keys;
      while pending != {}
        invariant pending <= guidToSchemaCache.Keys
        invariant forall g :: g in guidToSchemaCache && g !in pending ==> guidToSchemaCache[g].info != schema
        decreases |pending|
      {
        assert exists g: Guid :: g in pending;
        var candidate: Guid :| candidate in pending;
        var value := guidToSchemaCache[candidate];
        assert GuidOk(Reg(), candidate);
        if value.info == schema && (!value.softDeleted || deleted) {
          return candidate;
        }
        pending := pending - {candidate};
      }
      return NO_GUID;
    }

    method GenerateVersion(subject: Subject, schema: Schema)
      requires RegistryModel.Valid(Reg())
      modifies this`schemaToVersionCache
      ensures schemaToVersionCache ==
        old(schemaToVersionCache)[SubjectJson(subject, schema) := VersionEntry(NextVersion(old(Reg()), subject), false)]
      ensures var v := schemaToVersionCache[SubjectJson(subject, schema)].version;
              && (forall k :: Live(old(Reg()), k) && k.subject == subject ==> old(schemaToVersionCache)[k].version < v)
              && (v == 1 || exists k :: Live(old(Reg()), k) && k.subject == subject && old(schemaToVersionCache)[k].version == v - 1)
    {
      NextVersionIsNew(Reg(), subject);
      var latest := LatestVersion(subject);
      var newVersion := if latest < 0 then 1 else latest + 1;
      schemaToVersionCache := schemaToVersionCache[SubjectJson(subject, schema) := VersionEntry(newVersion, false)];
    }

    method GetIDFromRegistry(subject: Subject, schema: Schema) returns (id: int, guid: Guid)
      requires RegistryModel.Valid(Reg()) && !Live(Reg(), SubjectJson(subject, schema))
      modifies this`idToSchemaCache, this`guidToSchemaCache, this`schemaToVersionCache, this`counter, this`nextGuid
      ensures GoodPick(old(Reg()), SubjectJson(subject, schema), guid)
      ensures id == Registered(old(Reg()), SubjectJson(subject, schema), guid).1.id
      ensures guid == Registered(old(Reg()), SubjectJson(subject, schema), guid).1.guid
      ensures Reg() == Registered(old(Reg()), SubjectJson(subject, schema), guid).0.(info := infoToSchemaCache)
    {
      var key := SubjectJson(subject, schema);
      assert key in infoToSchemaCache || key in schemaToVersionCache ==> EntryOk(Reg(), key);
      id := FindId(subject, schema, true);
      guid := FindGuid(schema, true);
      GenerateVersion(subject, schema);
      if id < 0 {
        counter := counter + 1;
        id := counter;
        idToSchemaCache := idToSchemaCache[SubjectId(subject, id) := InfoEntry(schema, false)];
        guid := nextGuid;
        nextGuid := nextGuid + 1;
        guidToSchemaCache := guidToSchemaCache[guid := InfoEntry(schema, false)];
      }
    }

    method RegisterFullResponse(subject: Subject, schema: Schema) returns (result: SchemaMetadata)
      requires Valid()
      modifies this`infoToSchemaCache, this`idToSchemaCache, this`guidToSchemaCache, this`schemaToVersionCache, this`counter, this`nextGuid
      ensures Valid()
      ensures Possible(old(View()), Register(subject, schema, result.guid))
      ensures View() == Step(old(View()), Register(subject, schema, result.guid))
      ensures result == Registered(old(Reg()), SubjectJson(subject, schema), result.guid).1
      ensures result.schema == schema && result.subject == "" && result.version == 0
      ensures Live(Reg(), SubjectJson(subject, schema)) && infoToSchemaCache[SubjectJson(subject, schema)].metadata == result
    {
      var key := SubjectJson(subject, schema);
      assert key in infoToSchemaCache || key in schemaToVersionCache ==> EntryOk(Reg(), key);
      if key in infoToSchemaCache && !infoToSchemaCache[key].softDeleted {
        return infoToSchemaCache[key].metadata;
      }
      var id, guid := GetIDFromRegistry(subject, schema);
      result := SchemaMetadata(schema, id, guid, "", 0);
      infoToSchemaCache := infoToSchemaCache[key := MetadataEntry(result, false)];
      RegisteredKeepsValid(old(Reg()), key, guid);
    }

    // ------------------------------------------------------------------ lookups

    method GetBySubjectAndID(subject: Subject, id: int) returns (schema: Option<Schema>)
      requires Valid()
      ensures schema.Some? <==> exists k :: k in infoToSchemaCache && IdKey(Reg(), k) == SubjectId(subject, id)
      ensures schema.Some? ==> var k := SubjectJson(subject, schema.value); k in infoToSchemaCache && infoToSchemaCache[k].metadata.id == id
    {
      if SubjectId(subject, id) in idToSchemaCache {
        assert IdOk(Reg(), SubjectId(subject, id));
        assert IdKey(Reg(), InfoKey(Reg(), SubjectId(subject, id))) == SubjectId(subject, id);
        return Some(idToSchemaCache[SubjectId(subject, id)].info);
      }
      forall k | k in infoToSchemaCache ensures IdKey(Reg(), k) != SubjectId(subject, id) {
        assert EntryOk(Reg(), k);
      }
      return None;
    }

    method GetByGUID(guid: Guid) returns (schema: Option<Schema>)
      ensures schema == if guid in Reg().guids then Some(Reg().guids[guid].info) else None
    {
      if guid in guidToSchemaCache {
        return Some(guidToSchemaCache[guid].info);
      }
      return None;
    }

    /** The metadata of a live registration, and of nothing else. */
    method GetIDFullResponse(subject: Subject, schema: Schema) returns (result: Option<SchemaMetadata>)
      requires Valid()
      ensures result.Some? <==> Live(Reg(), SubjectJson(subject, schema))
      ensures result.Some? ==> var i := SubjectId(subject, result.value.id); i in idToSchemaCache && idToSchemaCache[i].info == schema
      ensures result.Some? ==> result.value.schema == schema && result.value.guid in guidToSchemaCache && guidToSchemaCache[result.value.guid].info == schema
    {
      var key := SubjectJson(subject, schema);
      assert key in infoToSchemaCache || key in schemaToVersionCache ==> EntryOk(Reg(), key);
      if key in infoToSchemaCache && !infoToSchemaCache[key].softDeleted {
        return Some(infoToSchemaCache[key].metadata);
      }
      return None;
    }

    /** One pair for an id with a live registration, none for any other id; the
        exit for a registration without a version is never taken. */
    method GetSubjectsAndVersionsByID(id: int) returns (found: IdLookup)
      requires Valid()
      ensures !found.VersionMissing?
      ensures found.Pairs? ==> exists k :: LiveWithId(Reg(), k, id)
      ensures forall k :: LiveWithId(Reg(), k, id) ==>
                k in schemaToVersionCache && found == Pairs([SubjectVersion(k.subject, schemaToVersionCache[k].version)])
    {
      var pairs := [];
      var pending := infoToSchemaCache.Keys;
      ghost var hit: Option<SubjectJson> := None;
      while pending != {}
        invariant pending <= infoToSchemaCache.Keys
        invariant hit.None? ==> pairs == [] && forall k :: LiveWithId(Reg(), k, id) ==> k in pending
        invariant hit.Some? ==> LiveWithId(Reg(), hit.value, id) && hit.value in schemaToVersionCache
        invariant hit.Some? ==> hit.value !in pending && pairs == [SubjectVersion(hit.value.subject, schemaToVersionCache[hit.value].version)]
        decreases |pending|
      {
        var key :| key in pending;
        var value := infoToSchemaCache[key];
        assert EntryOk(Reg(), key);
        if !value.softDeleted && value.metadata.id == id {
          var versionKey := SubjectJson(key.subject, value.metadata.schema);
          if versionKey !in schemaToVersionCache {
            assert false;
            return VersionMissing;
          }
          if hit.Some? {
            SameIdSameKey(Reg(), key, hit.value);
          }
          pairs := pairs + [SubjectVersion(key.subject, schemaToVersionCache[versionKey].version)];
          hit := Some(key);
        }
        pending := pending - {key};
      }
      if pairs == [] {
        return UnknownId;
      }
      forall k | LiveWithId(Reg(), k, id) ensures k == hit.value {
        SameIdSameKey(Reg(), k, hit.value);
      }
      return Pairs(pairs);
    }

    method FindVersion(subject: Subject, version: int, deleted: bool) returns (json: Option<Schema>, ghost order: seq<SubjectJson>)
      ensures Enumerates(order, schemaToVersionCache.Keys)
      ensures json == match FirstShown(Reg(), order, subject, version, deleted) case None => None case Some(k) => Some(k.json)
      ensures json.None? ==> forall k :: !Shows(Reg(), k, subject, version, deleted)
      ensures json.Some? ==> Shows(Reg(), SubjectJson(subject, json.value), subject, version, deleted)
    {
      ghost var met: seq<SubjectJson> := [];
      var pending := schemaToVersionCache.Keys;
      while pending != {}
        invariant pending <= schemaToVersionCache.Keys && Enumerates(met, schemaToVersionCache.Keys - pending)
        invariant forall k :: k in met ==> !Shows(Reg(), k, subject, version, deleted)
        decreases |pending|
      {
        var key :| key in pending;
        var value := schemaToVersionCache[key];
        if key.subject == subject && value.version == version && (!value.softDeleted || deleted) {
          order := ShownHere(Reg(), met, pending, key, subject, version, deleted);
          return Some(key.json), order;
        }
        EnumerateOneMore(met, schemaToVersionCache.Keys - pending, key);
        assert schemaToVersionCache.Keys - (pending - {key}) == schemaToVersionCache.Keys - pending + {key};
        met := met + [key];
        pending := pending - {key};
      }
      assert schemaToVersionCache.Keys - pending == schemaToVersionCache.Keys;
      FirstShownIsShown(Reg(), met, subject, version, deleted);
      return None, met;
    }

    /** Fails only for a version that no registration shows: the id and GUID
        scans always succeed. A live version determines schema and id. */
    method GetSchemaMetadataIncludeDeleted(subject: Subject, version: int, deleted: bool)
      returns (result: Option<SchemaMetadata>, ghost order: seq<SubjectJson>)
      requires Valid()
      ensures Enumerates(order, schemaToVersionCache.Keys)
      ensures match FirstShown(Reg(), order, subject, version, deleted)
              case None => result.None?
              case Some(k) => result.Some? && Describes(Reg(), k, result.value)
      ensures result.None? ==> forall k :: !Shows(Reg(), k, subject, version, deleted)
      ensures result.Some? ==> Shows(Reg(), SubjectJson(subject, result.value.schema), subject, version, deleted)
      ensures result.Some? ==> Describes(Reg(), SubjectJson(subject, result.value.schema), result.value)
      ensures !deleted ==> forall k :: Shows(Reg(), k, subject, version, false) ==> result.Some? && Describes(Reg(), k, result.value)
    {
      var json;
      json, order := FindVersion(subject, version, deleted);
      result := None;
      if json.None? {
        return;
      }
      FirstShownIsShown(Reg(), order, subject, version, deleted);
      var key := SubjectJson(subject, json.value);
      assert EntryOk(Reg(), key);
      var id := FindId(subject, json.value, deleted);
      if id == -1 {
        assert false;
        return;
      }
      assert guidToSchemaCache[infoToSchemaCache[key].metadata.guid].info == json.value;
      var guid := FindGuid(json.value, deleted);
      if guid == NO_GUID {
        assert false;
        return;
      }
      result := Some(SchemaMetadata(json.value, id, guid, subject, version));
      forall k | Shows(Reg(), k, subject, version, false) && !deleted ensures k == key {
        assert SameLiveVersion(Reg(), k, key);
      }
    }

    /** The registration with the greatest live version. */
    method GetLatestSchemaMetadata(subject: Subject) returns (result: Option<SchemaMetadata>)
      requires Valid()
      ensures result.None? <==> LiveKeys(Reg(), subject) == {}
      ensures result.Some? ==> Describes(Reg(), Newest(Reg(), LiveKeys(Reg(), subject)), result.value)
      ensures result.Some? ==> result.value.version == Latest(Reg(), subject)
    {
      var version := LatestVersion(subject);
      if version < 0 {
        return None;
      }
      assert Shows(Reg(), Newest(Reg(), LiveKeys(Reg(), subject)), subject, version, false);
      ghost var order;
      result, order := GetSchemaMetadataIncludeDeleted(subject, version, false);
    }

    // ---------------------------------------------------------------- deletions

    method DeleteMetadata(key: SubjectJson, metadata: SchemaMetadata, permanent: bool)
      modifies this`infoToSchemaCache
      ensures infoToSchemaCache == if permanent then old(infoToSchemaCache) - {key} else old(infoToSchemaCache)[key := MetadataEntry(metadata, true)]
    {
      if permanent {
        infoToSchemaCache := infoToSchemaCache - {key};
      } else {
        infoToSchemaCache := infoToSchemaCache[key := MetadataEntry(metadata, true)];
      }
    }

    method DeleteVersion(key: SubjectJson, version: int, permanent: bool)
      modifies this`schemaToVersionCache
      ensures schemaToVersionCache == if permanent then old(schemaToVersionCache) - {key} else old(schemaToVersionCache)[key := VersionEntry(version, true)]
    {
      if permanent {
        schemaToVersionCache := schemaToVersionCache - {key};
      } else {
        schemaToVersionCache := schemaToVersionCache[key := VersionEntry(version, true)];
      }
    }

    method DeleteMetadataOf(subject: Subject, permanent: bool)
      modifies this`infoToSchemaCache
      ensures infoToSchemaCache == SubjectDeleted(old(Reg()), subject, permanent).info
    {
      ghost var before := infoToSchemaCache;
      var pending := infoToSchemaCache.Keys;
      while pending != {}
        invariant pending <= before.Keys
        invariant forall k :: k in infoToSchemaCache <==> k in before && (k in pending || k.subject != subject || !permanent)
        invariant forall k :: k in infoToSchemaCache ==>
          (infoToSchemaCache[k] == if k in pending || k.subject != subject then before[k] else before[k].(softDeleted := true))
        decreases |pending|
      {
        var key :| key in pending;
        var value := infoToSchemaCache[key];
        if key.subject == subject && (!value.softDeleted || permanent) {
          DeleteMetadata(key, value.metadata, permanent);
        }
        pending := pending - {key};
      }
    }

    /** Returns the versions of the entries it deletes, one for each entry. */
    method DeleteVersionsOf(subject: Subject, permanent: bool) returns (deleted: seq<int>, ghost keys: seq<SubjectJson>)
      modifies this`schemaToVersionCache
      ensures schemaToVersionCache == SubjectDeleted(old(Reg()), subject, permanent).versions
      ensures VersionsOfKeys(old(Reg()), DeletedKeys(old(Reg()), subject, permanent), keys, deleted)
    {
      ghost var before := Reg();
      DeletedSoFarEnds(before, subject, permanent);
      deleted, keys := [], [];
      var pending := schemaToVersionCache.Keys;
      while pending != {}
        invariant pending <= before.versions.Keys
        invariant schemaToVersionCache == VersionsDeletedSoFar(before, subject, permanent, pending)
        invariant VersionsOfKeys(before, DeletedKeys(before, subject, permanent) - pending, keys, deleted)
        decreases |pending|
      {
        var key :| key in pending;
        var value := schemaToVersionCache[key];
        DeleteOneMore(before, subject, permanent, pending, key);
        ListOneMore(before, subject, permanent, pending, keys, deleted, key);
        if key.subject == subject && (!value.softDeleted || permanent) {
          DeleteVersion(key, value.version, permanent);
          deleted, keys := deleted + [value.version], keys + [key];
        }
        pending := pending - {key};
      }
    }

    method DeleteInfosOf(subject: Subject)
      modifies this`idToSchemaCache
      ensures idToSchemaCache == SubjectDeleted(old(Reg()), subject, true).ids
    {
      ghost var before := idToSchemaCache;
      var pending := idToSchemaCache.Keys;
      while pending != {}
        invariant pending <= before.Keys
        invariant forall i :: i in idToSchemaCache <==> i in before && (i in pending || i.subject != subject)
        invariant forall i :: i in idToSchemaCache ==> idToSchemaCache[i] == before[i]
        decreases |pending|
      {
        var key :| key in pending;
        if key.subject == subject {
          idToSchemaCache := idToSchemaCache - {key};
        }
        pending := pending - {key};
      }
    }

    /** Deletes without looking at the associations of the subject. */
    method DeleteSubjectUnchecked(subject: Subject, permanent: bool) returns (deleted: seq<int>, ghost keys: seq<SubjectJson>)
      modifies this`infoToSchemaCache, this`schemaToVersionCache, this`idToSchemaCache
      ensures Reg() == SubjectDeleted(old(Reg()), subject, permanent)
      ensures VersionsOfKeys(old(Reg()), DeletedKeys(old(Reg()), subject, permanent), keys, deleted)
    {
      DeleteMetadataOf(subject, permanent);
      deleted, keys := DeleteVersionsOf(subject, permanent);
      if permanent {
        DeleteInfosOf(subject);
      }
    }

    /** Refused for the empty subject and for one with associations. */
    method DeleteSubject(subject: Subject, permanent: bool) returns (deleted: Option<seq<int>>, ghost keys: seq<SubjectJson>)
      requires Valid()
      modifies this`infoToSchemaCache, this`schemaToVersionCache, this`idToSchemaCache
      ensures Valid()
      ensures View() == Step(old(View()), MockState.DeleteSubject(subject, permanent))
      ensures deleted.Some? <==> Deletable(old(View()), subject)
      ensures deleted.Some? ==> VersionsOfKeys(old(Reg()), DeletedKeys(old(Reg()), subject, permanent), keys, deleted.value)
      ensures deleted.Some? ==> forall k :: k in keys <==>
                k in old(schemaToVersionCache) && k.subject == subject && (permanent || !old(schemaToVersionCache)[k].softDeleted)
    {
      var associations := GetAssociationsBySubject(subject, EVERYTHING, 0, -1);
      KeepEverything(At(subjectToAssocCache, subject));
      if associations.Invalid? {
        return None, [];
      }
      if |associations.associations| != 0 {
        return None, [];
      }
      SubjectDeletedKeepsValid(Reg(), subject, permanent);
      var versions, order := DeleteSubjectUnchecked(subject, permanent);
      return Some(versions), order;
    }

    method DeleteEntry(key: SubjectJson, version: int, permanent: bool)
      requires key in infoToSchemaCache && key in schemaToVersionCache && schemaToVersionCache[key].version == version
      modifies this`infoToSchemaCache, this`schemaToVersionCache, this`idToSchemaCache
      ensures Reg() == EntryDeleted(old(Reg()), key, permanent)
    {
      DeleteVersion(key, version, permanent);
      if key in infoToSchemaCache {
        var metadata := infoToSchemaCache[key].metadata;
        DeleteMetadata(key, metadata, permanent);
        if permanent && SubjectId(key.subject, metadata.id) in idToSchemaCache {
          idToSchemaCache := idToSchemaCache - {SubjectId(key.subject, metadata.id)};
        }
      }
    }

    method DeleteIfAtVersion(key: SubjectJson, subject: Subject, version: int, permanent: bool,
                             ghost before: Registry, ghost pending: set<SubjectJson>)
      requires RegistryModel.Valid(before) && pending <= before.versions.Keys && key in pending
      requires Reg() == VersionDeletedSoFar(before, subject, version, permanent, pending)
      modifies this`infoToSchemaCache, this`schemaToVersionCache, this`idToSchemaCache
      ensures Reg() == VersionDeletedSoFar(before, subject, version, permanent, pending - {key})
    {
      PendingIsUntouched(before, subject, version, permanent, pending, key);
      var value := schemaToVersionCache[key];
      if key.subject == subject && value.version == version {
        DeleteVersionOneMore(before, subject, version, permanent, pending, key);
        DeleteEntry(key, value.version, permanent);
      } else {
        SkipOneMore(before, subject, version, permanent, pending, key);
      }
    }

    method DeleteEntriesAt(subject: Subject, version: int, permanent: bool)
      requires RegistryModel.Valid(Reg())
      modifies this`infoToSchemaCache, this`schemaToVersionCache, this`idToSchemaCache
      ensures Reg() == VersionDeleted(old(Reg()), subject, version, permanent)
    {
      ghost var before := Reg();
      VersionDeletedSoFarEnds(before, subject, version, permanent);
      var pending := schemaToVersionCache.Keys;
      while pending != {}
        invariant pending <= before.versions.Keys
        invariant Reg() == VersionDeletedSoFar(before, subject, version, permanent, pending)
        decreases |pending|
      {
        var key :| key in pending;
        DeleteIfAtVersion(key, subject, version, permanent, before, pending);
        pending := pending - {key};
      }
    }

    /** Deletes every entry at the version, a live one and any soft-deleted ones
        that were given the same number earlier. */
    method DeleteSubjectVersion(subject: Subject, version: int, permanent: bool) returns (deleted: int)
      requires Valid()
      modifies this`infoToSchemaCache, this`schemaToVersionCache, this`idToSchemaCache
      ensures Valid()
      ensures View() == Step(old(View()), MockState.DeleteSubjectVersion(subject, version, permanent))
      ensures deleted == version
    {
      VersionDeletedKeepsValid(Reg(), subject, version, permanent);
      DeleteEntriesAt(subject, version, permanent);
      return version;
    }

    // ------------------------------------------------------------- associations

    /** `None` is a panic. */
    method ApplyFilter(list: seq<Association>, q: Query, offset: Int, limit: Int) returns (result: Option<seq<Association>>)
      ensures result.None? <==> Panics(|Keep(list, q)|, offset, limit)
      ensures result.Some? ==> result.value == Page(Keep(list, q), offset, limit)
    {
      var filtered := [];
      for i := 0 to |list|
        invariant filtered == Keep(list[..i], q)
      {
        KeepSnoc(list[..i], list[i], q);
        assert list[..i] + [list[i]] == list[..i + 1];
        var a := list[i];
        if q.resourceType != NoResourceType && a.resourceType != q.resourceType {
          continue;
        }
        if |q.types| > 0 && a.associationType !in q.types {
          continue;
        }
        if q.lifecycle != NoLifecycle && a.lifecycle != q.lifecycle {
          continue;
        }
        filtered := filtered + [a];
      }
      assert list[..|list|] == list;
      var start := if offset > |filtered| then |filtered| else offset;
      var end: int := Sum(start, limit);
      if limit <= 0 || end > |filtered| {
        end := |filtered|;
      }
      if start < 0 || end < start {
        return None;
      }
      return Some(filtered[start..end]);
    }

    /** Every stored association of the subject that matches, page by page. A
        subject without associations has none at any offset. */
    method GetAssociationsBySubject(subject: string, q: Query, offset: Int, limit: Int) returns (result: Listing)
      ensures result.Invalid? <==> subject == "" || q.lifecycle.UnknownLifecycle?
      ensures result.Panic? <==> !result.Invalid? && At(subjectToAssocCache, subject) != [] && Panics(|Keep(At(subjectToAssocCache, subject), q)|, offset, limit)
      ensures result.Listing? ==> result.associations == Page(Keep(At(subjectToAssocCache, subject), q), if offset < 0 then 0 else offset, limit)
    {
      if subject == "" || q.lifecycle.UnknownLifecycle? {
        return Invalid;
      }
      if subject !in subjectToAssocCache || |subjectToAssocCache[subject]| == 0 {
        return Listing([]);
      }
      var page := ApplyFilter(subjectToAssocCache[subject], q, offset, limit);
      return if page.None? then Panic else Listing(page.value);
    }

    method RemoveFromSlice(list: seq<Association>, a: Association) returns (result: seq<Association>)
      ensures result == Without(list, a)
    {
      for i := 0 to |list|
        invariant a !in list[..i]
      {
        if list[i] == a {
          WithoutAt(list, i);
          return list[..i] + list[i + 1..];
        }
      }
      WithoutAbsent(list, a);
      return list;
    }

    method RemoveAssociation(a: Association)
      modifies this`subjectToAssocCache, this`resourceIDToAssocCache, this`resourceAndAssocTypeCache
      ensures Idx() == Removed(old(Idx()), a)
    {
      var bySubject := RemoveFromSlice(At(subjectToAssocCache, a.subject), a);
      subjectToAssocCache := if |bySubject| == 0 then subjectToAssocCache - {a.subject} else subjectToAssocCache[a.subject := bySubject];
      var byResource := RemoveFromSlice(At(resourceIDToAssocCache, a.resourceID), a);
      resourceIDToAssocCache := if |byResource| == 0 then resourceIDToAssocCache - {a.resourceID} else resourceIDToAssocCache[a.resourceID := byResource];
      resourceAndAssocTypeCache := resourceAndAssocTypeCache - {KeyOf(a)};
    }

    method DeleteAssociation(a: Association, cascade: bool)
      modifies this
      ensures Idx() == Removed(old(Idx()), a)
      ensures Reg() == if cascade && a.lifecycle == STRONG then SubjectDeleted(old(Reg()), a.subject, true) else old(Reg())
    {
      if cascade && a.lifecycle == STRONG {
        SoftThenPermanent(Reg(), a.subject);
        var softly, k1 := DeleteSubjectUnchecked(a.subject, false);
        var permanently, k2 := DeleteSubjectUnchecked(a.subject, true);
      }
      RemoveAssociation(a);
    }

    method DeleteEach(gone: seq<Association>, cascade: bool)
      modifies this
      ensures Idx() == RemovedAll(old(Idx()), gone)
      ensures Reg() == if cascade then WithoutSubjects(old(Reg()), StrongSubjects(gone)) else old(Reg())
    {
      ghost var reg, idx := Reg(), Idx();
      assert WithoutSubjects(reg, StrongSubjects(gone[..0])) == reg;
      for i := 0 to |gone|
        invariant Idx() == RemovedAll(idx, gone[..i])
        invariant Reg() == if cascade then WithoutSubjects(reg, StrongSubjects(gone[..i])) else reg
      {
        RemovedAllSnoc(idx, gone[..i], gone[i]);
        assert gone[..i] + [gone[i]] == gone[..i + 1];
        StrongSubjectsSnoc(gone, i);
        WithoutOneMore(reg, StrongSubjects(gone[..i]), gone[i].subject);
        DeleteAssociation(gone[i], cascade);
      }
      assert gone[..|gone|] == gone;
    }

    method CheckDeletable(gone: seq<Association>, cascade: bool) returns (ok: bool)
      ensures ok <==> !Blocked(gone, cascade)
    {
      for i := 0 to |gone|
        invariant !Blocked(gone[..i], cascade)
      {
        if !cascade && gone[i].lifecycle == STRONG && gone[i].frozen {
          assert gone[i] in gone && Frozen(gone[i]);
          return false;
        }
      }
      assert gone[..|gone|] == gone;
      return true;
    }

    method FindMatches(resourceID: string, q: Query) returns (gone: seq<Association>)
      ensures gone == Found(Idx(), resourceID, q)
    {
      var page := ApplyFilter(At(resourceIDToAssocCache, resourceID), q, 0, -1);
      return page.value;
    }

    method DeleteMatches(resourceID: string, resourceType: ResourceType, types: seq<AssociationType>, cascade: bool) returns (ok: bool)
      requires Valid()
      modifies this
      ensures Valid()
      ensures View() == Step(old(View()), MockState.DeleteAssociations(resourceID, resourceType, types, cascade))
      ensures ok <==> !Blocked(Found(old(Idx()), resourceID, DeleteQuery(resourceType, types)), cascade)
    {
      var q := DeleteQuery(resourceType, types);
      var gone := FindMatches(resourceID, q);
      ok := CheckDeletable(gone, cascade);
      if ok {
        RemovedAllIsPurged(Idx(), resourceID, q);
        AssociationsDeletedKeepsInvariant(View(), resourceID, resourceType, types, cascade);
        DeleteEach(gone, cascade);
      }
    }

    /** All or nothing: a frozen match without cascade leaves everything as it
        was; otherwise exactly the associations asked for are gone from all three
        indexes. */
    method DeleteAssociations(resourceID: string, resourceType: ResourceType, types: seq<AssociationType>, cascade: bool) returns (ok: bool)
      requires Valid()
      modifies this
      ensures Valid()
      ensures View() == Step(old(View()), MockState.DeleteAssociations(resourceID, resourceType, types, cascade))
      ensures ok <==> cascade || !Runs.FrozenAskedFor(old(Idx()), resourceID, resourceType, types)
      ensures if ok then Runs.ExactlyWithout(old(Idx()), Idx(), resourceID, resourceType, types) else View() == old(View())
    {
      Runs.BlockedIff(Idx(), resourceID, resourceType, types, cascade);
      Runs.DeletionIsAllOrNothing(View(), resourceID, resourceType, types, cascade);
      ok := DeleteMatches(resourceID, resourceType, types, cascade);
    }

    /** Checks the request while filling in its defaults. */
    method ValidateRequest(request: CreateRequest) returns (ok: bool, infos: seq<CreateInfo>)
      ensures ok <==> ValidRequest(request)
      ensures ok ==> infos == Infos(request)
    {
      infos := [];
      if request.resourceName == "" || request.resourceNamespace == "" || request.resourceID == "" || request.associations.None? {
        return false, [];
      }
      var resourceType := if request.resourceType == NoResourceType then Topic else request.resourceType;
      var asked := request.associations.value;
      for i := 0 to |asked|
        invariant infos == Infos(request)[..i]
        invariant forall info :: info in infos ==> ValidInfo(resourceType, info)
      {
        var info := asked[i];
        if info.associationType == NoAssociationType {
          info := info.(associationType := Value);
        }
        if info.lifecycle == NoLifecycle {
          info := info.(lifecycle := STRONG);
        }
        assert info == Infos(request)[i] && info in Infos(request);
        if info.subject == "" || resourceType != Topic || (info.associationType != Key && info.associationType != Value) {
          return false, [];
        }
        if (info.lifecycle != STRONG && info.lifecycle != WEAK) || (info.lifecycle == WEAK && info.frozen) {
          return false, [];
        }
        infos := infos + [info];
      }
      return true, infos;
    }

    method TypesAreDistinct(infos: seq<CreateInfo>) returns (ok: bool)
      ensures ok <==> DistinctTypes(infos)
    {
      var seen: set<AssociationType> := {};
      for i := 0 to |infos|
        invariant forall t :: t in seen <==> exists j :: 0 <= j < i && infos[j].associationType == t
        invariant DistinctTypes(infos[..i])
      {
        if infos[i].associationType in seen {
          return false;
        }
        seen := seen + {infos[i].associationType};
      }
      assert infos[..|infos|] == infos;
      return true;
    }

    method SubjectsExist(infos: seq<CreateInfo>) returns (ok: bool)
      requires RegistryModel.Valid(Reg())
      ensures ok <==> forall info :: info in infos ==> Postable(Reg(), info)
    {
      for i := 0 to |infos|
        invariant forall info :: info in infos[..i] ==> Postable(Reg(), info)
      {
        var latest := LatestVersion(infos[i].subject);
        if infos[i].schema.None? && latest < 0 {
          assert infos[i] in infos;
          return false;
        }
      }
      assert infos[..|infos|] == infos;
      return true;
    }

    method SubjectsAccept(request: CreateRequest, infos: seq<CreateInfo>) returns (ok: bool)
      requires NoneEmpty(subjectToAssocCache)
      ensures ok <==> forall info :: info in infos ==> Admissible(Idx(), request, info)
    {
      for i := 0 to |infos|
        invariant forall info :: info in infos[..i] ==> Admissible(Idx(), request, info)
      {
        var info := infos[i];
        assert info in infos;
        var asked := NewAssociation(request, info, NO_GUID);
        if KeyOf(asked) in resourceAndAssocTypeCache {
          if !SameButGuid(resourceAndAssocTypeCache[KeyOf(asked)], asked) {
            return false;
          }
        } else if info.subject in subjectToAssocCache {
          if info.lifecycle == STRONG || subjectToAssocCache[info.subject][0].lifecycle == STRONG {
            return false;
          }
        }
      }
      assert infos[..|infos|] == infos;
      return true;
    }

    method PostSchemas(infos: seq<CreateInfo>) returns (ghost picks: seq<Guid>)
      requires Valid()
      modifies this`infoToSchemaCache, this`idToSchemaCache, this`guidToSchemaCache, this`schemaToVersionCache, this`counter, this`nextGuid
      ensures Valid()
      ensures GoodPicks(old(Reg()), infos, picks)
      ensures Reg() == Posted(old(Reg()), infos, picks)
    {
      picks := [];
      for i := 0 to |infos|
        invariant Valid() && Idx() == old(Idx())
        invariant GoodPicks(old(Reg()), infos[..i], picks)
        invariant Reg() == Posted(old(Reg()), infos[..i], picks)
      {
        ghost var pick := NO_GUID;
        if infos[i].schema.Some? {
          var result := RegisterFullResponse(infos[i].subject, infos[i].schema.value);
          pick := result.guid;
        }
        PostedSnoc(old(Reg()), infos[..i], picks, infos[i], pick);
        assert infos[..i] + [infos[i]] == infos[..i + 1];
        picks := picks + [pick];
      }
      assert infos[..|infos|] == infos;
    }

    method WriteAssociation(a: Association)
      modifies this`subjectToAssocCache, this`resourceIDToAssocCache, this`resourceAndAssocTypeCache
      ensures Idx() == Inserted(old(Idx()), a)
    {
      resourceAndAssocTypeCache := resourceAndAssocTypeCache[KeyOf(a) := a];
      subjectToAssocCache := subjectToAssocCache[a.subject := At(subjectToAssocCache, a.subject) + [a]];
      resourceIDToAssocCache := resourceIDToAssocCache[a.resourceID := At(resourceIDToAssocCache, a.resourceID) + [a]];
    }

    method WriteAssociations(request: CreateRequest, infos: seq<CreateInfo>)
      requires infos == Infos(request)
      modifies this`subjectToAssocCache, this`resourceIDToAssocCache, this`resourceAndAssocTypeCache, this`nextGuid
      ensures nextGuid == old(nextGuid) + |infos|
      ensures Idx() == InsertedAll(old(Idx()), NewAssociations(request, old(nextGuid)))
      ensures Meanings.AllAsAsked(request, NewAssociations(request, old(nextGuid)))
    {
      ghost var added := NewAssociations(request, nextGuid);
      for i := 0 to |infos|
        invariant nextGuid == old(nextGuid) + i
        invariant Idx() == InsertedAll(old(Idx()), added[..i])
      {
        var a := NewAssociation(request, infos[i], nextGuid);
        assert a == added[i];
        InsertOneMore(old(Idx()), added, i);
        nextGuid := nextGuid + 1;
        WriteAssociation(a);
      }
      assert added[..|infos|] == added;
      Meanings.NewAreAsAsked(request, old(nextGuid));
    }

    method CheckRequest(request: CreateRequest) returns (error: Option<CreateError>, infos: seq<CreateInfo>)
      requires Valid()
      ensures error == Rejection(View(), request)
      ensures error.None? ==> infos == Infos(request)
    {
      var valid;
      valid, infos := ValidateRequest(request);
      if !valid {
        return Some(BadRequest), infos;
      }
      var distinct := TypesAreDistinct(infos);
      if !distinct {
        return Some(DuplicateType), infos;
      }
      var exist := SubjectsExist(infos);
      if !exist {
        return Some(NoActiveVersion), infos;
      }
      var accept := SubjectsAccept(request, infos);
      if !accept {
        return Some(Conflict), infos;
      }
      return None, infos;
    }

    method CarryOut(request: CreateRequest, infos: seq<CreateInfo>) returns (ghost picks: seq<Guid>)
      requires Valid() && infos == Infos(request)
      modifies this
      ensures GoodPicks(old(Reg()), infos, picks)
      ensures Reg() == var r := Posted(old(Reg()), infos, picks); r.(nextGuid := r.nextGuid + |picks|)
      ensures Idx() == InsertedAll(old(Idx()), NewAssociations(request, Posted(old(Reg()), infos, picks).nextGuid))
    {
      picks := PostSchemas(infos);
      WriteAssociations(request, infos);
    }

    /** Carried out as a whole or refused with nothing changed. */
    method CreateAssociation(request: CreateRequest) returns (error: Option<CreateError>, ghost picks: seq<Guid>)
      requires Valid()
      modifies this
      ensures Valid()
      ensures error == Rejection(old(View()), request)
      ensures Possible(old(View()), MockState.CreateAssociation(request, picks))
      ensures View() == Step(old(View()), MockState.CreateAssociation(request, picks))
      ensures error.Some? ==> View() == old(View())
      ensures error.None? ==> Meanings.AllFiled(old(View()), View(), request)
    {
      var infos;
      error, infos := CheckRequest(request);
      if error.Some? {
        picks := seq(|Infos(request)|, i => NO_GUID);
        return;
      }
      picks := CarryOut(request, infos);
      CreatedKeepsInvariant(old(View()), request, picks);
      Meanings.AcceptedIsFiled(old(View()), request, picks);
    }
  }
}
