/** The schema tables of the mock Schema Registry client as a value: what
    registration and the deletions do to them, and the agreement between them
    that every operation keeps. */
module RegistryModel {

  type Subject = string

  /** A schema up to `schemasEqual`; its canonical JSON is its identity. */
  datatype Schema = Schema(canonical: string)

  /** GUIDs are tokens handed out by a counter; `NO_GUID` is the empty string. */
  type Guid = nat
  const NO_GUID: Guid := 0

  datatype SubjectJson = SubjectJson(subject: Subject, json: Schema)
  datatype SubjectId = SubjectId(subject: Subject, id: int)

  datatype SchemaMetadata = SchemaMetadata(schema: Schema, id: int, guid: Guid, subject: Subject, version: int)

  datatype MetadataEntry = MetadataEntry(metadata: SchemaMetadata, softDeleted: bool)
  datatype InfoEntry = InfoEntry(info: Schema, softDeleted: bool)
  datatype VersionEntry = VersionEntry(version: int, softDeleted: bool)

  datatype Registry = Registry(
    info: map<SubjectJson, MetadataEntry>,
    ids: map<SubjectId, InfoEntry>,
    guids: map<Guid, InfoEntry>,
    versions: map<SubjectJson, VersionEntry>,
    counter: int,
    nextGuid: Guid)

  const EmptyRegistry := Registry(map[], map[], map[], map[], 0, NO_GUID + 1)

  // ---------------------------------------------------------------- invariant

  predicate Live(r: Registry, k: SubjectJson) {
    k in r.versions && !r.versions[k].softDeleted
  }

  function IdKey(r: Registry, k: SubjectJson): SubjectId
    requires k in r.info
  {
    SubjectId(k.subject, r.info[k].metadata.id)
  }

  function InfoKey(r: Registry, i: SubjectId): SubjectJson
    requires i in r.ids
  {
    SubjectJson(i.subject, r.ids[i].info)
  }

  /** The entry under `k` agrees across the four tables. */
  ghost predicate EntryOk(r: Registry, k: SubjectJson) {
    && k in r.info && k in r.versions
    && r.info[k].softDeleted == r.versions[k].softDeleted
    && r.info[k].metadata.schema == k.json
    && r.info[k].metadata.subject == "" && r.info[k].metadata.version == 0
    && 0 < r.info[k].metadata.id <= r.counter
    && IdKey(r, k) in r.ids
    && r.ids[IdKey(r, k)] == InfoEntry(k.json, false)
    && r.info[k].metadata.guid in r.guids
    && r.guids[r.info[k].metadata.guid].info == k.json
    && 0 < r.versions[k].version
  }

  /** The id `i` belongs to a registration of its subject, and to no other subject. */
  ghost predicate IdOk(r: Registry, i: SubjectId) {
    && i in r.ids
    && InfoKey(r, i) in r.info
    && r.info[InfoKey(r, i)].metadata.id == i.id
    && forall j :: j in r.ids && j.id == i.id ==> j == i
  }

  ghost predicate GuidOk(r: Registry, g: Guid) {
    g in r.guids && NO_GUID < g < r.nextGuid && !r.guids[g].softDeleted
  }

  ghost predicate SameLiveVersion(r: Registry, k: SubjectJson, l: SubjectJson) {
    Live(r, k) && Live(r, l) && k.subject == l.subject && r.versions[k].version == r.versions[l].version
  }

  ghost predicate EntriesOk(r: Registry) {
    forall k {:trigger EntryOk(r, k)} :: k in r.info || k in r.versions ==> EntryOk(r, k)
  }

  ghost predicate IdsOk(r: Registry) {
    && 0 <= r.counter
    && forall i {:trigger IdOk(r, i)} :: i in r.ids ==> IdOk(r, i)
  }

  ghost predicate GuidsOk(r: Registry) {
    && NO_GUID < r.nextGuid
    && forall g {:trigger GuidOk(r, g)} :: g in r.guids ==> GuidOk(r, g)
  }

  ghost predicate VersionsDistinct(r: Registry) {
    forall k, l {:trigger SameLiveVersion(r, k, l)} :: SameLiveVersion(r, k, l) ==> k == l
  }

  ghost predicate Valid(r: Registry) {
    EntriesOk(r) && IdsOk(r) && GuidsOk(r) && VersionsDistinct(r)
  }

  // ----------------------------------------------------------------- versions

  ghost function LiveKeys(r: Registry, subject: Subject): set<SubjectJson> {
    set k | k in r.versions && k.subject == subject && !r.versions[k].softDeleted
  }

  /** Among `keys`, one whose version is the greatest. */
  ghost function Newest(r: Registry, keys: set<SubjectJson>): (k: SubjectJson)
    requires keys != {} && keys <= r.versions.Keys
    ensures k in keys && forall l :: l in keys ==> r.versions[l].version <= r.versions[k].version
  {
    var x :| x in keys;
    if keys - {x} == {} then
      assert keys == {x};
      x
    else
      var y := Newest(r, keys - {x});
      assert forall l :: l in keys ==> l == x || l in keys - {x};
      if r.versions[x].version < r.versions[y].version then y else x
  }

  /** The highest live version of a subject, -1 when it has none. */
  ghost function Latest(r: Registry, subject: Subject): int {
    if LiveKeys(r, subject) == {} then -1 else r.versions[Newest(r, LiveKeys(r, subject))].version
  }

  ghost function NextVersion(r: Registry, subject: Subject): int {
    if LiveKeys(r, subject) == {} then 1 else Latest(r, subject) + 1
  }

  lemma NextVersionIsNew(r: Registry, subject: Subject)
    requires Valid(r)
    ensures 0 < NextVersion(r, subject)
    ensures forall k :: Live(r, k) && k.subject == subject ==> r.versions[k].version < NextVersion(r, subject)
    ensures if exists k :: Live(r, k) && k.subject == subject
            then exists k :: Live(r, k) && k.subject == subject && r.versions[k].version == NextVersion(r, subject) - 1
            else NextVersion(r, subject) == 1
  {
    forall k | Live(r, k) && k.subject == subject ensures k in LiveKeys(r, subject) && r.versions[k].version < NextVersion(r, subject) {
      assert k in LiveKeys(r, subject);
    }
    if LiveKeys(r, subject) != {} {
      var newest := Newest(r, LiveKeys(r, subject));
      assert EntryOk(r, newest);
      assert Live(r, newest) && newest.subject == subject && r.versions[newest].version == NextVersion(r, subject) - 1;
    }
  }

  // --------------------------------------------------------------- operations

  /** What registering leaves behind. `pick` resolves the one free choice: the
      GUID that the scan of the GUID table happens to meet first. */
  ghost function Registered(r: Registry, k: SubjectJson, pick: Guid): (Registry, SchemaMetadata) {
    if k in r.info && !r.info[k].softDeleted then (r, r.info[k].metadata)
    else if k in r.info then
      var m := SchemaMetadata(k.json, r.info[k].metadata.id, pick, "", 0);
      (r.(info := r.info[k := MetadataEntry(m, false)],
          versions := r.versions[k := VersionEntry(NextVersion(r, k.subject), false)]), m)
    else
      var m := SchemaMetadata(k.json, r.counter + 1, r.nextGuid, "", 0);
      (r.(info := r.info[k := MetadataEntry(m, false)],
          versions := r.versions[k := VersionEntry(NextVersion(r, k.subject), false)],
          ids := r.ids[SubjectId(k.subject, r.counter + 1) := InfoEntry(k.json, false)],
          guids := r.guids[r.nextGuid := InfoEntry(k.json, false)],
          counter := r.counter + 1,
          nextGuid := r.nextGuid + 1), m)
  }

  ghost predicate GoodPick(r: Registry, k: SubjectJson, pick: Guid) {
    k in r.info && r.info[k].softDeleted ==> pick in r.guids && r.guids[pick].info == k.json
  }

  function SubjectDeleted(r: Registry, subject: Subject, permanent: bool): Registry {
    if permanent then
      r.(info := map k | k in r.info && k.subject != subject :: r.info[k],
         versions := map k | k in r.versions && k.subject != subject :: r.versions[k],
         ids := map i | i in r.ids && i.subject != subject :: r.ids[i])
    else
      r.(info := map k | k in r.info :: if k.subject == subject then r.info[k].(softDeleted := true) else r.info[k],
         versions := map k | k in r.versions :: if k.subject == subject then r.versions[k].(softDeleted := true) else r.versions[k])
  }

  predicate AtVersion(r: Registry, k: SubjectJson, subject: Subject, version: int) {
    k in r.versions && k.subject == subject && r.versions[k].version == version
  }

  function VersionDeleted(r: Registry, subject: Subject, version: int, permanent: bool): Registry {
    if permanent then
      r.(info := map k | k in r.info && !AtVersion(r, k, subject, version) :: r.info[k],
         versions := map k | k in r.versions && !AtVersion(r, k, subject, version) :: r.versions[k],
         ids := map i | i in r.ids && !AtVersion(r, InfoKey(r, i), subject, version) :: r.ids[i])
    else
      r.(info := map k | k in r.info :: if AtVersion(r, k, subject, version) then r.info[k].(softDeleted := true) else r.info[k],
         versions := map k | k in r.versions :: if AtVersion(r, k, subject, version) then r.versions[k].(softDeleted := true) else r.versions[k])
  }

  // --------------------------------------------------- every operation keeps it

  lemma RegisteredKeepsValid(r: Registry, k: SubjectJson, pick: Guid)
    requires Valid(r) && GoodPick(r, k, pick)
    ensures Valid(Registered(r, k, pick).0)
  {
    var s := Registered(r, k, pick).0;
    RegisteredKeepsIds(r, k, pick);
    RegisteredKeepsVersions(r, k, pick);
    forall l | l in s.info || l in s.versions ensures EntryOk(s, l) {
      if l == k {
        RegisteredEntry(r, k, pick);
      } else {
        RegisteredFrame(r, k, pick, l);
      }
    }
    forall g | g in s.guids ensures GuidOk(s, g) {
      assert g in r.guids ==> GuidOk(r, g);
    }
  }

  lemma RegisteredFrame(r: Registry, k: SubjectJson, pick: Guid, l: SubjectJson)
    requires EntriesOk(r) && GuidsOk(r) && l != k && (l in r.info || l in r.versions)
    ensures EntryOk(Registered(r, k, pick).0, l)
    ensures Registered(r, k, pick).0.info[l] == r.info[l] && Registered(r, k, pick).0.versions[l] == r.versions[l]
  {
    assert EntryOk(r, l);
    assert GuidOk(r, r.info[l].metadata.guid);
  }

  lemma RegisteredEntry(r: Registry, k: SubjectJson, pick: Guid)
    requires Valid(r) && GoodPick(r, k, pick)
    ensures EntryOk(Registered(r, k, pick).0, k)
    ensures Live(Registered(r, k, pick).0, k)
  {
    NextVersionIsNew(r, k.subject);
    assert k in r.info || k in r.versions ==> EntryOk(r, k);
  }

  lemma RegisteredKeepsIds(r: Registry, k: SubjectJson, pick: Guid)
    requires EntriesOk(r) && IdsOk(r)
    ensures IdsOk(Registered(r, k, pick).0)
  {
    var s := Registered(r, k, pick).0;
    forall j | j in r.ids ensures 0 < j.id <= r.counter {
      assert IdOk(r, j) && EntryOk(r, InfoKey(r, j));
    }
    forall i | i in s.ids ensures IdOk(s, i) {
      assert i in r.ids ==> IdOk(r, i);
    }
  }

  lemma RegisteredKeepsVersions(r: Registry, k: SubjectJson, pick: Guid)
    requires Valid(r)
    ensures VersionsDistinct(Registered(r, k, pick).0)
  {
    var s := Registered(r, k, pick).0;
    NextVersionIsNew(r, k.subject);
    forall l, m | SameLiveVersion(s, l, m) ensures l == m {
      assert k in r.info ==> EntryOk(r, k);
      assert l != k && m != k ==> SameLiveVersion(r, l, m);
    }
  }

  lemma SubjectDeletedKeepsValid(r: Registry, subject: Subject, permanent: bool)
    requires Valid(r)
    ensures Valid(SubjectDeleted(r, subject, permanent))
  {
    var s := SubjectDeleted(r, subject, permanent);
    forall l | l in s.info || l in s.versions ensures EntryOk(s, l) {
      assert EntryOk(r, l);
    }
    forall g | g in s.guids ensures GuidOk(s, g) {
      assert GuidOk(r, g);
    }
    SubjectDeletedKeepsIds(r, subject, permanent);
  }

  lemma SubjectDeletedKeepsIds(r: Registry, subject: Subject, permanent: bool)
    requires IdsOk(r) && VersionsDistinct(r)
    ensures IdsOk(SubjectDeleted(r, subject, permanent))
    ensures VersionsDistinct(SubjectDeleted(r, subject, permanent))
  {
    var s := SubjectDeleted(r, subject, permanent);
    forall i | i in s.ids ensures IdOk(s, i) {
      assert IdOk(r, i);
    }
    forall l, m | SameLiveVersion(s, l, m) ensures l == m {
      assert SameLiveVersion(r, l, m);
    }
  }

  lemma VersionDeletedKeepsValid(r: Registry, subject: Subject, version: int, permanent: bool)
    requires Valid(r)
    ensures Valid(VersionDeleted(r, subject, version, permanent))
  {
    var s := VersionDeleted(r, subject, version, permanent);
    forall l | l in s.info || l in s.versions ensures EntryOk(s, l) {
      assert EntryOk(r, l);
    }
    forall g | g in s.guids ensures GuidOk(s, g) {
      assert GuidOk(r, g);
    }
    VersionDeletedKeepsIds(r, subject, version, permanent);
  }

  lemma VersionDeletedKeepsIds(r: Registry, subject: Subject, version: int, permanent: bool)
    requires IdsOk(r) && VersionsDistinct(r)
    ensures IdsOk(VersionDeleted(r, subject, version, permanent))
    ensures VersionsDistinct(VersionDeleted(r, subject, version, permanent))
  {
    var s := VersionDeleted(r, subject, version, permanent);
    forall i | i in s.ids ensures IdOk(s, i) {
      assert IdOk(r, i);
    }
    forall l, m | SameLiveVersion(s, l, m) ensures l == m {
      assert SameLiveVersion(r, l, m);
    }
  }
}
