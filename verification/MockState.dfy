/** The whole state of the mock Schema Registry client and the effect of each
    of its state-changing calls, as functions from state to state. */
module MockState {
  import opened RegistryModel
  import opened AssociationModel
  import opened Wrappers

  datatype State = State(reg: Registry, idx: Index)

  const EmptyState := State(EmptyRegistry, EmptyIndex)

  datatype CreateInfo = CreateInfo(
    subject: string,
    associationType: AssociationType,
    lifecycle: LifecyclePolicy,
    frozen: bool,
    schema: Option<Schema>)

  /** `associations` is `None` for a nil slice. */
  datatype CreateRequest = CreateRequest(
    resourceName: string,
    resourceNamespace: string,
    resourceID: string,
    resourceType: ResourceType,
    associations: Option<seq<CreateInfo>>)

  datatype CreateError = BadRequest | DuplicateType | NoActiveVersion | Conflict

  // ------------------------------------------------------- request validation

  function WithDefaults(info: CreateInfo): CreateInfo {
    var typed := if info.associationType == NoAssociationType then info.(associationType := Value) else info;
    if typed.lifecycle == NoLifecycle then typed.(lifecycle := STRONG) else typed
  }

  function TypeOrDefault(request: CreateRequest): ResourceType {
    if request.resourceType == NoResourceType then Topic else request.resourceType
  }

  /** The associations asked for, with the defaults filled in. */
  function Infos(request: CreateRequest): (infos: seq<CreateInfo>) {
    if request.associations.None? then []
    else seq(|request.associations.value|, i requires 0 <= i < |request.associations.value| => WithDefaults(request.associations.value[i]))
  }

  predicate ValidInfo(resourceType: ResourceType, info: CreateInfo) {
    && info.subject != ""
    && resourceType == Topic
    && (info.associationType == Key || info.associationType == Value)
    && (info.lifecycle == STRONG || info.lifecycle == WEAK)
    && !(info.lifecycle == WEAK && info.frozen)
  }

  predicate ValidRequest(request: CreateRequest) {
    && request.resourceName != "" && request.resourceNamespace != "" && request.resourceID != ""
    && request.associations.Some?
    && forall info :: info in Infos(request) ==> ValidInfo(TypeOrDefault(request), info)
  }

  predicate DistinctTypes(infos: seq<CreateInfo>) {
    forall i, j :: 0 <= i < j < |infos| ==> infos[i].associationType != infos[j].associationType
  }

  function NewAssociation(request: CreateRequest, info: CreateInfo, guid: Guid): Association {
    Association(info.subject, guid, request.resourceName, request.resourceNamespace, request.resourceID,
                TypeOrDefault(request), info.associationType, info.lifecycle, info.frozen)
  }

  /** Either the association exists already as asked for, or its subject has
      room for it: nothing at all for a STRONG one, nothing STRONG for a WEAK one. */
  predicate Admissible(x: Index, request: CreateRequest, info: CreateInfo)
    requires NoneEmpty(x.bySubject)
  {
    var a := NewAssociation(request, info, NO_GUID);
    if KeyOf(a) in x.byKey then SameButGuid(x.byKey[KeyOf(a)], a)
    else info.subject in x.bySubject ==> info.lifecycle != STRONG && x.bySubject[info.subject][0].lifecycle != STRONG
  }

  ghost predicate Postable(r: Registry, info: CreateInfo) {
    info.schema.Some? || LiveKeys(r, info.subject) != {}
  }

  /** Why a request is refused, or `None` when it is carried out. */
  ghost function Rejection(s: State, request: CreateRequest): Option<CreateError>
    requires NoneEmpty(s.idx.bySubject)
  {
    if !ValidRequest(request) then Some(BadRequest)
    else if !DistinctTypes(Infos(request)) then Some(DuplicateType)
    else if exists info :: info in Infos(request) && !Postable(s.reg, info) then Some(NoActiveVersion)
    else if exists info :: info in Infos(request) && !Admissible(s.idx, request, info) then Some(Conflict)
    else None
  }

  // ---------------------------------------------------------- create, delete

  /** Posting the schemas of the request in order; `picks` resolves, for each,
      the GUID choice of the registration. */
  ghost function Posted(r: Registry, infos: seq<CreateInfo>, picks: seq<Guid>): Registry
    requires |infos| == |picks|
    decreases |infos|
  {
    if infos == [] then r
    else Posted(PostedOne(r, infos[0], picks[0]), infos[1..], picks[1..])
  }

  ghost function PostedOne(r: Registry, info: CreateInfo, pick: Guid): Registry {
    if info.schema.None? then r else Registered(r, SubjectJson(info.subject, info.schema.value), pick).0
  }

  ghost predicate GoodPicks(r: Registry, infos: seq<CreateInfo>, picks: seq<Guid>)
    decreases |infos|
  {
    && |infos| == |picks|
    && (infos != [] ==>
          && (infos[0].schema.Some? ==> GoodPick(r, SubjectJson(infos[0].subject, infos[0].schema.value), picks[0]))
          && GoodPicks(PostedOne(r, infos[0], picks[0]), infos[1..], picks[1..]))
  }

  lemma {:induction false} PostedSnoc(r: Registry, infos: seq<CreateInfo>, picks: seq<Guid>, info: CreateInfo, pick: Guid)
    requires GoodPicks(r, infos, picks)
    requires info.schema.Some? ==> GoodPick(Posted(r, infos, picks), SubjectJson(info.subject, info.schema.value), pick)
    ensures GoodPicks(r, infos + [info], picks + [pick])
    ensures Posted(r, infos + [info], picks + [pick]) == PostedOne(Posted(r, infos, picks), info, pick)
    decreases |infos|
  {
    if infos == [] {
      assert infos + [info] == [info] && picks + [pick] == [pick];
    } else {
      PostedSnoc(PostedOne(r, infos[0], picks[0]), infos[1..], picks[1..], info, pick);
      assert (infos + [info])[1..] == infos[1..] + [info] && (picks + [pick])[1..] == picks[1..] + [pick];
    }
  }

  function NewAssociations(request: CreateRequest, guid: Guid): (added: seq<Association>)
    ensures |added| == |Infos(request)|
  {
    seq(|Infos(request)|, i requires 0 <= i < |Infos(request)| => NewAssociation(request, Infos(request)[i], guid + i))
  }

  ghost function Created(s: State, request: CreateRequest, picks: seq<Guid>): State
    requires NoneEmpty(s.idx.bySubject) && |picks| == |Infos(request)|
  {
    if Rejection(s, request).Some? then s
    else
      var r := Posted(s.reg, Infos(request), picks);
      State(r.(nextGuid := r.nextGuid + |picks|), InsertedAll(s.idx, NewAssociations(request, r.nextGuid)))
  }

  predicate Frozen(a: Association) {
    a.lifecycle == STRONG && a.frozen
  }

  predicate Blocked(gone: seq<Association>, cascade: bool) {
    !cascade && exists a :: a in gone && Frozen(a)
  }

  function StrongSubjects(gone: seq<Association>): set<Subject> {
    set a | a in gone && a.lifecycle == STRONG :: a.subject
  }

  function WithoutSubjects(r: Registry, subjects: set<Subject>): Registry {
    r.(info := map k | k in r.info && k.subject !in subjects :: r.info[k],
       versions := map k | k in r.versions && k.subject !in subjects :: r.versions[k],
       ids := map i | i in r.ids && i.subject !in subjects :: r.ids[i])
  }

  /** A soft delete changes nothing that the permanent one leaves. */
  lemma SoftThenPermanent(r: Registry, subject: Subject)
    ensures SubjectDeleted(SubjectDeleted(r, subject, false), subject, true) == SubjectDeleted(r, subject, true)
  {
    assert SubjectDeleted(SubjectDeleted(r, subject, false), subject, true).info == SubjectDeleted(r, subject, true).info;
    assert SubjectDeleted(SubjectDeleted(r, subject, false), subject, true).versions == SubjectDeleted(r, subject, true).versions;
  }

  lemma WithoutOneMore(r: Registry, subjects: set<Subject>, subject: Subject)
    ensures SubjectDeleted(WithoutSubjects(r, subjects), subject, true) == WithoutSubjects(r, subjects + {subject})
  {
    var s := SubjectDeleted(WithoutSubjects(r, subjects), subject, true);
    var t := WithoutSubjects(r, subjects + {subject});
    assert s.info == t.info;
    assert s.versions == t.versions;
    assert s.ids == t.ids;
  }

  function DeleteQuery(resourceType: ResourceType, types: seq<AssociationType>): Query {
    Query(resourceType, types, NoLifecycle)
  }

  /** Nothing happens when a frozen association is in the way; otherwise every
      match leaves the indexes, and a cascade takes the subjects of the STRONG
      ones with it. */
  function AssociationsDeleted(s: State, resourceID: string, resourceType: ResourceType,
                               types: seq<AssociationType>, cascade: bool): State
  {
    var gone := Found(s.idx, resourceID, DeleteQuery(resourceType, types));
    if Blocked(gone, cascade) then s
    else State(if cascade then WithoutSubjects(s.reg, StrongSubjects(gone)) else s.reg,
               Purged(s.idx, resourceID, DeleteQuery(resourceType, types)))
  }

  predicate Deletable(s: State, subject: Subject) {
    subject != "" && At(s.idx.bySubject, subject) == []
  }

  // ----------------------------------------------------------------- the calls

  datatype Call =
    | Register(subject: Subject, schema: Schema, pick: Guid)
    | DeleteSubject(subject: Subject, permanent: bool)
    | DeleteSubjectVersion(subject: Subject, version: int, permanent: bool)
    | CreateAssociation(request: CreateRequest, picks: seq<Guid>)
    | DeleteAssociations(resourceID: string, resourceType: ResourceType, types: seq<AssociationType>, cascade: bool)

  /** The GUID choices recorded in the call are ones the scan could make. */
  ghost predicate Possible(s: State, c: Call)
    requires NoneEmpty(s.idx.bySubject)
  {
    match c
    case Register(subject, schema, pick) => GoodPick(s.reg, SubjectJson(subject, schema), pick)
    case CreateAssociation(request, picks) =>
      |picks| == |Infos(request)| && (Rejection(s, request).None? ==> GoodPicks(s.reg, Infos(request), picks))
    case _ => true
  }

  ghost function Step(s: State, c: Call): State
    requires NoneEmpty(s.idx.bySubject) && Possible(s, c)
  {
    match c
    case Register(subject, schema, pick) => s.(reg := Registered(s.reg, SubjectJson(subject, schema), pick).0)
    case DeleteSubject(subject, permanent) =>
      if Deletable(s, subject) then s.(reg := SubjectDeleted(s.reg, subject, permanent)) else s
    case DeleteSubjectVersion(subject, version, permanent) =>
      s.(reg := VersionDeleted(s.reg, subject, version, permanent))
    case CreateAssociation(request, picks) => Created(s, request, picks)
    case DeleteAssociations(resourceID, resourceType, types, cascade) =>
      AssociationsDeleted(s, resourceID, resourceType, types, cascade)
  }

  // ----------------------------------------------------- the invariant is kept

  ghost predicate Invariant(s: State) {
    Valid(s.reg) && Agree(s.idx) && AllWellFormed(s.idx)
  }

  lemma WithoutSubjectsKeepsValid(r: Registry, subjects: set<Subject>)
    requires Valid(r)
    ensures Valid(WithoutSubjects(r, subjects))
  {
    var s := WithoutSubjects(r, subjects);
    forall l | l in s.info || l in s.versions ensures EntryOk(s, l) {
      assert EntryOk(r, l);
    }
    forall g | g in s.guids ensures GuidOk(s, g) {
      assert GuidOk(r, g);
    }
    WithoutSubjectsKeepsIds(r, subjects);
  }

  lemma WithoutSubjectsKeepsIds(r: Registry, subjects: set<Subject>)
    requires IdsOk(r) && VersionsDistinct(r)
    ensures IdsOk(WithoutSubjects(r, subjects)) && VersionsDistinct(WithoutSubjects(r, subjects))
  {
    var s := WithoutSubjects(r, subjects);
    forall i | i in s.ids ensures IdOk(s, i) {
      assert IdOk(r, i);
    }
    forall l, m | SameLiveVersion(s, l, m) ensures l == m {
      assert SameLiveVersion(r, l, m);
    }
  }

  lemma MoreGuidsKeepValid(r: Registry, n: nat)
    requires Valid(r)
    ensures Valid(r.(nextGuid := r.nextGuid + n))
  {
    var s := r.(nextGuid := r.nextGuid + n);
    forall l | l in s.info || l in s.versions ensures EntryOk(s, l) {
      assert EntryOk(r, l);
    }
    forall g | g in s.guids ensures GuidOk(s, g) {
      assert GuidOk(r, g);
    }
    forall i | i in s.ids ensures IdOk(s, i) {
      assert IdOk(r, i);
    }
    forall l, m | SameLiveVersion(s, l, m) ensures l == m {
      assert SameLiveVersion(r, l, m);
    }
  }

  lemma {:induction false} PostedKeepsValid(r: Registry, infos: seq<CreateInfo>, picks: seq<Guid>)
    requires Valid(r) && GoodPicks(r, infos, picks)
    ensures Valid(Posted(r, infos, picks))
    decreases |infos|
  {
    if infos != [] {
      if infos[0].schema.Some? {
        RegisteredKeepsValid(r, SubjectJson(infos[0].subject, infos[0].schema.value), picks[0]);
      }
      PostedKeepsValid(PostedOne(r, infos[0], picks[0]), infos[1..], picks[1..]);
    }
  }

  /** An accepted request's associations fit the key index. */
  lemma AcceptedFits(s: State, request: CreateRequest, guid: Guid)
    requires NoneEmpty(s.idx.bySubject) && Rejection(s, request).None?
    ensures Fits(s.idx, NewAssociations(request, guid))
    ensures forall a :: a in NewAssociations(request, guid) ==> WellFormed(a)
  {
    var added := NewAssociations(request, guid);
    forall i | 0 <= i < |added| ensures FitsKey(s.idx, added[i]) && WellFormed(added[i]) {
      var info := Infos(request)[i];
      assert info in Infos(request);
      assert Admissible(s.idx, request, info) && ValidInfo(TypeOrDefault(request), info);
    }
    forall i, j | 0 <= i < j < |added| ensures KeyOf(added[i]) != KeyOf(added[j]) {
      assert Infos(request)[i].associationType != Infos(request)[j].associationType;
    }
  }

  lemma CreatedKeepsInvariant(s: State, request: CreateRequest, picks: seq<Guid>)
    requires Invariant(s) && Possible(s, CreateAssociation(request, picks))
    ensures Invariant(Created(s, request, picks))
  {
    if Rejection(s, request).None? {
      var r := Posted(s.reg, Infos(request), picks);
      var added := NewAssociations(request, r.nextGuid);
      PostedKeepsValid(s.reg, Infos(request), picks);
      MoreGuidsKeepValid(r, |picks|);
      AcceptedFits(s, request, r.nextGuid);
      InsertedAllKeepsAgree(s.idx, added);
      forall a | Listed(InsertedAll(s.idx, added), a) ensures WellFormed(a) {
        InsertedAllListed(s.idx, added, a);
      }
    }
  }

  lemma AssociationsDeletedKeepsInvariant(s: State, resourceID: string, resourceType: ResourceType,
                                          types: seq<AssociationType>, cascade: bool)
    requires Invariant(s)
    ensures Invariant(AssociationsDeleted(s, resourceID, resourceType, types, cascade))
  {
    var q := DeleteQuery(resourceType, types);
    WithoutSubjectsKeepsValid(s.reg, StrongSubjects(Found(s.idx, resourceID, q)));
    PurgedKeepsAgree(s.idx, resourceID, q);
    forall a | Listed(Purged(s.idx, resourceID, q), a) ensures WellFormed(a) {
      PurgedListed(s.idx, resourceID, q, a);
    }
  }

  lemma StepKeepsInvariant(s: State, c: Call)
    requires Invariant(s) && Possible(s, c)
    ensures Invariant(Step(s, c))
  {
    match c
    case Register(subject, schema, pick) =>
      RegisteredKeepsValid(s.reg, SubjectJson(subject, schema), pick);
    case DeleteSubject(subject, permanent) =>
      SubjectDeletedKeepsValid(s.reg, subject, permanent);
    case DeleteSubjectVersion(subject, version, permanent) =>
      VersionDeletedKeepsValid(s.reg, subject, version, permanent);
    case CreateAssociation(request, picks) =>
      CreatedKeepsInvariant(s, request, picks);
    case DeleteAssociations(resourceID, resourceType, types, cascade) =>
      AssociationsDeletedKeepsInvariant(s, resourceID, resourceType, types, cascade);
  }
}
