/** What the calls of the mock Schema Registry client mean in terms of their own
    arguments and of the tables and lists alone. */
module CallMeanings {
  import opened RegistryModel
  import opened AssociationModel
  import opened MockState
  import opened RegistryRuns
  import opened Sequences
  import opened Wrappers

  // ------------------------------------------------------------- registrations

  /** Registering the schemas one after the other. */
  ghost function RegisteredAll(r: Registry, subject: Subject, schemas: seq<Schema>): Registry {
    if schemas == [] then r
    else Registered(RegisteredAll(r, subject, schemas[..|schemas| - 1]), SubjectJson(subject, schemas[|schemas| - 1]), NO_GUID).0
  }

  ghost predicate AllNew(r: Registry, subject: Subject, schemas: seq<Schema>) {
    Distinct(schemas) && forall schema :: schema in schemas ==> SubjectJson(subject, schema) !in r.info
  }

  lemma {:induction false} RegisteringKeepsOthersNew(r: Registry, subject: Subject, schemas: seq<Schema>, other: Schema)
    requires Valid(r) && AllNew(r, subject, schemas) && other !in schemas && SubjectJson(subject, other) !in r.info
    ensures Valid(RegisteredAll(r, subject, schemas)) && SubjectJson(subject, other) !in RegisteredAll(r, subject, schemas).info
    ensures RegisteredAll(r, subject, schemas).counter == r.counter + |schemas|
  {
    if schemas != [] {
      var before, last := schemas[..|schemas| - 1], schemas[|schemas| - 1];
      assert last in schemas && last !in before;
      RegisteringKeepsOthersNew(r, subject, before, other);
      RegisteringKeepsOthersNew(r, subject, before, last);
      RegisteredKeepsValid(RegisteredAll(r, subject, before), SubjectJson(subject, last), NO_GUID);
    }
  }

  /** New schemas of a subject that has nothing live get the versions 1, 2, 3 and so
      on, and the next ids, in the order of their registration. */
  lemma {:induction false} NumberedInOrder(r: Registry, subject: Subject, schemas: seq<Schema>, i: nat)
    requires Valid(r) && AllNew(r, subject, schemas) && i < |schemas|
    requires forall k :: Live(r, k) ==> k.subject != subject
    ensures var t, k := RegisteredAll(r, subject, schemas), SubjectJson(subject, schemas[i]);
            && k in t.info && k in t.versions && !t.versions[k].softDeleted
            && t.versions[k].version == i + 1 && t.info[k].metadata.id == r.counter + i + 1
    decreases |schemas|, 0
  {
    var before, last := schemas[..|schemas| - 1], schemas[|schemas| - 1];
    assert last in schemas && last !in before;
    RegisteringKeepsOthersNew(r, subject, before, last);
    var t, k := RegisteredAll(r, subject, before), SubjectJson(subject, last);
    if i == |before| {
      NextIsCount(r, subject, before);
      assert k !in t.versions by { assert k in t.versions ==> EntryOk(t, k); }
    } else {
      NumberedInOrder(r, subject, before, i);
      assert schemas[i] == before[i] && before[i] in before;
      RegisteredFrame(t, k, NO_GUID, SubjectJson(subject, schemas[i]));
    }
  }

  /** The live keys of the subject are exactly those just registered. */
  lemma {:induction false} LiveAreRegistered(r: Registry, subject: Subject, schemas: seq<Schema>, k: SubjectJson)
    requires forall l :: Live(r, l) ==> l.subject != subject
    requires k.subject == subject && Live(RegisteredAll(r, subject, schemas), k)
    ensures k.json in schemas
  {
    if schemas != [] && k.json != schemas[|schemas| - 1] {
      LiveAreRegistered(r, subject, schemas[..|schemas| - 1], k);
    }
  }

  lemma {:induction false} NextIsCount(r: Registry, subject: Subject, schemas: seq<Schema>)
    requires Valid(r) && AllNew(r, subject, schemas) && Valid(RegisteredAll(r, subject, schemas))
    requires forall k :: Live(r, k) ==> k.subject != subject
    ensures NextVersion(RegisteredAll(r, subject, schemas), subject) == |schemas| + 1
    decreases |schemas|, 1
  {
    var t := RegisteredAll(r, subject, schemas);
    NextVersionIsNew(t, subject);
    if schemas != [] {
      var last := SubjectJson(subject, schemas[|schemas| - 1]);
      NumberedInOrder(r, subject, schemas, |schemas| - 1);
      assert Live(t, last);
    }
    if k :| Live(t, k) && k.subject == subject && t.versions[k].version == NextVersion(t, subject) - 1 {
      LiveAreRegistered(r, subject, schemas, k);
      var j :| 0 <= j < |schemas| && schemas[j] == k.json;
      NumberedInOrder(r, subject, schemas, j);
    }
  }

  // ----------------------------------------------------------------- deletions

  /** The registration is in both or in neither, as it was. */
  ghost predicate Untouched(r: Registry, r': Registry, k: SubjectJson) {
    && (k in r.info <==> k in r'.info) && (k in r.info ==> r'.info[k] == r.info[k])
    && (k in r.versions <==> k in r'.versions) && (k in r.versions ==> r'.versions[k] == r.versions[k])
  }

  /** The registration is out of every table, or is marked in two and kept under its
      id, metadata and version. */
  ghost predicate Gone(r: Registry, r': Registry, k: SubjectJson, permanent: bool)
    requires k in r.info && k in r.versions
  {
    if permanent then k !in r'.info && k !in r'.versions && SubjectId(k.subject, r.info[k].metadata.id) !in r'.ids
    else
      && k in r'.info && r'.info[k].softDeleted && r'.info[k].metadata == r.info[k].metadata
      && k in r'.versions && r'.versions[k].softDeleted && r'.versions[k].version == r.versions[k].version
      && SubjectId(k.subject, r.info[k].metadata.id) in r'.ids
  }

  ghost predicate SameCounters(r: Registry, r': Registry) {
    r'.guids == r.guids && r'.counter == r.counter && r'.nextGuid == r.nextGuid
  }

  /** Deleting a subject takes exactly its registrations, unless it has no name or
      has associations, and then nothing happens. */
  lemma SubjectDeletionMeans(s: State, subject: Subject, permanent: bool, k: SubjectJson)
    requires Invariant(s)
    ensures var t := Step(s, DeleteSubject(subject, permanent));
            && t.idx == s.idx && SameCounters(s.reg, t.reg)
            && if subject == "" || exists a :: Listed(s.idx, a) && a.subject == subject then t == s
               else if k.subject != subject then Untouched(s.reg, t.reg, k)
               else k in s.reg.info ==> k in s.reg.versions && Gone(s.reg, t.reg, k, permanent)
  {
    assert k in s.reg.info ==> EntryOk(s.reg, k);
    if At(s.idx.bySubject, subject) != [] {
      var a := At(s.idx.bySubject, subject)[0];
      assert a in At(s.idx.bySubject, subject);
      assert Listed(s.idx, a) && a.subject == subject;
    }
  }

  /** Deleting a version takes exactly the registrations of the subject that have
      that number, live or not. */
  lemma VersionDeletionMeans(s: State, subject: Subject, version: int, permanent: bool, k: SubjectJson)
    requires Invariant(s)
    ensures var t := Step(s, DeleteSubjectVersion(subject, version, permanent));
            && t.idx == s.idx && SameCounters(s.reg, t.reg)
            && if k in s.reg.versions && k.subject == subject && s.reg.versions[k].version == version
               then k in s.reg.info && Gone(s.reg, t.reg, k, permanent)
               else Untouched(s.reg, t.reg, k)
  {
    if k in s.reg.info || k in s.reg.versions {
      assert EntryOk(s.reg, k);
    }
  }

  /** The call asks to delete a STRONG association of the subject. */
  ghost predicate StrongAskedFor(x: Index, resourceID: string, resourceType: ResourceType, types: seq<AssociationType>, subject: Subject) {
    exists a :: Listed(x, a) && AskedFor(a, resourceID, resourceType, types) && a.lifecycle == STRONG && a.subject == subject
  }

  lemma CascadedIff(x: Index, resourceID: string, resourceType: ResourceType, types: seq<AssociationType>, subject: Subject)
    requires Agree(x)
    ensures subject in StrongSubjects(Found(x, resourceID, DeleteQuery(resourceType, types))) <==>
            StrongAskedFor(x, resourceID, resourceType, types, subject)
  {
    forall a ensures a in Found(x, resourceID, DeleteQuery(resourceType, types)) <==> Listed(x, a) && AskedFor(a, resourceID, resourceType, types) {
      AskedForIsFound(x, resourceID, resourceType, types, a);
    }
  }

  lemma WithoutSubjectsMeans(r: Registry, subjects: set<Subject>, k: SubjectJson)
    requires Valid(r)
    ensures var t := WithoutSubjects(r, subjects);
            && SameCounters(r, t)
            && if k.subject in subjects then k in r.info ==> k in r.versions && Gone(r, t, k, true) else Untouched(r, t, k)
  {
    assert k in r.info ==> EntryOk(r, k);
  }

  /** With cascade the deletion takes with it exactly the subjects of STRONG
      associations asked for; without, no registration changes. */
  lemma CascadeMeans(s: State, resourceID: string, resourceType: ResourceType, types: seq<AssociationType>, cascade: bool, k: SubjectJson)
    requires Invariant(s)
    ensures var t := Step(s, DeleteAssociations(resourceID, resourceType, types, cascade));
            && SameCounters(s.reg, t.reg)
            && if cascade && StrongAskedFor(s.idx, resourceID, resourceType, types, k.subject)
               then k in s.reg.info ==> k in s.reg.versions && Gone(s.reg, t.reg, k, true)
               else Untouched(s.reg, t.reg, k)
  {
    CascadedIff(s.idx, resourceID, resourceType, types, k.subject);
    WithoutSubjectsMeans(s.reg, StrongSubjects(Found(s.idx, resourceID, DeleteQuery(resourceType, types))), k);
  }

  // -------------------------------------------------------- creating associations

  /** The association holds what the `i`-th entry of the request asked for: a type
      left out means `Value`, a lifecycle left out means STRONG, a resource type
      left out means a topic. */
  ghost predicate AsAsked(request: CreateRequest, i: nat, a: Association)
    requires request.associations.Some? && i < |request.associations.value|
  {
    var asked := request.associations.value[i];
    && a.subject == asked.subject
    && a.resourceName == request.resourceName && a.resourceNamespace == request.resourceNamespace && a.resourceID == request.resourceID
    && (request.resourceType == NoResourceType ==> a.resourceType == Topic)
    && (request.resourceType != NoResourceType ==> a.resourceType == request.resourceType)
    && (asked.associationType == NoAssociationType ==> a.associationType == Value)
    && (asked.associationType != NoAssociationType ==> a.associationType == asked.associationType)
    && (asked.lifecycle == NoLifecycle ==> a.lifecycle == STRONG)
    && (asked.lifecycle != NoLifecycle ==> a.lifecycle == asked.lifecycle)
    && a.frozen == asked.frozen
  }

  lemma NewIsAsAsked(request: CreateRequest, guid: Guid, i: nat)
    requires request.associations.Some? && i < |request.associations.value|
    ensures |NewAssociations(request, guid)| == |request.associations.value|
    ensures AsAsked(request, i, NewAssociations(request, guid)[i]) && NewAssociations(request, guid)[i].guid == guid + i
  {
    assert Infos(request)[i] == WithDefaults(request.associations.value[i]);
  }

  ghost predicate AllAsAsked(request: CreateRequest, added: seq<Association>) {
    request.associations.Some? ==>
      && |added| == |request.associations.value|
      && forall i :: 0 <= i < |added| ==> AsAsked(request, i, added[i])
  }

  lemma NewAreAsAsked(request: CreateRequest, guid: Guid)
    ensures AllAsAsked(request, NewAssociations(request, guid))
  {
    if request.associations.Some? {
      forall i | 0 <= i < |request.associations.value| ensures AsAsked(request, i, NewAssociations(request, guid)[i]) {
        NewIsAsAsked(request, guid, i);
      }
    }
  }

  /** After an accepted request each of its associations is stored under its subject,
      under its resource and under its key, with a GUID never handed out before, and
      each schema given is live. */
  lemma CreatedAsAsked(s: State, request: CreateRequest, picks: seq<Guid>, i: nat) returns (a: Association)
    requires Invariant(s) && Possible(s, CreateAssociation(request, picks)) && Rejection(s, request).None?
    requires request.associations.Some? && i < |request.associations.value|
    ensures var t, asked := Step(s, CreateAssociation(request, picks)), request.associations.value[i];
            && AsAsked(request, i, a) && s.reg.nextGuid <= a.guid < t.reg.nextGuid
            && a in At(t.idx.bySubject, asked.subject) && a in At(t.idx.byResource, request.resourceID)
            && ResourceKey(request.resourceID, a.resourceType, a.associationType) in t.idx.byKey
            && t.idx.byKey[ResourceKey(request.resourceID, a.resourceType, a.associationType)] == a
            && (asked.schema.Some? ==> Live(t.reg, SubjectJson(asked.subject, asked.schema.value)))
  {
    var r := Posted(s.reg, Infos(request), picks);
    var added := NewAssociations(request, r.nextGuid);
    var t := Step(s, CreateAssociation(request, picks));
    NewIsAsAsked(request, r.nextGuid, i);
    a := added[i];
    assert a in added;
    PostedCountsUp(s.reg, Infos(request), picks);
    AcceptedFits(s, request, r.nextGuid);
    StepKeepsInvariant(s, CreateAssociation(request, picks));
    InsertedAllListed(s.idx, added, a);
    ListedByResource(t.idx, a);
    LastInsertedKeyed(s.idx, added, i);
    if request.associations.value[i].schema.Some? {
      var info := Infos(request)[i];
      PostedIsLive(s.reg, Infos(request), picks, i);
      assert Live(r, SubjectJson(info.subject, info.schema.value));
    }
  }

  /** Every association of the request is stored as it was asked for. */
  ghost predicate AllFiled(s: State, t: State, request: CreateRequest) {
    request.associations.Some? && forall i :: 0 <= i < |request.associations.value| ==> Filed(s, t, request, i)
  }

  /** The `i`-th association of the request is stored as it was asked for. */
  ghost predicate Filed(s: State, t: State, request: CreateRequest, i: nat)
    requires request.associations.Some? && i < |request.associations.value|
  {
    exists a :: AsAsked(request, i, a) && s.reg.nextGuid <= a.guid
      && a in At(t.idx.bySubject, request.associations.value[i].subject) && a in At(t.idx.byResource, request.resourceID)
      && ResourceKey(request.resourceID, a.resourceType, a.associationType) in t.idx.byKey
      && t.idx.byKey[ResourceKey(request.resourceID, a.resourceType, a.associationType)] == a
  }

  lemma AcceptedIsFiled(s: State, request: CreateRequest, picks: seq<Guid>)
    requires Invariant(s) && Possible(s, CreateAssociation(request, picks)) && Rejection(s, request).None?
    ensures AllFiled(s, Step(s, CreateAssociation(request, picks)), request)
  {
    forall i | 0 <= i < |request.associations.value| ensures Filed(s, Step(s, CreateAssociation(request, picks)), request, i) {
      var a := CreatedAsAsked(s, request, picks, i);
    }
  }

  lemma {:induction false} PostedCountsUp(r: Registry, infos: seq<CreateInfo>, picks: seq<Guid>)
    requires |infos| == |picks|
    ensures r.nextGuid <= Posted(r, infos, picks).nextGuid
    decreases |infos|
  {
    if infos != [] {
      PostedCountsUp(PostedOne(r, infos[0], picks[0]), infos[1..], picks[1..]);
    }
  }

  lemma {:induction false} StaysLive(r: Registry, infos: seq<CreateInfo>, picks: seq<Guid>, k: SubjectJson)
    requires Valid(r) && GoodPicks(r, infos, picks) && Live(r, k)
    ensures Live(Posted(r, infos, picks), k)
    decreases |infos|
  {
    if infos != [] {
      PostedOneKeepsValid(r, infos[0], picks[0]);
      StaysLive(PostedOne(r, infos[0], picks[0]), infos[1..], picks[1..], k);
    }
  }

  lemma {:induction false} PostedIsLive(r: Registry, infos: seq<CreateInfo>, picks: seq<Guid>, i: nat)
    requires Valid(r) && GoodPicks(r, infos, picks) && i < |infos| && infos[i].schema.Some?
    ensures Live(Posted(r, infos, picks), SubjectJson(infos[i].subject, infos[i].schema.value))
    decreases |infos|
  {
    var r' := PostedOne(r, infos[0], picks[0]);
    PostedOneKeepsValid(r, infos[0], picks[0]);
    if i == 0 {
      var k := SubjectJson(infos[0].subject, infos[0].schema.value);
      RegisteredEntry(r, k, picks[0]);
      StaysLive(r', infos[1..], picks[1..], k);
    } else {
      PostedIsLive(r', infos[1..], picks[1..], i - 1);
    }
  }

  lemma {:induction false} LastInsertedKeyed(x: Index, added: seq<Association>, i: nat)
    requires DistinctKeys(added) && i < |added|
    ensures KeyOf(added[i]) in InsertedAll(x, added).byKey && InsertedAll(x, added).byKey[KeyOf(added[i])] == added[i]
    decreases |added|
  {
    if i == 0 {
      OtherKeysStay(Inserted(x, added[0]), added[1..], KeyOf(added[0]));
    } else {
      LastInsertedKeyed(Inserted(x, added[0]), added[1..], i - 1);
    }
  }

  lemma {:induction false} OtherKeysStay(x: Index, added: seq<Association>, k: ResourceKey)
    requires forall i :: 0 <= i < |added| ==> KeyOf(added[i]) != k
    ensures k in InsertedAll(x, added).byKey <==> k in x.byKey
    ensures k in x.byKey ==> InsertedAll(x, added).byKey[k] == x.byKey[k]
    decreases |added|
  {
    if added != [] {
      OtherKeysStay(Inserted(x, added[0]), added[1..], k);
    }
  }

  function OfSubject(list: seq<Association>, subject: string): seq<Association> {
    if list == [] then [] else (if list[0].subject == subject then [list[0]] else []) + OfSubject(list[1..], subject)
  }

  function OfResource(list: seq<Association>, resourceID: string): seq<Association> {
    if list == [] then [] else (if list[0].resourceID == resourceID then [list[0]] else []) + OfResource(list[1..], resourceID)
  }

  /** New associations go to the end of the lists, in the order of the request, and
      nothing else is added. */
  lemma {:induction false} NewGoLast(x: Index, added: seq<Association>, subject: string, resourceID: string)
    ensures At(InsertedAll(x, added).bySubject, subject) == At(x.bySubject, subject) + OfSubject(added, subject)
    ensures At(InsertedAll(x, added).byResource, resourceID) == At(x.byResource, resourceID) + OfResource(added, resourceID)
    decreases |added|
  {
    if added != [] {
      var y := Inserted(x, added[0]);
      NewGoLast(y, added[1..], subject, resourceID);
      var s0 := if added[0].subject == subject then [added[0]] else [];
      var r0 := if added[0].resourceID == resourceID then [added[0]] else [];
      assert At(y.bySubject, subject) == At(x.bySubject, subject) + s0;
      assert At(y.byResource, resourceID) == At(x.byResource, resourceID) + r0;
      Regroup(At(x.bySubject, subject), s0, OfSubject(added[1..], subject));
      Regroup(At(x.byResource, resourceID), r0, OfResource(added[1..], resourceID));
    }
  }

  // ------------------------------------------------------- when it is accepted

  /** Nothing required is missing, and nothing given is unknown or contradictory. */
  ghost predicate WellAsked(request: CreateRequest) {
    && request.resourceName != "" && request.resourceNamespace != "" && request.resourceID != ""
    && request.associations.Some?
    && forall i :: 0 <= i < |request.associations.value| ==>
         var asked := request.associations.value[i];
         && asked.subject != ""
         && (request.resourceType == NoResourceType || request.resourceType == Topic)
         && (asked.associationType == NoAssociationType || asked.associationType == Key || asked.associationType == Value)
         && (asked.lifecycle == NoLifecycle || asked.lifecycle == STRONG || asked.lifecycle == WEAK)
         && !(asked.lifecycle == WEAK && asked.frozen)
  }

  /** At most one association for the keys and one for the values of the resource. */
  ghost predicate TypesDiffer(request: CreateRequest)
    requires request.associations.Some?
  {
    forall i, j :: 0 <= i < j < |request.associations.value| ==>
      (request.associations.value[i].associationType == Key) != (request.associations.value[j].associationType == Key)
  }

  ghost predicate HasSchema(s: State, asked: CreateInfo) {
    asked.schema.Some? || exists k :: Live(s.reg, k) && k.subject == asked.subject
  }

  /** The stored association is for the same keys or values of the same topic. */
  predicate SamePlace(request: CreateRequest, asked: CreateInfo, b: Association) {
    b.resourceID == request.resourceID && b.resourceType == Topic && b.associationType == (if asked.associationType == Key then Key else Value)
  }

  /** The stored association is what is asked for. */
  predicate SameAsAsked(request: CreateRequest, asked: CreateInfo, b: Association) {
    && b.subject == asked.subject && b.resourceName == request.resourceName && b.resourceNamespace == request.resourceNamespace
    && b.lifecycle == (if asked.lifecycle == WEAK then WEAK else STRONG) && b.frozen == asked.frozen
  }

  /** What is stored for that place is what is asked for; or nothing is, and the
      subject has no associations, or only WEAK ones besides a WEAK one. */
  ghost predicate HasRoom(s: State, request: CreateRequest, asked: CreateInfo) {
    if exists b :: Listed(s.idx, b) && SamePlace(request, asked, b)
    then forall b :: Listed(s.idx, b) && SamePlace(request, asked, b) ==> SameAsAsked(request, asked, b)
    else forall b :: Listed(s.idx, b) && b.subject == asked.subject ==> asked.lifecycle == WEAK && b.lifecycle == WEAK
  }

  lemma AdmissibleIff(s: State, request: CreateRequest, i: nat)
    requires Invariant(s) && Exclusive(s.idx) && WellAsked(request) && i < |request.associations.value|
    ensures Admissible(s.idx, request, Infos(request)[i]) <==> HasRoom(s, request, request.associations.value[i])
  {
    var asked, info := request.associations.value[i], Infos(request)[i];
    var a := NewAssociation(request, info, NO_GUID);
    assert info == WithDefaults(asked);
    forall b | Listed(s.idx, b) && SamePlace(request, asked, b) ensures KeyOf(b) == KeyOf(a) && KeyOf(a) in s.idx.byKey && SameButGuid(s.idx.byKey[KeyOf(a)], b) {
    }
    if KeyOf(a) in s.idx.byKey {
      var stored := s.idx.byKey[KeyOf(a)];
      assert Listed(s.idx, stored) && SamePlace(request, asked, stored);
      assert SameButGuid(stored, a) <==> SameAsAsked(request, asked, stored);
      forall b | Listed(s.idx, b) && SamePlace(request, asked, b) ensures SameAsAsked(request, asked, b) <==> SameAsAsked(request, asked, stored) {
      }
    } else {
      assert !exists b :: Listed(s.idx, b) && SamePlace(request, asked, b);
      FirstDecides(s, asked.subject);
    }
  }

  /** With exclusivity the first association of a subject is WEAK exactly when all
      of them are. */
  lemma FirstDecides(s: State, subject: string)
    requires Invariant(s) && Exclusive(s.idx)
    ensures subject !in s.idx.bySubject ==> forall b :: Listed(s.idx, b) ==> b.subject != subject
    ensures subject in s.idx.bySubject ==> Listed(s.idx, s.idx.bySubject[subject][0]) && s.idx.bySubject[subject][0].subject == subject
    ensures subject in s.idx.bySubject ==>
              (s.idx.bySubject[subject][0].lifecycle != STRONG <==> forall b :: Listed(s.idx, b) && b.subject == subject ==> b.lifecycle == WEAK)
  {
    if subject in s.idx.bySubject {
      var first := s.idx.bySubject[subject][0];
      assert first in At(s.idx.bySubject, subject);
      assert Listed(s.idx, first) && WellFormed(first);
      forall b | Listed(s.idx, b) && b.subject == subject ensures Compatible(first, b) && WellFormed(b) {
      }
    }
  }

  /** In every state that keeps exclusivity a request is accepted if and only if it
      is well asked, its types differ, and each of its associations has a schema and
      has room; otherwise the error names the first of these that fails. */
  lemma AcceptedIff(s: State, request: CreateRequest)
    requires Invariant(s) && Exclusive(s.idx)
    ensures Rejection(s, request) ==
            if !WellAsked(request) then Some(BadRequest)
            else if !TypesDiffer(request) then Some(DuplicateType)
            else if exists asked :: asked in request.associations.value && !HasSchema(s, asked) then Some(NoActiveVersion)
            else if exists asked :: asked in request.associations.value && !HasRoom(s, request, asked) then Some(Conflict)
            else None
  {
    WellAskedIff(request);
    if WellAsked(request) {
      TypesDifferIff(request);
      AllPostableIff(s, request);
      AllAdmissibleIff(s, request);
    }
  }

  lemma AllPostableIff(s: State, request: CreateRequest)
    requires WellAsked(request)
    ensures (forall info :: info in Infos(request) ==> Postable(s.reg, info)) <==> forall x :: x in request.associations.value ==> HasSchema(s, x)
  {
    var asked := request.associations.value;
    forall i | 0 <= i < |asked|
      ensures Infos(request)[i] in Infos(request) && asked[i] in asked && (Postable(s.reg, Infos(request)[i]) <==> HasSchema(s, asked[i]))
    {
      PostableIff(s, Infos(request)[i], asked[i]);
    }
  }

  lemma AllAdmissibleIff(s: State, request: CreateRequest)
    requires Invariant(s) && Exclusive(s.idx) && WellAsked(request)
    ensures (forall info :: info in Infos(request) ==> Admissible(s.idx, request, info)) <==>
            forall x :: x in request.associations.value ==> HasRoom(s, request, x)
  {
    var asked := request.associations.value;
    forall i | 0 <= i < |asked|
      ensures Infos(request)[i] in Infos(request) && asked[i] in asked
      ensures Admissible(s.idx, request, Infos(request)[i]) <==> HasRoom(s, request, asked[i])
    {
      AdmissibleIff(s, request, i);
    }
  }

  lemma PostableIff(s: State, info: CreateInfo, asked: CreateInfo)
    requires info == WithDefaults(asked)
    ensures Postable(s.reg, info) <==> HasSchema(s, asked)
  {
    if k :| Live(s.reg, k) && k.subject == asked.subject {
      assert k in LiveKeys(s.reg, asked.subject);
    }
    if k :| k in LiveKeys(s.reg, asked.subject) {
      assert Live(s.reg, k);
    }
  }

  lemma WellAskedIff(request: CreateRequest)
    ensures ValidRequest(request) <==> WellAsked(request)
  {
    if request.associations.Some? {
      var asked := request.associations.value;
      forall i | 0 <= i < |asked| ensures Infos(request)[i] == WithDefaults(asked[i]) && Infos(request)[i] in Infos(request) {
      }
    }
  }

  lemma TypesDifferIff(request: CreateRequest)
    requires WellAsked(request)
    ensures DistinctTypes(Infos(request)) <==> TypesDiffer(request)
  {
    var asked := request.associations.value;
    assert forall i :: 0 <= i < |asked| ==> Infos(request)[i] == WithDefaults(asked[i]);
  }
}
