/** What the mock Schema Registry client keeps over every run of its calls. */
module RegistryRuns {
  import opened RegistryModel
  import opened AssociationModel
  import opened MockState
  import opened Wrappers

  // --------------------------------------------------------------------- runs

  ghost predicate PossibleRun(s: State, calls: seq<Call>)
    requires Invariant(s)
    decreases |calls|
  {
    calls != [] ==>
      && Possible(s, calls[0])
      && (StepKeepsInvariant(s, calls[0]); PossibleRun(Step(s, calls[0]), calls[1..]))
  }

  /** The state after a sequence of calls. */
  ghost function Run(s: State, calls: seq<Call>): (t: State)
    requires Invariant(s) && PossibleRun(s, calls)
    ensures Invariant(t)
    decreases |calls|
  {
    if calls == [] then s
    else
      StepKeepsInvariant(s, calls[0]);
      Run(Step(s, calls[0]), calls[1..])
  }

  lemma EmptyStateInvariant()
    ensures Invariant(EmptyState)
  {
    assert forall a :: SubjectCount(EmptyIndex, a) == ResourceCount(EmptyIndex, a);
  }

  // ----------------------------------------------- exclusivity of associations

  /** Associations of one request that name the same subject are all WEAK. */
  ghost predicate NoClash(request: CreateRequest) {
    forall i, j :: 0 <= i < j < |Infos(request)| && Infos(request)[i].subject == Infos(request)[j].subject
      ==> Infos(request)[i].lifecycle == WEAK && Infos(request)[j].lifecycle == WEAK
  }

  ghost predicate DistinctSubjects(request: CreateRequest) {
    forall i, j :: 0 <= i < j < |Infos(request)| ==> Infos(request)[i].subject != Infos(request)[j].subject
  }

  /** An admitted association is compatible with everything stored for its subject. */
  lemma AdmittedIsCompatible(s: State, request: CreateRequest, info: CreateInfo, guid: Guid, b: Association)
    requires Invariant(s) && Exclusive(s.idx)
    requires ValidInfo(TypeOrDefault(request), info) && Admissible(s.idx, request, info)
    requires Listed(s.idx, b) && b.subject == info.subject
    ensures Compatible(NewAssociation(request, info, guid), b)
    ensures Compatible(b, NewAssociation(request, info, guid))
  {
    var a := NewAssociation(request, info, guid);
    if KeyOf(a) in s.idx.byKey {
      var stored := s.idx.byKey[KeyOf(a)];
      assert Listed(s.idx, stored);
      assert Compatible(stored, b);
    } else {
      var first := s.idx.bySubject[info.subject][0];
      assert first in At(s.idx.bySubject, info.subject);
      assert Listed(s.idx, first) && WellFormed(first);
      assert Compatible(first, b);
    }
  }

  /** Creating associations keeps exclusivity exactly when the request itself
      has no clash; the stored state is checked by the call, the request is not. */
  lemma CreatedExclusive(s: State, request: CreateRequest, picks: seq<Guid>)
    requires Invariant(s) && Exclusive(s.idx) && Possible(s, CreateAssociation(request, picks))
    requires Rejection(s, request).None?
    ensures Exclusive(Created(s, request, picks).idx) <==> NoClash(request)
  {
    var guid := Posted(s.reg, Infos(request), picks).nextGuid;
    if NoClash(request) {
      NoClashKeepsExclusive(s, request, guid);
    } else {
      ClashBreaksExclusive(s, request, guid);
    }
  }

  lemma NewIsFrom(request: CreateRequest, guid: Guid, a: Association) returns (i: nat)
    requires a in NewAssociations(request, guid)
    ensures i < |Infos(request)| && Infos(request)[i] in Infos(request)
    ensures a == NewAssociation(request, Infos(request)[i], guid + i)
  {
    i :| 0 <= i < |NewAssociations(request, guid)| && NewAssociations(request, guid)[i] == a;
  }

  lemma NewPairCompatible(request: CreateRequest, guid: Guid, a: Association, b: Association)
    requires NoClash(request) && a in NewAssociations(request, guid) && b in NewAssociations(request, guid) && a.subject == b.subject
    ensures Compatible(a, b)
  {
    var i := NewIsFrom(request, guid, a);
    var j := NewIsFrom(request, guid, b);
    if i != j {
      var first, second := if i < j then i else j, if i < j then j else i;
      assert Infos(request)[first].subject == Infos(request)[second].subject;
    }
  }

  lemma NewAndOldCompatible(s: State, request: CreateRequest, guid: Guid, a: Association, b: Association)
    requires Invariant(s) && Exclusive(s.idx) && Rejection(s, request).None?
    requires a in NewAssociations(request, guid) && Listed(s.idx, b) && a.subject == b.subject
    ensures Compatible(a, b) && Compatible(b, a)
  {
    var i := NewIsFrom(request, guid, a);
    AdmittedIsCompatible(s, request, Infos(request)[i], guid + i, b);
  }

  lemma NoClashKeepsExclusive(s: State, request: CreateRequest, guid: Guid)
    requires Invariant(s) && Exclusive(s.idx)
    requires Rejection(s, request).None? && NoClash(request)
    ensures Exclusive(InsertedAll(s.idx, NewAssociations(request, guid)))
  {
    var added := NewAssociations(request, guid);
    var y := InsertedAll(s.idx, added);
    forall a, b | Listed(y, a) && Listed(y, b) && a.subject == b.subject ensures Compatible(a, b) {
      InsertedAllListed(s.idx, added, a);
      InsertedAllListed(s.idx, added, b);
      if a in added && b in added {
        NewPairCompatible(request, guid, a, b);
      } else if a in added {
        NewAndOldCompatible(s, request, guid, a, b);
      } else if b in added {
        NewAndOldCompatible(s, request, guid, b, a);
      }
    }
  }

  lemma ClashBreaksExclusive(s: State, request: CreateRequest, guid: Guid)
    requires NoneEmpty(s.idx.bySubject) && Rejection(s, request).None? && !NoClash(request)
    ensures !Exclusive(InsertedAll(s.idx, NewAssociations(request, guid)))
  {
    var i, j :| 0 <= i < j < |Infos(request)| && Infos(request)[i].subject == Infos(request)[j].subject
      && !(Infos(request)[i].lifecycle == WEAK && Infos(request)[j].lifecycle == WEAK);
    ClashingPair(s.idx, request, guid, i, j);
  }

  lemma ClashingPair(x: Index, request: CreateRequest, guid: Guid, i: nat, j: nat)
    requires i < j < |Infos(request)| && Infos(request)[i].subject == Infos(request)[j].subject
    requires Infos(request)[i].associationType != Infos(request)[j].associationType
    requires !(Infos(request)[i].lifecycle == WEAK && Infos(request)[j].lifecycle == WEAK)
    ensures !Exclusive(InsertedAll(x, NewAssociations(request, guid)))
  {
    var added := NewAssociations(request, guid);
    assert added[i] in added && added[j] in added;
    InsertedAllListed(x, added, added[i]);
    InsertedAllListed(x, added, added[j]);
    assert !Compatible(added[i], added[j]);
  }

  /** One request with a STRONG and a WEAK association for the same new subject
      is accepted by an empty registry and leaves the subject with both. */
  lemma ClashExample(subject: string, schema: Schema)
    requires subject != ""
    ensures var strong := CreateInfo(subject, Key, STRONG, false, Some(schema));
            var weak := CreateInfo(subject, Value, WEAK, false, Some(schema));
            var request := CreateRequest("r", "ns", "id", Topic, Some([strong, weak]));
            Rejection(EmptyState, request).None? && !NoClash(request)
  {
    var strong := CreateInfo(subject, Key, STRONG, false, Some(schema));
    var weak := CreateInfo(subject, Value, WEAK, false, Some(schema));
    var request := CreateRequest("r", "ns", "id", Topic, Some([strong, weak]));
    assert Infos(request) == [strong, weak];
    assert Infos(request)[0].subject == Infos(request)[1].subject;
    assert forall info :: info in [strong, weak] ==> Postable(EmptyRegistry, info) && Admissible(EmptyIndex, request, info);
  }

  lemma StepKeepsExclusive(s: State, c: Call)
    requires Invariant(s) && Exclusive(s.idx) && Possible(s, c)
    requires c.CreateAssociation? ==> NoClash(c.request)
    ensures Exclusive(Step(s, c).idx)
  {
    match c
    case CreateAssociation(request, picks) =>
      if Rejection(s, request).None? {
        CreatedExclusive(s, request, picks);
      }
    case DeleteAssociations(resourceID, resourceType, types, cascade) =>
      var y := Purged(s.idx, resourceID, DeleteQuery(resourceType, types));
      forall a, b | Listed(y, a) && Listed(y, b) && a.subject == b.subject ensures Compatible(a, b) {
        PurgedListed(s.idx, resourceID, DeleteQuery(resourceType, types), a);
        PurgedListed(s.idx, resourceID, DeleteQuery(resourceType, types), b);
      }
    case _ =>
  }

  // --------------------------------------- associated subjects have a schema

  ghost predicate HasLive(r: Registry, subject: Subject) {
    LiveKeys(r, subject) != {}
  }

  ghost predicate AssociatedIsLive(s: State) {
    forall a {:trigger Listed(s.idx, a)} :: Listed(s.idx, a) ==> HasLive(s.reg, a.subject)
  }

  lemma LiveMeansHasLive(r: Registry, k: SubjectJson)
    requires Live(r, k)
    ensures HasLive(r, k.subject)
  {
    assert k in LiveKeys(r, k.subject);
  }

  lemma RegisteredKeepsLive(r: Registry, k: SubjectJson, pick: Guid, subject: Subject)
    requires Valid(r) && GoodPick(r, k, pick) && (HasLive(r, subject) || subject == k.subject)
    ensures HasLive(Registered(r, k, pick).0, subject)
  {
    if subject == k.subject {
      RegisteredEntry(r, k, pick);
      LiveMeansHasLive(Registered(r, k, pick).0, k);
    } else {
      var l :| l in LiveKeys(r, subject);
      LiveMeansHasLive(Registered(r, k, pick).0, l);
    }
  }

  lemma {:induction false} PostedKeepsLive(r: Registry, infos: seq<CreateInfo>, picks: seq<Guid>, subject: Subject)
    requires Valid(r) && GoodPicks(r, infos, picks)
    requires HasLive(r, subject) || exists info :: info in infos && info.subject == subject && info.schema.Some?
    ensures HasLive(Posted(r, infos, picks), subject)
    decreases |infos|
  {
    if infos != [] {
      if infos[0].schema.Some? {
        var k := SubjectJson(infos[0].subject, infos[0].schema.value);
        RegisteredKeepsValid(r, k, picks[0]);
        if HasLive(r, subject) || subject == k.subject {
          RegisteredKeepsLive(r, k, picks[0], subject);
        }
      }
      PostedKeepsLive(PostedOne(r, infos[0], picks[0]), infos[1..], picks[1..], subject);
    }
  }

  lemma CreatedKeepsAssociatedLive(s: State, request: CreateRequest, picks: seq<Guid>)
    requires Invariant(s) && AssociatedIsLive(s) && Possible(s, CreateAssociation(request, picks))
    ensures AssociatedIsLive(Created(s, request, picks))
  {
    if Rejection(s, request).None? {
      var r := Posted(s.reg, Infos(request), picks);
      var t := Created(s, request, picks);
      var added := NewAssociations(request, r.nextGuid);
      forall a | Listed(t.idx, a) ensures HasLive(t.reg, a.subject) {
        InsertedAllListed(s.idx, added, a);
        if a in added {
          var i := NewIsFrom(request, r.nextGuid, a);
          assert Postable(s.reg, Infos(request)[i]);
        }
        PostedKeepsLive(s.reg, Infos(request), picks, a.subject);
        assert LiveKeys(t.reg, a.subject) == LiveKeys(r, a.subject);
      }
    }
  }

  /** A cascading delete destroys the subjects of STRONG associations only, and
      exclusivity means no surviving association names one of those. */
  lemma CascadeKeepsAssociatedLive(s: State, resourceID: string, resourceType: ResourceType,
                                   types: seq<AssociationType>, cascade: bool)
    requires Invariant(s) && Exclusive(s.idx) && AssociatedIsLive(s)
    ensures AssociatedIsLive(AssociationsDeleted(s, resourceID, resourceType, types, cascade))
  {
    var q := DeleteQuery(resourceType, types);
    var gone := Found(s.idx, resourceID, q);
    var t := AssociationsDeleted(s, resourceID, resourceType, types, cascade);
    if !Blocked(gone, cascade) {
      forall a | Listed(t.idx, a) ensures HasLive(t.reg, a.subject) {
        PurgedListed(s.idx, resourceID, q, a);
        forall d | d in gone && d.lifecycle == STRONG ensures d.subject != a.subject {
          FoundIsDoomed(s.idx, resourceID, q, d);
          assert d.subject == a.subject ==> Compatible(d, a);
        }
        var l :| l in LiveKeys(s.reg, a.subject);
        LiveMeansHasLive(t.reg, l);
      }
    }
  }

  lemma SubjectDeletedKeepsOtherLive(r: Registry, subject: Subject, permanent: bool, other: Subject)
    requires HasLive(r, other) && other != subject
    ensures HasLive(SubjectDeleted(r, subject, permanent), other)
  {
    var l :| l in LiveKeys(r, other);
    LiveMeansHasLive(SubjectDeleted(r, subject, permanent), l);
  }

  /** Deleting one version keeps the associated subjects live exactly when it
      does not take the last live version of an associated subject. */
  lemma VersionDeletedAssociatedLive(s: State, subject: Subject, version: int, permanent: bool)
    requires Invariant(s) && AssociatedIsLive(s)
    ensures AssociatedIsLive(s.(reg := VersionDeleted(s.reg, subject, version, permanent)))
       <==> (At(s.idx.bySubject, subject) == []
             || exists k :: k in LiveKeys(s.reg, subject) && s.reg.versions[k].version != version)
  {
    var t := s.(reg := VersionDeleted(s.reg, subject, version, permanent));
    assert forall k :: k in LiveKeys(t.reg, subject) ==> k in LiveKeys(s.reg, subject) && s.reg.versions[k].version != version;
    if At(s.idx.bySubject, subject) != [] {
      var first := At(s.idx.bySubject, subject)[0];
      assert first in At(s.idx.bySubject, subject);
      assert Listed(s.idx, first);
      if AssociatedIsLive(t) {
        assert Listed(t.idx, first);
      }
    }
    if At(s.idx.bySubject, subject) == [] || exists k :: k in LiveKeys(s.reg, subject) && s.reg.versions[k].version != version {
      forall a | Listed(t.idx, a) ensures HasLive(t.reg, a.subject) {
        assert Listed(s.idx, a);
        var l :| l in LiveKeys(s.reg, a.subject) && (a.subject == subject ==> s.reg.versions[l].version != version);
        LiveMeansHasLive(t.reg, l);
      }
    }
  }

  /** The request that associates a topic's values with the subject. */
  function TopicRequest(subject: Subject): CreateRequest {
    CreateRequest("topic", "cluster", "id", Topic, Some([CreateInfo(subject, Value, STRONG, false, None)]))
  }

  lemma TopicRequestAccepted(r: Registry, subject: Subject, picks: seq<Guid>)
    requires subject != "" && LiveKeys(r, subject) != {} && |picks| == 1
    ensures Infos(TopicRequest(subject)) == [CreateInfo(subject, Value, STRONG, false, None)]
    ensures Rejection(State(r, EmptyIndex), TopicRequest(subject)).None?
    ensures var t := Created(State(r, EmptyIndex), TopicRequest(subject), picks);
            t.reg == r.(nextGuid := r.nextGuid + 1) && Listed(t.idx, NewAssociation(TopicRequest(subject), Infos(TopicRequest(subject))[0], r.nextGuid))
  {
    var request := TopicRequest(subject);
    var info := CreateInfo(subject, Value, STRONG, false, None);
    assert Infos(request) == [info];
    assert forall i :: i in [info] ==> i == info;
    assert Postable(r, info) && Admissible(EmptyIndex, request, info);
    var added := NewAssociations(request, r.nextGuid);
    assert added == [NewAssociation(request, info, r.nextGuid)];
    assert Posted(r, Infos(request), picks) == r by { assert [info][1..] == []; }
    InsertedAllListed(EmptyIndex, added, added[0]);
  }

  /** Register, associate, delete version 1: an association without a live schema,
      three calls from the empty client. */
  function Stranding(subject: Subject, schema: Schema): seq<Call> {
    [Register(subject, schema, NO_GUID)] +
    ([CreateAssociation(TopicRequest(subject), [NO_GUID])] + ([DeleteSubjectVersion(subject, 1, true)] + []))
  }

  lemma RunCons(s: State, c: Call, rest: seq<Call>)
    requires Invariant(s) && Possible(s, c)
    requires (StepKeepsInvariant(s, c); PossibleRun(Step(s, c), rest))
    ensures Invariant(Step(s, c)) && PossibleRun(s, [c] + rest) && Run(s, [c] + rest) == Run(Step(s, c), rest)
  {
    StepKeepsInvariant(s, c);
    assert ([c] + rest)[1..] == rest;
  }

  lemma VersionDeletionStrands(subject: Subject, schema: Schema)
    requires subject != ""
    ensures Invariant(EmptyState) && PossibleRun(EmptyState, Stranding(subject, schema))
    ensures !AssociatedIsLive(Run(EmptyState, Stranding(subject, schema)))
  {
    EmptyStateInvariant();
    var k := SubjectJson(subject, schema);
    var c1, c2, c3 := Register(subject, schema, NO_GUID), CreateAssociation(TopicRequest(subject), [NO_GUID]), DeleteSubjectVersion(subject, 1, true);
    var s1 := Step(EmptyState, c1);
    StepKeepsInvariant(EmptyState, c1);
    assert s1.reg.versions == map[k := VersionEntry(1, false)] && s1.idx == EmptyIndex;
    assert k in LiveKeys(s1.reg, subject);
    TopicRequestAccepted(s1.reg, subject, [NO_GUID]);
    assert GoodPicks(s1.reg, Infos(TopicRequest(subject)), [NO_GUID]) by { assert [NO_GUID][1..] == []; }
    var s2 := Step(s1, c2);
    StepKeepsInvariant(s1, c2);
    var s3 := Step(s2, c3);
    StepKeepsInvariant(s2, c3);
    assert s3.reg.versions == map[];
    assert LiveKeys(s3.reg, subject) == {};
    var a := NewAssociation(TopicRequest(subject), Infos(TopicRequest(subject))[0], s1.reg.nextGuid);
    assert Listed(s3.idx, a) && !HasLive(s3.reg, a.subject);
    RunCons(s2, c3, []);
    RunCons(s1, c2, [c3] + []);
    RunCons(EmptyState, c1, [c2] + ([c3] + []));
  }

  lemma StepKeepsAssociatedLive(s: State, c: Call)
    requires Invariant(s) && Exclusive(s.idx) && AssociatedIsLive(s) && Possible(s, c)
    requires !c.DeleteSubjectVersion?
    ensures AssociatedIsLive(Step(s, c))
  {
    var t := Step(s, c);
    match c
    case Register(subject, schema, pick) =>
      forall a | Listed(t.idx, a) ensures HasLive(t.reg, a.subject) {
        RegisteredKeepsLive(s.reg, SubjectJson(subject, schema), pick, a.subject);
      }
    case DeleteSubject(subject, permanent) =>
      forall a | Listed(t.idx, a) ensures HasLive(t.reg, a.subject) {
        if Deletable(s, subject) {
          SubjectDeletedKeepsOtherLive(s.reg, subject, permanent, a.subject);
        }
      }
    case CreateAssociation(request, picks) =>
      CreatedKeepsAssociatedLive(s, request, picks);
    case DeleteAssociations(resourceID, resourceType, types, cascade) =>
      CascadeKeepsAssociatedLive(s, resourceID, resourceType, types, cascade);
  }

  // -------------------------------------------------------- theorems over runs

  /** In every run without clashing requests each subject has only WEAK
      associations or a single STRONG one; if no version is deleted by number,
      every associated subject also keeps a live schema. */
  lemma {:induction false} RunKeepsExclusive(s: State, calls: seq<Call>)
    requires Invariant(s) && PossibleRun(s, calls) && Exclusive(s.idx)
    requires forall c :: c in calls && c.CreateAssociation? ==> NoClash(c.request)
    ensures Exclusive(Run(s, calls).idx)
    ensures AssociatedIsLive(s) && (forall c :: c in calls ==> !c.DeleteSubjectVersion?) ==> AssociatedIsLive(Run(s, calls))
    decreases |calls|
  {
    if calls != [] {
      assert calls[0] in calls;
      StepKeepsInvariant(s, calls[0]);
      StepKeepsExclusive(s, calls[0]);
      if AssociatedIsLive(s) && !calls[0].DeleteSubjectVersion? {
        StepKeepsAssociatedLive(s, calls[0]);
      }
      RunKeepsExclusive(Step(s, calls[0]), calls[1..]);
    }
  }

  /** Runs from the empty registry whose requests name pairwise distinct
      subjects: the tables and indexes agree, each subject has only WEAK
      associations or a single STRONG one up to GUID, and unless versions are
      deleted by number every associated subject has a live schema. */
  lemma EveryRun(calls: seq<Call>)
    requires (EmptyStateInvariant(); PossibleRun(EmptyState, calls))
    requires forall c :: c in calls && c.CreateAssociation? ==> DistinctSubjects(c.request)
    ensures Invariant(EmptyState) && Invariant(Run(EmptyState, calls)) && Exclusive(Run(EmptyState, calls).idx)
    ensures (forall c :: c in calls ==> !c.DeleteSubjectVersion?) ==> AssociatedIsLive(Run(EmptyState, calls))
  {
    EmptyStateInvariant();
    RunKeepsExclusive(EmptyState, calls);
  }

  /** No run is ever stuck: in every reachable state each call is possible with
      some choice of GUIDs. */
  lemma {:induction false} PicksExist(r: Registry, infos: seq<CreateInfo>) returns (picks: seq<Guid>)
    requires Valid(r)
    ensures GoodPicks(r, infos, picks)
    decreases |infos|
  {
    if infos == [] {
      return [];
    }
    var pick := NO_GUID;
    if infos[0].schema.Some? {
      var k := SubjectJson(infos[0].subject, infos[0].schema.value);
      pick := PickExists(r, k);
      RegisteredKeepsValid(r, k, pick);
    }
    var rest := PicksExist(PostedOne(r, infos[0], pick), infos[1..]);
    picks := [pick] + rest;
    assert picks[1..] == rest;
  }

  lemma PickExists(r: Registry, k: SubjectJson) returns (pick: Guid)
    requires Valid(r)
    ensures GoodPick(r, k, pick)
  {
    if k in r.info {
      assert EntryOk(r, k);
      return r.info[k].metadata.guid;
    }
    return NO_GUID;
  }

  // ------------------------------------------------------------ all or nothing

  /** The call's own filter: the association is one of those it asks to delete. */
  predicate AskedFor(a: Association, resourceID: string, resourceType: ResourceType, types: seq<AssociationType>) {
    && a.resourceID == resourceID
    && (resourceType == NoResourceType || a.resourceType == resourceType)
    && (types == [] || a.associationType in types)
  }

  ghost predicate FrozenAskedFor(x: Index, resourceID: string, resourceType: ResourceType, types: seq<AssociationType>) {
    exists a :: Listed(x, a) && AskedFor(a, resourceID, resourceType, types) && a.lifecycle == STRONG && a.frozen
  }

  lemma AskedForIsFound(x: Index, resourceID: string, resourceType: ResourceType, types: seq<AssociationType>, a: Association)
    requires Agree(x)
    ensures AskedFor(a, resourceID, resourceType, types) <==> Doomed(resourceID, DeleteQuery(resourceType, types), a)
    ensures a in Found(x, resourceID, DeleteQuery(resourceType, types)) <==> Listed(x, a) && AskedFor(a, resourceID, resourceType, types)
  {
    FoundIsDoomed(x, resourceID, DeleteQuery(resourceType, types), a);
  }

  lemma BlockedIff(x: Index, resourceID: string, resourceType: ResourceType, types: seq<AssociationType>, cascade: bool)
    requires Agree(x)
    ensures Blocked(Found(x, resourceID, DeleteQuery(resourceType, types)), cascade) <==> !cascade && FrozenAskedFor(x, resourceID, resourceType, types)
  {
    forall a ensures a in Found(x, resourceID, DeleteQuery(resourceType, types)) <==> Listed(x, a) && AskedFor(a, resourceID, resourceType, types) {
      AskedForIsFound(x, resourceID, resourceType, types, a);
    }
  }

  /** Of the associations in `x`, exactly those asked for are missing from the
      subject lists, the resource lists and the keys of `y`. */
  ghost predicate ExactlyWithout(x: Index, y: Index, resourceID: string, resourceType: ResourceType, types: seq<AssociationType>) {
    && (forall a {:trigger MissingIff(x, y, a, AskedFor(a, resourceID, resourceType, types))} ::
          MissingIff(x, y, a, AskedFor(a, resourceID, resourceType, types)))
    && (forall k {:trigger k in y.byKey} {:trigger k in x.byKey} ::
          k in y.byKey <==> k in x.byKey && !AskedFor(x.byKey[k], resourceID, resourceType, types))
  }

  ghost predicate MissingIff(x: Index, y: Index, a: Association, asked: bool) {
    && (Listed(y, a) <==> Listed(x, a) && !asked)
    && (a in At(y.byResource, a.resourceID) <==> Listed(y, a))
  }

  lemma PurgedIsExactlyWithout(x: Index, resourceID: string, resourceType: ResourceType, types: seq<AssociationType>)
    requires Agree(x)
    ensures ExactlyWithout(x, Purged(x, resourceID, DeleteQuery(resourceType, types)), resourceID, resourceType, types)
  {
    var q := DeleteQuery(resourceType, types);
    var y := Purged(x, resourceID, q);
    PurgedKeepsAgree(x, resourceID, q);
    forall a ensures MissingIff(x, y, a, AskedFor(a, resourceID, resourceType, types)) {
      AskedForIsFound(x, resourceID, resourceType, types, a);
      PurgedListed(x, resourceID, q, a);
      ListedByResource(y, a);
    }
    forall k | k in x.byKey ensures DoomedKey(resourceID, q, k) <==> AskedFor(x.byKey[k], resourceID, resourceType, types) {
      assert KeyOf(x.byKey[k]) == k;
    }
  }

  /** Deleting associations changes nothing exactly when one of those asked for is
      STRONG and frozen and there is no cascade. Otherwise exactly those asked for
      leave the three indexes. */
  lemma DeletionIsAllOrNothing(s: State, resourceID: string, resourceType: ResourceType,
                               types: seq<AssociationType>, cascade: bool)
    requires Invariant(s)
    ensures var t := Step(s, DeleteAssociations(resourceID, resourceType, types, cascade));
            if !cascade && FrozenAskedFor(s.idx, resourceID, resourceType, types) then t == s
            else ExactlyWithout(s.idx, t.idx, resourceID, resourceType, types)
  {
    BlockedIff(s.idx, resourceID, resourceType, types, cascade);
    PurgedIsExactlyWithout(s.idx, resourceID, resourceType, types);
  }

  // ------------------------------------------------ registrations over any run

  /** The call takes the registration `k` out of the registry for good. */
  ghost predicate Erases(s: State, c: Call, k: SubjectJson) {
    match c
    case DeleteSubject(subject, permanent) => permanent && subject == k.subject && Deletable(s, subject)
    case DeleteSubjectVersion(subject, version, permanent) => permanent && AtVersion(s.reg, k, subject, version)
    case DeleteAssociations(resourceID, resourceType, types, cascade) =>
      cascade && k.subject in StrongSubjects(Found(s.idx, resourceID, DeleteQuery(resourceType, types)))
    case _ => false
  }

  /** `r` still has the registration `k`, under the same id. */
  ghost predicate Survives(r: Registry, k: SubjectJson, r': Registry) {
    k in r.info && k in r'.info && r'.info[k].metadata.id == r.info[k].metadata.id
  }

  /** Ids at or below the old counter mean what they meant before; GUIDs too. */
  ghost predicate KeepsMeaning(r: Registry, r': Registry) {
    && r.counter <= r'.counter
    && (forall i :: i in r'.ids && i.id <= r.counter ==> i in r.ids && r'.ids[i] == r.ids[i])
    && (forall g :: g in r.guids ==> g in r'.guids && r'.guids[g] == r.guids[g])
  }

  lemma RegisteredSurvives(r: Registry, k: SubjectJson, pick: Guid, l: SubjectJson)
    requires Valid(r)
    ensures l in r.info ==> Survives(r, l, Registered(r, k, pick).0)
    ensures KeepsMeaning(r, Registered(r, k, pick).0)
  {
    assert r.nextGuid in r.guids ==> GuidOk(r, r.nextGuid);
  }

  lemma {:induction false} PostedSurvives(r: Registry, infos: seq<CreateInfo>, picks: seq<Guid>, l: SubjectJson)
    requires Valid(r) && GoodPicks(r, infos, picks)
    ensures l in r.info ==> Survives(r, l, Posted(r, infos, picks))
    ensures KeepsMeaning(r, Posted(r, infos, picks))
    decreases |infos|
  {
    if infos != [] {
      if infos[0].schema.Some? {
        var k := SubjectJson(infos[0].subject, infos[0].schema.value);
        RegisteredKeepsValid(r, k, picks[0]);
        RegisteredSurvives(r, k, picks[0], l);
      }
      PostedSurvives(PostedOne(r, infos[0], picks[0]), infos[1..], picks[1..], l);
    }
  }

  /** A registration stays, with its id, unless the call erases it. */
  lemma StepRegistrations(s: State, c: Call, k: SubjectJson)
    requires Invariant(s) && Possible(s, c)
    ensures KeepsMeaning(s.reg, Step(s, c).reg)
    ensures k in s.reg.info ==> if Erases(s, c, k) then k !in Step(s, c).reg.info else Survives(s.reg, k, Step(s, c).reg)
  {
    assert k in s.reg.info ==> EntryOk(s.reg, k);
    match c
    case Register(subject, schema, pick) =>
      RegisteredSurvives(s.reg, SubjectJson(subject, schema), pick, k);
    case CreateAssociation(request, picks) =>
      if Rejection(s, request).None? {
        PostedSurvives(s.reg, Infos(request), picks, k);
      }
    case _ =>
  }

  ghost predicate NeverErased(s: State, calls: seq<Call>, k: SubjectJson)
    requires Invariant(s) && PossibleRun(s, calls)
    decreases |calls|
  {
    calls != [] ==>
      && !Erases(s, calls[0], k)
      && (StepKeepsInvariant(s, calls[0]); NeverErased(Step(s, calls[0]), calls[1..], k))
  }

  lemma {:induction false} RunRegistrations(s: State, calls: seq<Call>, k: SubjectJson)
    requires Invariant(s) && PossibleRun(s, calls)
    ensures KeepsMeaning(s.reg, Run(s, calls).reg)
    ensures k in s.reg.info && NeverErased(s, calls, k) ==> Survives(s.reg, k, Run(s, calls).reg)
    decreases |calls|
  {
    if calls != [] {
      StepKeepsInvariant(s, calls[0]);
      StepRegistrations(s, calls[0], k);
      RunRegistrations(Step(s, calls[0]), calls[1..], k);
    }
  }

  /** What a registration returned is found again after any later run: by GUID
      always, by subject and id as long as no call erased it. */
  lemma RegistrationRoundTrip(s: State, k: SubjectJson, pick: Guid, calls: seq<Call>)
    requires Invariant(s) && GoodPick(s.reg, k, pick)
    requires var c := Register(k.subject, k.json, pick); Invariant(Step(s, c)) && PossibleRun(Step(s, c), calls)
    ensures var m := Registered(s.reg, k, pick).1;
            var start := Step(s, Register(k.subject, k.json, pick));
            var r := Run(start, calls).reg;
            && m.guid in r.guids && r.guids[m.guid].info == k.json
            && (NeverErased(start, calls, k) ==> SubjectId(k.subject, m.id) in r.ids && r.ids[SubjectId(k.subject, m.id)].info == k.json)
  {
    var m := Registered(s.reg, k, pick).1;
    var start := Step(s, Register(k.subject, k.json, pick));
    RegisteredEntry(s.reg, k, pick);
    assert start.reg.info[k].metadata == m;
    RunRegistrations(start, calls, k);
    var r := Run(start, calls).reg;
    if NeverErased(start, calls, k) {
      assert EntryOk(r, k);
    }
  }

  /** Registering a live schema again changes nothing; registering it again
      after a soft delete gives the old id back. */
  lemma ReRegistration(s: State, k: SubjectJson, pick: Guid, calls: seq<Call>, again: Guid)
    requires Invariant(s) && GoodPick(s.reg, k, pick)
    requires var c := Register(k.subject, k.json, pick); Invariant(Step(s, c)) && PossibleRun(Step(s, c), calls)
    requires NeverErased(Step(s, Register(k.subject, k.json, pick)), calls, k)
    ensures var t := Run(Step(s, Register(k.subject, k.json, pick)), calls);
            && Registered(t.reg, k, again).1.id == Registered(s.reg, k, pick).1.id
            && (Live(t.reg, k) ==> Registered(t.reg, k, again).0 == t.reg)
  {
    var start := Step(s, Register(k.subject, k.json, pick));
    RegisteredEntry(s.reg, k, pick);
    RunRegistrations(start, calls, k);
    assert EntryOk(Run(start, calls).reg, k);
  }

  // --------------------------------------------------------- the latest version

  /** No schema posted gives the subject a new version. */
  ghost predicate NoneGiven(r: Registry, infos: seq<CreateInfo>, picks: seq<Guid>, subject: Subject)
    requires |infos| == |picks|
    decreases |infos|
  {
    infos != [] ==>
      && (infos[0].schema.Some? && infos[0].subject == subject ==> Live(r, SubjectJson(subject, infos[0].schema.value)))
      && NoneGiven(PostedOne(r, infos[0], picks[0]), infos[1..], picks[1..], subject)
  }

  /** The call gives the subject a new version or deletes something under it:
      registering or posting live schemas and calls that are refused do not. */
  ghost predicate Touches(s: State, c: Call, subject: Subject)
    requires NoneEmpty(s.idx.bySubject) && Possible(s, c)
  {
    match c
    case Register(name, schema, pick) => name == subject && !Live(s.reg, SubjectJson(name, schema))
    case DeleteSubject(name, permanent) => name == subject && Deletable(s, name)
    case DeleteSubjectVersion(name, version, permanent) => name == subject && exists k :: AtVersion(s.reg, k, name, version)
    case CreateAssociation(request, picks) => Rejection(s, request).None? && !NoneGiven(s.reg, Infos(request), picks, subject)
    case DeleteAssociations(resourceID, resourceType, types, cascade) =>
      cascade && subject in StrongSubjects(Found(s.idx, resourceID, DeleteQuery(resourceType, types)))
  }

  ghost predicate SameSubject(r: Registry, r': Registry, subject: Subject) {
    forall k: SubjectJson :: k.subject == subject ==>
      && (k in r.versions <==> k in r'.versions)
      && (k in r.versions ==> r'.versions[k] == r.versions[k])
      && (k in r.info <==> k in r'.info)
      && (k in r.info ==> r'.info[k] == r.info[k])
  }

  lemma PostedOneKeepsValid(r: Registry, info: CreateInfo, pick: Guid)
    requires Valid(r) && (info.schema.Some? ==> GoodPick(r, SubjectJson(info.subject, info.schema.value), pick))
    ensures Valid(PostedOne(r, info, pick))
  {
    if info.schema.Some? {
      RegisteredKeepsValid(r, SubjectJson(info.subject, info.schema.value), pick);
    }
  }

  /** Posting nothing for the subject, or a schema that is live, leaves it alone. */
  lemma PostedOneLeavesSubject(r: Registry, info: CreateInfo, pick: Guid, subject: Subject)
    requires Valid(r) && (info.schema.Some? && info.subject == subject ==> Live(r, SubjectJson(subject, info.schema.value)))
    ensures SameSubject(r, PostedOne(r, info, pick), subject)
  {
    if info.schema.Some? && info.subject == subject {
      assert EntryOk(r, SubjectJson(subject, info.schema.value));
    }
  }

  lemma {:induction false} PostedLeavesSubject(r: Registry, infos: seq<CreateInfo>, picks: seq<Guid>, subject: Subject)
    requires Valid(r) && GoodPicks(r, infos, picks) && NoneGiven(r, infos, picks, subject)
    ensures SameSubject(r, Posted(r, infos, picks), subject)
    decreases |infos|
  {
    if infos != [] {
      PostedOneKeepsValid(r, infos[0], picks[0]);
      PostedOneLeavesSubject(r, infos[0], picks[0], subject);
      PostedLeavesSubject(PostedOne(r, infos[0], picks[0]), infos[1..], picks[1..], subject);
    }
  }

  lemma StepLeavesSubject(s: State, c: Call, subject: Subject)
    requires Invariant(s) && Possible(s, c) && !Touches(s, c, subject)
    ensures SameSubject(s.reg, Step(s, c).reg, subject)
  {
    match c
    case Register(name, schema, pick) =>
      assert Live(s.reg, SubjectJson(name, schema)) ==> EntryOk(s.reg, SubjectJson(name, schema));
    case CreateAssociation(request, picks) =>
      if Rejection(s, request).None? {
        PostedLeavesSubject(s.reg, Infos(request), picks, subject);
      }
    case DeleteSubjectVersion(name, version, permanent) =>
      assert name == subject ==> forall k :: !AtVersion(s.reg, k, name, version);
    case _ =>
  }

  ghost predicate NeverTouched(s: State, calls: seq<Call>, subject: Subject)
    requires Invariant(s) && PossibleRun(s, calls)
    decreases |calls|
  {
    calls != [] ==>
      && !Touches(s, calls[0], subject)
      && (StepKeepsInvariant(s, calls[0]); NeverTouched(Step(s, calls[0]), calls[1..], subject))
  }

  lemma {:induction false} RunLeavesSubject(s: State, calls: seq<Call>, subject: Subject)
    requires Invariant(s) && PossibleRun(s, calls) && NeverTouched(s, calls, subject)
    ensures SameSubject(s.reg, Run(s, calls).reg, subject)
    decreases |calls|
  {
    if calls != [] {
      StepKeepsInvariant(s, calls[0]);
      StepLeavesSubject(s, calls[0], subject);
      RunLeavesSubject(Step(s, calls[0]), calls[1..], subject);
    }
  }

  /** The registration is live at the highest live version of its subject, alone. */
  ghost predicate IsLatest(r: Registry, k: SubjectJson) {
    Live(r, k) && forall l {:trigger Live(r, l)} :: Live(r, l) && l.subject == k.subject && l != k ==> r.versions[l].version < r.versions[k].version
  }

  lemma LatestMeans(r: Registry, k: SubjectJson)
    requires IsLatest(r, k)
    ensures r.versions[k].version == Latest(r, k.subject)
    ensures forall l :: l in LiveKeys(r, k.subject) && r.versions[l].version == Latest(r, k.subject) ==> l == k
  {
    assert k in LiveKeys(r, k.subject);
    assert forall l :: l in LiveKeys(r, k.subject) ==> Live(r, l);
  }

  lemma SameSubjectKeepsLatest(r: Registry, r': Registry, k: SubjectJson)
    requires IsLatest(r, k) && SameSubject(r, r', k.subject)
    ensures IsLatest(r', k) && r'.versions[k] == r.versions[k]
  {
    forall l | Live(r', l) && l.subject == k.subject && l != k ensures r'.versions[l].version < r'.versions[k].version {
      assert Live(r, l);
    }
  }

  lemma RegisteredIsLatest(r: Registry, k: SubjectJson, pick: Guid)
    requires Valid(r) && GoodPick(r, k, pick) && !Live(r, k)
    ensures var r' := Registered(r, k, pick).0;
            IsLatest(r', k) && r'.versions[k].version == NextVersion(r, k.subject)
  {
    var r' := Registered(r, k, pick).0;
    RegisteredEntry(r, k, pick);
    NextVersionIsNew(r, k.subject);
    assert k in r.info ==> EntryOk(r, k);
    forall l | Live(r', l) && l.subject == k.subject && l != k ensures r'.versions[l].version < r'.versions[k].version {
      assert Live(r, l);
    }
  }

  /** Posting `info` gives its schema a new version. */
  ghost predicate GivesVersion(r: Registry, info: CreateInfo, k: SubjectJson) {
    info.schema.Some? && SubjectJson(info.subject, info.schema.value) == k && !Live(r, k)
  }

  /** Of the schemas posted, `k` is the last to be given a version of its subject. */
  ghost predicate LastGiven(r: Registry, infos: seq<CreateInfo>, picks: seq<Guid>, k: SubjectJson)
    requires |infos| == |picks|
    decreases |infos|
  {
    infos != [] &&
      var r' := PostedOne(r, infos[0], picks[0]);
      || (GivesVersion(r, infos[0], k) && NoneGiven(r', infos[1..], picks[1..], k.subject))
      || LastGiven(r', infos[1..], picks[1..], k)
  }

  lemma {:induction false} LastGivenIsLatest(r: Registry, infos: seq<CreateInfo>, picks: seq<Guid>, k: SubjectJson)
    requires Valid(r) && GoodPicks(r, infos, picks) && LastGiven(r, infos, picks, k)
    ensures IsLatest(Posted(r, infos, picks), k)
    decreases |infos|
  {
    var r' := PostedOne(r, infos[0], picks[0]);
    PostedOneKeepsValid(r, infos[0], picks[0]);
    if LastGiven(r', infos[1..], picks[1..], k) {
      LastGivenIsLatest(r', infos[1..], picks[1..], k);
    } else {
      RegisteredIsLatest(r, k, picks[0]);
      PostedLeavesSubject(r', infos[1..], picks[1..], k.subject);
      SameSubjectKeepsLatest(r', Posted(r', infos[1..], picks[1..]), k);
    }
  }

  /** The call gives `k` a new version, and its subject none after that. */
  ghost predicate Gives(s: State, c: Call, k: SubjectJson)
    requires NoneEmpty(s.idx.bySubject) && Possible(s, c)
  {
    match c
    case Register(subject, schema, pick) => SubjectJson(subject, schema) == k && !Live(s.reg, k)
    case CreateAssociation(request, picks) => Rejection(s, request).None? && LastGiven(s.reg, Infos(request), picks, k)
    case _ => false
  }

  lemma GivenIsLatest(s: State, c: Call, k: SubjectJson)
    requires Invariant(s) && Possible(s, c) && Gives(s, c, k)
    ensures IsLatest(Step(s, c).reg, k)
  {
    match c
    case Register(subject, schema, pick) => RegisteredIsLatest(s.reg, k, pick);
    case CreateAssociation(request, picks) =>
      LastGivenIsLatest(s.reg, Infos(request), picks, k);
      assert SameSubject(Posted(s.reg, Infos(request), picks), Step(s, c).reg, k.subject);
      SameSubjectKeepsLatest(Posted(s.reg, Infos(request), picks), Step(s, c).reg, k);
  }

  /** The schema last given a new version, by a registration or by a schema posted
      with associations, is the latest of its subject and alone at that version,
      after every later run that leaves the subject alone. */
  lemma LatestIsLastGiven(s: State, c: Call, k: SubjectJson, calls: seq<Call>)
    requires Invariant(s) && Possible(s, c) && Gives(s, c, k)
    requires (StepKeepsInvariant(s, c); PossibleRun(Step(s, c), calls) && NeverTouched(Step(s, c), calls, k.subject))
    ensures Invariant(Step(s, c)) && PossibleRun(Step(s, c), calls)
    ensures var r := Run(Step(s, c), calls).reg;
            && Live(r, k)
            && r.versions[k].version == Latest(r, k.subject)
            && (forall l :: l in LiveKeys(r, k.subject) && r.versions[l].version == Latest(r, k.subject) ==> l == k)
            && k in Step(s, c).reg.info && k in r.info && r.info[k] == Step(s, c).reg.info[k]
            && (c.Register? ==> r.versions[k].version == NextVersion(s.reg, k.subject)
                                && r.info[k].metadata == Registered(s.reg, k, c.pick).1)
  {
    StepKeepsInvariant(s, c);
    GivenIsLatest(s, c, k);
    RunLeavesSubject(Step(s, c), calls, k.subject);
    assert EntryOk(Step(s, c).reg, k);
    if c.Register? {
      RegisteredIsLatest(s.reg, k, c.pick);
      assert k in s.reg.info ==> EntryOk(s.reg, k);
    }
    SameSubjectKeepsLatest(Step(s, c).reg, Run(Step(s, c), calls).reg, k);
    LatestMeans(Run(Step(s, c), calls).reg, k);
  }
}
