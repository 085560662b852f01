# Verified models of confluent-kafka-go's stateful Go code

confluent-kafka-go is a Go client for Apache Kafka. Most of it wraps librdkafka, but
a few parts keep state of their own in Go, spread over several maps, lists, channels
or goroutines. This project models those parts in Dafny and proves what they keep over
whole runs. `dafny verify dfyconfig.toml` checks all of it.

| files | what they model |
|---|---|
| `RegistryModel`, `AssociationModel`, `MockState` | the tables of the in-memory Schema Registry (`mockclient`) as values: schemas by subject and JSON, by id, by GUID, by version; associations by subject, by resource, by resource and type; what each call does to them |
| `MockClient` | the same client as a class that updates its maps in place, proved against those functions |
| `RegistryRuns`, `CallMeanings` | what holds over every sequence of calls; what each call means in terms of its own arguments |
| `LruCache`, `LruHistory`, `LruConcurrent` | the LRU cache as a class; over histories of calls, against the plain map cache and the order of last use; shared by threads that interleave where its locks are released |
| `DoubleChecked` | the REST client's caches, looked up before and after taking the write lock, and cleared before a subject is deleted |
| `WaitResult` | `AdminClient.waitResult`: poller, caller and cancellation as a transition system |
| `Delivery`, `EventPolling` | the table that ties a `Produce` call to its delivery report, and the poll loop that hands reports out |
| `BatchProducer` | the channel producer that gathers messages into one batch per topic |
| `TrafficLight`, `Intersections`, `Transactions` | the transactional consume-process-produce example: one traffic light, the in-memory states of a partition's intersections, and the transactions around them |
| `SoakTest` | the soak test's count of duplicated and missed messages |
| `Sequences`, `Wrappers` | shared list and option definitions |

Choices the Go code leaves open are left open here. A loop over a Go map takes its keys
in any order. Which GUID a scan of the GUID table meets first is recorded in the call
(`pick`), and every possible value of it is covered. librdkafka, the REST server, the
broker and the scheduler are transition steps or parameters with any answer.

## Properties that fail, and exactly when

- One create request with two associations for one subject is not checked against
  itself (schemaregistry/mock_schemaregistry_client.go:961-1020). An accepted request
  keeps "only WEAK, or a single STRONG" if and only if its associations that share a
  subject are all WEAK: `CreatedExclusive`. `ClashExample` is a clashing request that an
  empty client accepts.
- `DeleteSubjectVersion` does not look at associations. It keeps "every associated
  subject has a live schema" if and only if the subject has no association or keeps
  another live version: `VersionDeletedAssociatedLive`. `VersionDeletionStrands` is a run
  of three calls from the empty client that ends without a live schema.
- `GetSchemaMetadataIncludeDeleted` with deleted versions depends on the map order when a
  version number was given again after a deletion. Every scan finds the same entry if and
  only if no other entry shows at the version: `ScanIsUniqueIff`. `NumbersAreGivenAgain`
  is such a registry.
- The id that `cgoPut` returns is called unique and its uniqueness questioned in the same
  comment (kafka/handle.go:254-257). A put keeps the table intact if and only if no
  pending message is a multiple of 2^64 - 1 puts behind it: `BeginKeepsInvariant` and
  `CollisionBreaksTable`. `CollisionMisdirects` states the consequence for both messages,
  and `SomeRunMisdirects` is a run from the beginning that ends in it.
- With delivery reports not forwarded, a report without a channel ends the poll
  (kafka/event.go:259-262). Every report with a channel is handed out if and only if
  reports are forwarded or none without a channel comes before one with it:
  `AllChannelsServed` for one event. Over repeated polls the later events are handled all
  the same, so a report with a channel is lost if and only if reports are not forwarded
  and an earlier report of its own event has no channel: `ChannelsServedOverPolls`.
  `ChannelNotServed` is two messages of which the second's channel is never served.
- The comment on the election promises weight for "the fair next road"
  (examples/transactions_example/processor.go:154-160), but that weight is overwritten.
  Over all orders in which the two map loops can meet the roads, a road can win if and
  only if its queue is a longest one (`CanWinIffLongest`), whosever turn it is
  (`TurnPlaysNoPart`), and it wins under all of them if and only if its queue is strictly
  the longest (`CertainIffStrictlyLongest`). `StarvationFromTheStart` is a run in which
  one car waits through any number of elections.
- An aborted transaction rewinds the consumer but not the in-memory intersection states.
  They are as they were when the transaction began if and only if the tick elected nobody
  and every message read was harmless, that is, had no key or value, or named a known
  intersection with an unknown or green road: `AbortKeepsStates`. `AbortedCarsCountAgain`
  is the law that holds instead over all runs, and `OneCarWaitsTwice` is a run from the
  beginning after which one car waits twice.
- A `Get` of the LRU cache that was split by other threads returns what a whole `Get`
  would where it finishes if and only if the key is still resident and the last `Put` of
  it since the read step, if any, stored the value that was read: `SplitGetIsWhole`.
  `SplitGetReturnsOldValue` and `StaleGetReturnsDeletedValue` are interleavings in which
  it does not, with a current and with a stale element.
- `DeleteSubject` of the REST client clears its caches before it asks the server
  (schemaregistry/schemaregistry_client.go:890-925). A deletion leaves every cached entry
  current if and only if no key of the subject was answered since its entries were last
  cleared: `DeletionIsCleanIff`. `DeletedSchemaStaysCached` is a run from the beginning
  after which a deleted schema is cached and handed out.
- Message ids of zero look like "nothing seen yet" to the soak test. `BalanceLaw` states
  the accounting with the exact amount that goes unseen, `ZeroGoesUnseen` is a history in
  which four missed messages are not counted, and `PartitionLaw` is the plain law for
  positive ids.

## Model

| member | source | states |
|---|---|---|
| RegistryModel.NextVersionIsNew | schemaregistry/mock_schemaregistry_client.go:202-222 | the version handed out is one above the highest live version of the subject, 1 when nothing is live |
| RegistryModel.RegisteredKeepsValid | schemaregistry/mock_schemaregistry_client.go:123-222 | registration keeps the four tables in agreement: equal keys and soft-delete flags, ids in bijection with registrations, bounded by the counter and owned by one subject, GUIDs of the right schema, live versions positive and distinct; whichever GUID the scan met |
| RegistryModel.SubjectDeletedKeepsValid | schemaregistry/mock_schemaregistry_client.go:646-676 | soft and permanent deletion of a subject keep that agreement |
| RegistryModel.VersionDeletedKeepsValid | schemaregistry/mock_schemaregistry_client.go:680-712 | so does deleting one version, which may hit several entries with the same number |
| AssociationModel.InsertedAllKeepsAgree | schemaregistry/mock_schemaregistry_client.go:1036-1057 | writing associations that fit the key index keeps the three indexes in agreement up to GUID: same multiset by subject and by resource, no empty list, listed means keyed and keyed means listed |
| AssociationModel.WithoutEachSpares | schemaregistry/mock_schemaregistry_client.go:900-907 | removing the matches one first occurrence at a time, as often as each occurs, leaves exactly the non-matching elements in their order |
| AssociationModel.RemovedAllIsPurged | schemaregistry/mock_schemaregistry_client.go:1198-1259 | the loop of single removals equals the set-wise purge of every match from all three indexes |
| AssociationModel.PurgedKeepsAgree | schemaregistry/mock_schemaregistry_client.go:1222-1259 | the purge keeps the index agreement |
| AssociationModel.KeepMember | schemaregistry/mock_schemaregistry_client.go:1080-1107 | the filter keeps an association if and only if it is in the list and has the resource type, one of the association types and the lifecycle given, where given |
| AssociationModel.Page | schemaregistry/mock_schemaregistry_client.go:1108-1117 | a page holds the elements from the offset on, up to the limit, all of them for a limit of zero or less |
| AssociationModel.FoundIsDoomed | schemaregistry/mock_schemaregistry_client.go:1154-1161 | what the resource list yields for a filter is what any index has for that resource and filter |
| MockState.AcceptedFits | schemaregistry/mock_schemaregistry_client.go:935-1020 | a request that passes the checks yields well-formed associations (none WEAK and frozen) under distinct keys, each equal up to GUID to what its key already holds |
| MockState.CreatedKeepsInvariant | schemaregistry/mock_schemaregistry_client.go:919-1078 | creating associations, with the schemas posted on the way, keeps tables and indexes in agreement |
| MockState.AssociationsDeletedKeepsInvariant | schemaregistry/mock_schemaregistry_client.go:1198-1259 | so does deleting them, including the cascade that destroys subjects |
| MockState.SoftThenPermanent | schemaregistry/mock_schemaregistry_client.go:1198-1209 | the cascade's soft delete changes nothing that its permanent delete leaves |
| MockState.StepKeepsInvariant | schemaregistry/mock_schemaregistry_client.go:123-1259 | every call keeps the whole invariant |
| RegistryRuns.EmptyStateInvariant | schemaregistry/mock_schemaregistry_client.go:76-98 | the empty client satisfies it |
| RegistryRuns.Run | schemaregistry/mock_schemaregistry_client.go:123-1259 | every state that a sequence of calls reaches satisfies the invariant |
| RegistryRuns.EveryRun | schemaregistry/mock_schemaregistry_client.go:628-1259 | from the empty client, with pairwise distinct subjects per request: agreement, each subject only WEAK or a single STRONG up to GUID, and without DeleteSubjectVersion every associated subject has a live schema |
| RegistryRuns.RunKeepsExclusive | schemaregistry/mock_schemaregistry_client.go:628-1259 | the same from any such state and for the wider class of requests without a clash |
| RegistryRuns.PicksExist | schemaregistry/mock_schemaregistry_client.go:161-181 | the GUID scan can always succeed where it must, so no call is stuck |
| RegistryRuns.AdmittedIsCompatible | schemaregistry/mock_schemaregistry_client.go:999-1019 | testing only the first element of the subject's list decides compatibility with all of them |
| RegistryRuns.CreatedExclusive | schemaregistry/mock_schemaregistry_client.go:961-1057 | an accepted request keeps exclusivity if and only if it does not clash with itself |
| RegistryRuns.ClashExample | schemaregistry/mock_schemaregistry_client.go:973-1020 | a clashing request that is accepted |
| RegistryRuns.StepKeepsExclusive | schemaregistry/mock_schemaregistry_client.go:919-1259 | every other call keeps exclusivity |
| RegistryRuns.CreatedKeepsAssociatedLive | schemaregistry/mock_schemaregistry_client.go:961-1057 | creating associations leaves every associated subject with a live schema |
| RegistryRuns.CascadeKeepsAssociatedLive | schemaregistry/mock_schemaregistry_client.go:1198-1259 | a cascade that destroys subjects leaves no association on a destroyed one |
| RegistryRuns.VersionDeletedAssociatedLive | schemaregistry/mock_schemaregistry_client.go:680-712 | when deleting one version keeps that property, both directions |
| RegistryRuns.VersionDeletionStrands | schemaregistry/mock_schemaregistry_client.go:680-712 | register, associate, delete version 1 is a run that breaks it |
| RegistryRuns.StepKeepsAssociatedLive | schemaregistry/mock_schemaregistry_client.go:628-676 | every call but DeleteSubjectVersion keeps it |
| RegistryRuns.DeletionIsAllOrNothing | schemaregistry/mock_schemaregistry_client.go:1189-1259 | nothing changes exactly when a STRONG frozen association of that resource, resource type and types is met without cascade; otherwise exactly the associations of that resource, resource type and types leave all three indexes |
| CallMeanings.NumberedInOrder | schemaregistry/mock_schemaregistry_client.go:161-222 | new schemas of a subject with nothing live get versions 1, 2, 3 and so on, and the next ids, in the order of registration |
| CallMeanings.SubjectDeletionMeans | schemaregistry/mock_schemaregistry_client.go:628-676 | a subject with a name and without associations loses exactly its registrations, out of every table or marked in two; otherwise nothing changes |
| CallMeanings.VersionDeletionMeans | schemaregistry/mock_schemaregistry_client.go:680-712 | exactly the registrations of the subject with that number go, live or not |
| CallMeanings.CascadeMeans | schemaregistry/mock_schemaregistry_client.go:1198-1259 | a cascade destroys exactly the subjects of STRONG associations asked for; without cascade no registration changes |
| CallMeanings.CreatedAsAsked | schemaregistry/mock_schemaregistry_client.go:867-1057 | after an accepted request each association is under its subject, its resource and its key with the request's own name, namespace, id, type, lifecycle and frozen flag, defaults filled in, and a new GUID; each schema given is live |
| CallMeanings.NewGoLast | schemaregistry/mock_schemaregistry_client.go:1036-1057 | new associations go to the end of the lists in the order of the request, and nothing else is added |
| CallMeanings.AcceptedIff | schemaregistry/mock_schemaregistry_client.go:867-1020 | when a request is accepted and with which error it is refused, on the request's own fields and the stored associations |
| RegistryRuns.StepRegistrations | schemaregistry/mock_schemaregistry_client.go:123-712 | a registration keeps its id unless the call erases it for good; ids already used never get another meaning; GUIDs keep theirs |
| RegistryRuns.RunRegistrations | schemaregistry/mock_schemaregistry_client.go:123-712 | the same over every run: ids are never reused |
| RegistryRuns.RegistrationRoundTrip | schemaregistry/mock_schemaregistry_client.go:123-260 | after any later run the returned GUID finds the schema, and the returned id does until the registration is permanently deleted |
| RegistryRuns.ReRegistration | schemaregistry/mock_schemaregistry_client.go:123-200 | registering again after any such run returns the same id, and changes nothing while the schema is live |
| RegistryRuns.RunLeavesSubject | schemaregistry/mock_schemaregistry_client.go:123-1259 | calls that give the subject no new version and delete nothing under it leave its registrations and versions alone, over any run; registering or posting live schemas is such a call |
| RegistryRuns.LastGivenIsLatest | schemaregistry/mock_schemaregistry_client.go:1022-1034 | of the schemas posted with associations, the last to be given a version of its subject is the latest there |
| RegistryRuns.LatestIsLastGiven | schemaregistry/mock_schemaregistry_client.go:354-365 | the schema last given a new version, by a registration or by a posted schema, is the latest of its subject, alone at its version and with its id and GUID unchanged, over every later run that registers and deletes nothing under the subject |
| MockClient.Client.constructor | schemaregistry/mock_schemaregistry_client.go:76-98 | starts with all maps empty |
| MockClient.Client.AllVersions | schemaregistry/mock_schemaregistry_client.go:532-543 | exactly the live versions, in increasing order, each once |
| MockClient.Client.LatestVersion | schemaregistry/mock_schemaregistry_client.go:545-551 | the greatest live version, negative if and only if there is none |
| MockClient.Client.FindId | schemaregistry/mock_schemaregistry_client.go:163-170 | the scan finds the registration's own id whatever the map order, and -1 exactly when there is no registration |
| MockClient.Client.FindGuid | schemaregistry/mock_schemaregistry_client.go:172-180 | a GUID of an equal schema, the empty one only when there is none |
| MockClient.Client.GenerateVersion | schemaregistry/mock_schemaregistry_client.go:202-222 | stores for the schema a version one above the highest live one, 1 when nothing is live, and changes nothing else |
| MockClient.Client.GetIDFromRegistry | schemaregistry/mock_schemaregistry_client.go:161-200 | reuses the id of a soft-deleted registration or takes a new id and GUID, as the registration step says |
| MockClient.Client.RegisterFullResponse | schemaregistry/mock_schemaregistry_client.go:123-159 | performs the registration step for the GUID it returns, leaves the schema live under the metadata it returns, and keeps the invariant |
| MockClient.Client.GetBySubjectAndID | schemaregistry/mock_schemaregistry_client.go:226-243 | finds a schema if and only if a registration of the subject has the id, and it is that registration's |
| MockClient.Client.GetByGUID | schemaregistry/mock_schemaregistry_client.go:247-260 | the schema stored under the GUID, if any |
| MockClient.Client.GetIDFullResponse | schemaregistry/mock_schemaregistry_client.go:321-350 | succeeds if and only if the schema is live, with an id and a GUID under which it is stored |
| MockClient.Client.GetSubjectsAndVersionsByID | schemaregistry/mock_schemaregistry_client.go:262-309 | exactly one pair if and only if the id has a live registration; the exit for a missing version, which keeps read locks, is unreachable |
| MockClient.ScanIsUniqueIff | schemaregistry/mock_schemaregistry_client.go:376-384 | every order of the version table yields the same entry if and only if no other entry shows at the version |
| MockClient.NumbersAreGivenAgain | schemaregistry/mock_schemaregistry_client.go:202-222 | a number that two entries show once deleted versions are included |
| MockClient.Client.FindVersion | schemaregistry/mock_schemaregistry_client.go:376-384 | the first entry at the version in the order met, none exactly when there is none |
| MockClient.Client.GetSchemaMetadataIncludeDeleted | schemaregistry/mock_schemaregistry_client.go:375-441 | describes the entry its scan met first; fails only when no entry shows at the version, so its id and GUID lookups never fail; for a live version schema and id do not depend on map order |
| MockClient.Client.GetLatestSchemaMetadata | schemaregistry/mock_schemaregistry_client.go:354-365 | describes the registration with the greatest live version, none exactly when nothing is live |
| MockClient.Client.DeleteSubjectUnchecked | schemaregistry/mock_schemaregistry_client.go:646-676 | the three loops perform the subject deletion and return the version of each deleted entry once |
| MockClient.Client.DeleteSubject | schemaregistry/mock_schemaregistry_client.go:628-644 | refused exactly for the empty subject and for one with associations; otherwise performs the deletion |
| MockClient.Client.DeleteSubjectVersion | schemaregistry/mock_schemaregistry_client.go:680-712 | deletes every entry at the version from all tables and keeps the invariant |
| MockClient.Client.ApplyFilter | schemaregistry/mock_schemaregistry_client.go:1080-1118 | the requested page of the matching associations, in order; a panic exactly for a negative offset and for an end of the page that overflows |
| MockClient.Client.GetAssociationsBySubject | schemaregistry/mock_schemaregistry_client.go:1120-1152 | refused exactly for an empty subject or an unknown lifecycle, a panic exactly when the filter panics on a subject with associations, otherwise that page of the subject's list |
| MockClient.Client.RemoveFromSlice | schemaregistry/mock_schemaregistry_client.go:900-907 | drops the first equal element only |
| MockClient.Client.RemoveAssociation | schemaregistry/mock_schemaregistry_client.go:909-917 | takes one association out of all three indexes and drops lists that become empty |
| MockClient.Client.DeleteAssociation | schemaregistry/mock_schemaregistry_client.go:1198-1219 | the removal, and with cascade the permanent deletion of a STRONG one's subject |
| MockClient.Client.CheckDeletable | schemaregistry/mock_schemaregistry_client.go:1189-1196 | refused if and only if a frozen STRONG association is met without cascade |
| MockClient.Client.DeleteAssociations | schemaregistry/mock_schemaregistry_client.go:1222-1259 | refused exactly for a frozen association asked for without cascade, with nothing changed; otherwise exactly those asked for are gone from all three indexes; keeps the invariant |
| MockClient.Client.ValidateRequest | schemaregistry/mock_schemaregistry_client.go:867-898 | accepts exactly the valid requests and fills in their defaults |
| MockClient.Client.TypesAreDistinct | schemaregistry/mock_schemaregistry_client.go:940-952 | whether the association types are pairwise distinct |
| MockClient.Client.SubjectsExist | schemaregistry/mock_schemaregistry_client.go:961-971 | whether every association brings a schema or names a subject with a live one |
| MockClient.Client.SubjectsAccept | schemaregistry/mock_schemaregistry_client.go:973-1020 | whether every association exists as asked for or its subject has room for it; never indexes an empty list |
| MockClient.Client.PostSchemas | schemaregistry/mock_schemaregistry_client.go:1022-1034 | registers the schemas in order and touches no association |
| MockClient.Client.WriteAssociations | schemaregistry/mock_schemaregistry_client.go:1036-1057 | inserts associations with fresh GUIDs and the request's own fields into all three indexes, in order |
| MockClient.Client.CreateAssociation | schemaregistry/mock_schemaregistry_client.go:919-1078 | rejected with the first failing check and nothing changed, or carried out with every association filed as asked for; keeps the invariant |
| LruCache.StoredKeepsOk | schemaregistry/cache/lrucache.go:89-112 | storing keeps list, element map and entries on the same keys, without duplicates, within the capacity |
| LruCache.TouchedKeepsOk | schemaregistry/cache/lrucache.go:75-78 | so does moving any element to the front, in the list or not |
| LruCache.DeletedKeepsOk | schemaregistry/cache/lrucache.go:118-132 | so does deleting any key |
| LruCache.Cache.Get | schemaregistry/cache/lrucache.go:66-82 | returns the entry and moves its element to the front |
| LruCache.Cache.Put | schemaregistry/cache/lrucache.go:89-112 | stores, evicting the last element for a new key in a full cache |
| LruCache.Cache.Delete | schemaregistry/cache/lrucache.go:118-132 | removes the key from all three |
| LruCache.Cache.Clear | schemaregistry/cache/lrucache.go:135-145 | the two loops empty all three |
| LruCache.Cache.ToMap | schemaregistry/cache/lrucache.go:148-156 | a copy of the entries |
| LruCache.NewLRUCache | schemaregistry/cache/lrucache.go:42-57 | refuses exactly the capacities that are not positive |
| LruHistory.MapHoldsLastStored | schemaregistry/cache/mapcache.go:38-65 | after every history the map cache holds under a key what the last Put stored, unless a Delete or Clear came after it |
| LruHistory.MapCache.Get | schemaregistry/cache/mapcache.go:38-41 | returns what was last stored under the key in the whole history of calls |
| LruHistory.MapCache.Put | schemaregistry/cache/mapcache.go:48-50 | keeps the entries those of the whole history, which it extends |
| LruHistory.MapCache.Delete | schemaregistry/cache/mapcache.go:56-58 | keeps the entries those of the whole history, which it extends |
| LruHistory.MapCache.Clear | schemaregistry/cache/mapcache.go:61-65 | the loop keeps the entries those of the whole history, which it extends |
| LruHistory.AfterIsOk | schemaregistry/cache/lrucache.go:66-145 | the representation is consistent after every history of calls |
| LruHistory.EntriesStep | schemaregistry/cache/lrucache.go:66-145 | each call does to the entries what it does to the map cache, except that a new key in a full cache drops one other key |
| LruHistory.HitsAgree | schemaregistry/cache/lrucache.go:66-82 | after every history a hit returns what the map cache would: what was last stored under the key |
| LruHistory.SameWhileSmall | schemaregistry/cache/lrucache.go:66-145 | while the map cache never exceeds the capacity the two hold the same entries |
| LruHistory.OrderStep | schemaregistry/cache/lrucache.go:66-145 | what each call does to the recency order after any history: to the front, in front with the last one pushed out, only its own key taken out, emptied |
| LruHistory.HoldsMostRecent | schemaregistry/cache/lrucache.go:66-112 | without Delete and Clear the list is the capacity most recently used keys in order of last use |
| LruHistory.RecencyRank | schemaregistry/cache/lrucache.go:66-112 | that order means what it says: the key at position p was last used before uses of exactly p other keys |
| LruHistory.ResidentIffRecent | schemaregistry/cache/lrucache.go:66-112 | a key is resident if and only if since some use of it at most capacity different keys were used |
| LruConcurrent.ContentsAreSequential | schemaregistry/cache/lrucache.go:66-145 | every interleaving at the lock-release points leaves the contents of the cache as a sequence of whole calls would; the representation survives |
| LruConcurrent.WhatStepsDo | schemaregistry/cache/lrucache.go:66-145 | the first half of Get and Delete goes on exactly for a resident key; Delete leaves its key out, Put leaves its value in |
| LruConcurrent.StaleStaysStale | schemaregistry/cache/lrucache.go:66-132 | an element that left the list never returns to it, also when its key is stored again |
| LruConcurrent.HitReturnsValueRead | schemaregistry/cache/lrucache.go:66-82 | a hit returns the value held at its own read-lock step, which is what the map cache would have returned there |
| LruConcurrent.SplitGetIsWhole | schemaregistry/cache/lrucache.go:66-82 | when a split Get, current or stale, returns what a whole one would where it finishes, both directions; it takes effect as a Get of its key exactly while its element is in the list |
| LruConcurrent.SplitGetReturnsOldValue | schemaregistry/cache/lrucache.go:66-112 | an interleaving with a Put in which it does not |
| LruConcurrent.StaleGetReturnsDeletedValue | schemaregistry/cache/lrucache.go:66-132 | an interleaving with a Delete in which it does not |
| DoubleChecked.StepKeepsInvariant | schemaregistry/schemaregistry_client.go:552-590 | one holder past the write lock, who asks only what the cache cannot answer; the cache has the last answer; results are answers |
| DoubleChecked.VersionedIsNeverOverwritten | schemaregistry/schemaregistry_client.go:675-723 | no writer replaces an entry with a version; only deleting its subject takes it away |
| DoubleChecked.RunKeepsInvariant | schemaregistry/schemaregistry_client.go:552-723 | all of it in every interleaving of any number of callers |
| DoubleChecked.OneAnswerForAll | schemaregistry/schemaregistry_client.go:552-654 | at most one successful request per key each time its subject's entries are cleared, and if they never are, every caller that succeeds returns that response |
| DoubleChecked.RepeatedOnlyWithoutVersion | schemaregistry/schemaregistry_client.go:675-723 | with lookups in the mix a key is asked again only while its entry has no version or was cleared; a lookup that returns no version got that very answer from the server |
| DoubleChecked.AnsweredFromCacheIff | schemaregistry/schemaregistry_client.go:686-712 | a query is answered from the cache, with the entry, exactly when there is one and, for a lookup, it has a version |
| DoubleChecked.ServerAnswerIsReturned | schemaregistry/schemaregistry_client.go:714-722 | the server's answer is returned as it is and a success is cached |
| DoubleChecked.DeletionIsCleanIff | schemaregistry/schemaregistry_client.go:890-925 | when a deletion leaves every cached entry current, both directions |
| DoubleChecked.RunKeepsCurrent | schemaregistry/schemaregistry_client.go:552-925 | every run in which all deletions meet that condition keeps every cached entry current |
| DoubleChecked.DeletedSchemaStaysCached | schemaregistry/schemaregistry_client.go:890-925 | a run in which a registration overtakes a deletion, and a deleted schema is handed out afterwards |
| WaitResult.RunKeepsInvariant | kafka/adminapi.go:1145-1204 | the protocol invariant holds in every interleaving |
| WaitResult.SafeInEveryRun | kafka/adminapi.go:1145-1204 | no double close, no send on a closed channel, no nil event read; at most one event polled, returned or destroyed exactly once; no poll after the caller returned; nothing is returned only after a cancellation or for an event of the wrong kind or with an error |
| WaitResult.GoodEventIsReturned | kafka/adminapi.go:1174-1191 | a received event of the expected kind without error is the one returned |
| WaitResult.NeverDeadlocks | kafka/adminapi.go:1145-1204 | until both processes are done one of them can move |
| WaitResult.RunLength | kafka/adminapi.go:1150-1171 | every step except starting another empty poll lowers a rank, so empty polls bound the run |
| WaitResult.EndingFinishes | kafka/adminapi.go:1191-1202 | once the caller has closed the signal channel or returned, every run is over within six steps, with both processes finished |
| WaitResult.CancelledCallerMoves | kafka/adminapi.go:1174-1202 | in every reachable cancelled state before that, the caller has a step of its own that brings it nearer and that the poller can neither take away nor undo |
| WaitResult.CancellationFinishes | kafka/adminapi.go:1191-1202 | from the cancellation: after the at most three steps the caller has left, or once it has signalled, six steps finish both |
| Delivery.SameId | kafka/handle.go:258-269 | two puts get the same id if and only if they are a multiple of 2^64 - 1 apart; ids are never zero, through wrap-around and sign conversion |
| Delivery.IdsInOrder | kafka/handle.go:258-269 | the ids are 1, 2, 3 and so on, then the negative numbers up to -1, then 1 again |
| Delivery.BeginKeepsInvariant | kafka/handle.go:258-269 | a put whose id is not in use keeps the table exact |
| Delivery.CollisionBreaksTable | kafka/handle.go:258-269 | a put whose id is in use breaks it |
| Delivery.CollisionMisdirects | kafka/event.go:219-263 | then the older message's report goes where the newer call asked, with its opaque, and the newer message's own report goes to Events without it |
| Delivery.SomeRunMisdirects | kafka/handle.go:258-269 | a run from the beginning that ends so |
| Delivery.SettleKeepsInvariant | kafka/handle.go:274-287 | a rejected or reported call takes its own entry, and no other, out of the table, and its report is the one promised |
| Delivery.RunKeepsInvariant | kafka/producer.go:239-293 | in every run in which fewer than 2^64 - 1 puts fall in the life of one message |
| Delivery.ReportsAreConserved | kafka/event.go:219-263 | the table holds exactly the calls in progress and the unreported messages, under distinct nonzero ids, and every report went to its own channel, else Events, with its own opaque |
| EventPolling.HandOutPrefix | kafka/event.go:229-263 | reports of one event go out in order, each as the table had it at the start, up to the first that stops the poll |
| EventPolling.AllChannelsServed | kafka/event.go:248-263 | when every report with a channel is handed out, both directions |
| EventPolling.PolledAllIsEach | kafka/producer.go:681-697 | polling until the queue is empty handles every event in turn, whatever the limit and whichever polls were ended early |
| EventPolling.ChannelsServedOverPolls | kafka/event.go:219-263 | over repeated polls each event sends what it would alone, and a report with a channel is lost exactly when reports are not forwarded and an earlier report of its own event has none |
| EventPolling.ChannelNotServed | kafka/event.go:248-263 | two produced messages of which the second's channel is not served |
| EventPolling.HandOutRefines | kafka/event.go:219-263 | with forwarding the loop over an event's reports takes the very steps that report those calls and sends each as its own call was promised |
| EventPolling.PolledRefines | kafka/event.go:153-316 | the same for a whole poll over a queue of events |
| EventPolling.ForwardingNeverStops | kafka/event.go:153-316 | with forwarding a poll takes as many queued events as it may |
| EventPolling.ShortOnlyIfStopped | kafka/event.go:153-316 | any poll takes fewer only if a report stopped it |
| EventPolling.Handle.CgoPut | kafka/handle.go:258-269 | the counter wraps and skips zero; the state is stored under the signed id |
| EventPolling.Handle.CgoGet | kafka/handle.go:274-287 | returns and removes the entry, nothing for id zero |
| EventPolling.Handle.Produce | kafka/producer.go:239-293 | an accepted message with state leaves its entry, a rejected one none |
| EventPolling.Handle.HandOutReports | kafka/event.go:229-263 | performs the hand-out of one event |
| EventPolling.Handle.EventPoll | kafka/event.go:153-316 | performs the poll; every event taken off the queue is destroyed once, in order |
| EventPolling.Handle.PollUntilEmpty | kafka/producer.go:681-697 | performs the repeated polls; every event is taken and destroyed once, in order |
| BatchProducer.Gather | kafka/producer.go:635-660 | one round takes all messages that are ready, at most batchSize, buffered topic by topic in order, losing none, also when the channel closes |
| BatchProducer.Flush | kafka/producer.go:665-673 | one batch per buffered topic in any map order; the messages of exactly the batches that C did not take go to Events |
| BatchProducer.RoundsPartition | kafka/producer.go:628-678 | rounds that each partition their messages partition the whole stream |
| BatchProducer.ChannelBatchProducer | kafka/producer.go:628-678 | for every schedule of arrivals and failures the batches for a topic are exactly its messages in order, rounds hold at most batchSize, and each message of a failed batch goes to Events once |
| Transactions.CommitLeavesFreshTransaction | examples/transactions_example/txnhelpers.go:178-225 | a commit that returns leaves an open empty transaction and reading resumes at the committed offset or the beginning |
| Transactions.StepKeepsOk | examples/transactions_example/txnhelpers.go:98-225 | every step keeps the committed ranges chained from the start and the open transaction equal to what was read since |
| Transactions.RunKeepsOk | examples/transactions_example/txnhelpers.go:98-225 | over all runs with aborts, rewinds, rebalances and crashes |
| Transactions.ExactlyOnce | examples/transactions_example/txnhelpers.go:98-225 | the committed transactions' ranges are contiguous and disjoint from the start and together read every record below the committed offset exactly once, in order |
| Intersections.ReadingCounts | examples/transactions_example/processor.go:114-143 | reading input leaves the green road alone and adds exactly the cars on known roads that are not green |
| Intersections.UnchangedIff | examples/transactions_example/processor.go:114-192 | input and one tick's elections leave the states unchanged if and only if nobody was elected and every message was harmless |
| Intersections.EndingKeepsLights | examples/transactions_example/txnhelpers.go:178-225 | the end of a transaction keeps the ledgers of counted and passed cars in balance |
| Transactions.AbortKeepsStates | examples/transactions_example/txnhelpers.go:192-217 | when an aborted commit leaves the intersection states as they were when its transaction began, both directions |
| Transactions.AbortedCarsCountAgain | examples/transactions_example/txnhelpers.go:98-225 | over every run the cars waiting and let through are those counted in committed transactions and the open one, and once more those counted in aborted ones |
| Transactions.OneCarWaitsTwice | examples/transactions_example/txnhelpers.go:192-217 | a run from the beginning after which the only car waits twice |
| Transactions.StatesAcross | examples/transactions_example/txnhelpers.go:98-137 | a commit that returns and an assignment leave the intersection states, a revocation or crash clears them |
| Transactions.OutcomeMeans | examples/transactions_example/txnhelpers.go:178-225 | exactly which answers let the commit succeed and the process go on |
| Transactions.Processor.AbortAndRewind | examples/transactions_example/txnhelpers.go:142-163 | abort then rewind, with every failure fatal |
| Transactions.Processor.CommitTransactionForInputPartition | examples/transactions_example/txnhelpers.go:178-225 | performs the commit step for every combination of answers; fatal without a producer, a position or the group metadata |
| TrafficLight.CarArrivedKeepsOk | examples/transactions_example/processor.go:114-143 | a car joins exactly its own road's queue unless that is green, which keeps the count equal to the sum of the queues and the green queue empty |
| TrafficLight.ServedKeepsOk | examples/transactions_example/processor.go:182-191 | serving a longest queue empties it alone, keeps that, changes the light and strictly lowers the count |
| TrafficLight.ElectionsDrain | examples/transactions_example/processor.go:148-192 | without arrivals the intersection is drained by exactly as many elections as it has busy roads, at most four |
| TrafficLight.CarsAreConserved | examples/transactions_example/processor.go:114-192 | over every run each car on a known road is waiting or has passed |
| TrafficLight.NextRoadCycles | examples/transactions_example/processor.go:102-110 | the next road in the cyclic order, the first when none is green |
| TrafficLight.WeighedByQueue | examples/transactions_example/processor.go:157-163 | whatever the order of the loop, every road's weight is one plus its share of the cars: the next road's own weight is overwritten |
| TrafficLight.CanWinIffLongest | examples/transactions_example/processor.go:157-174 | a road wins under some order of the two loops if and only if its queue is a longest one |
| TrafficLight.CertainIffStrictlyLongest | examples/transactions_example/processor.go:157-174 | it wins under every order if and only if its queue is strictly the longest |
| TrafficLight.TurnPlaysNoPart | examples/transactions_example/processor.go:154-174 | who can win does not depend on which road is green |
| TrafficLight.NoRoadIsGuaranteedATurn | examples/transactions_example/processor.go:154-174 | runs of any length in which a waiting car is never served |
| TrafficLight.StarvationFromTheStart | examples/transactions_example/processor.go:77-192 | such runs from a new intersection |
| TrafficLight.IntersectionState.constructor | examples/transactions_example/processor.go:77-99 | a new intersection has empty queues and no green road |
| TrafficLight.IntersectionState.ProcessIngressCar | examples/transactions_example/processor.go:114-143 | performs the arrival; unknown roads are ignored |
| TrafficLight.IntersectionState.Weigh | examples/transactions_example/processor.go:157-163 | the weights as built in the order in which the loop met the roads: for every road one plus its share |
| TrafficLight.IntersectionState.Heaviest | examples/transactions_example/processor.go:167-174 | the winner of the scan in the order in which the loop met the roads: one of greatest weight |
| TrafficLight.IntersectionState.ElectNewGreenLight | examples/transactions_example/processor.go:148-192 | changes the light if and only if cars wait, to the road its loops elect, which has a longest queue and is served; the exit for "all cars on the green road" is unreachable |
| TrafficLight.IntersectionState.ShowLights | examples/transactions_example/processor.go:216-228 | exactly the elected road shows green |
| SoakTest.CountedOnce | soaktest/soaktest.go:245-261 | a message counts as a repetition or as a gap, never both, and as neither exactly when it is the next one or the first |
| SoakTest.BalanceLaw | soaktest/soaktest.go:237-263 | over every history and all partitions: missed less duplicated is the movement of the ids beyond one step per message, short of what follows an id of zero |
| SoakTest.ZeroGoesUnseen | soaktest/soaktest.go:244-262 | a history with an id of zero in which four missed messages are not counted |
| SoakTest.PartitionLaw | soaktest/soaktest.go:237-263 | one partition with positive ids: last - first = (count - 1) + missed - duplicated |
| SoakTest.Verifier.VerifyMessage | soaktest/soaktest.go:237-263 | keeps the marks at the last ids and the 64-bit counters at the totals modulo 2^64, also at the largest id |

## Left out

- librdkafka and all conversion between C and Go; it appears as an environment that accepts, rejects and later reports each accepted message once.
- Schemas are canonical values, so that their JSON key and `schemasEqual` coincide; JSON errors, reference, metadata and rule-set comparison are not modelled.
- GUIDs are tokens from a counter instead of random UUIDs.
- The mock client is modelled call by call; its several mutexes are not, although its calls are not atomic across them.
- The mock client's config and compatibility calls, `GetLatestWithMetadata`, `GetVersion`, `GetAllSubjects` and `GetAssociationsByResourceID`, which read single maps that the invariants already cover, and the response that echoes a create request. That `CreateAssociation` writes defaults into the caller's slice is not captured.
- Linked-list nodes of the LRU cache are values with an identity in a sequence, not heap objects with pointers.
- The TTL evictor, the bounded cache under the double-checked lookups, cache invalidation by `DeleteSubjectVersion`, and everything REST, HTTP and OAuth.
- WaitResult.CancellationFinishes: that the Go scheduler lets the caller take the steps it is never kept from is a fairness assumption.
- EventPolling.Handle.PollUntilEmpty: has no arrivals while it polls and no termination signal.
- EventPolling.Handle.EventPoll: does not model the termination channel, a nil Events channel, rebalance callbacks or the contents of events other than delivery reports.
- The topic handle caches `rktCache` and `rktNameCache`.
- BatchProducer.ChannelBatchProducer: a batch fails or succeeds as a whole, as `produceBatch` reports it; per-message errors inside librdkafka and the panics on nil messages are not modelled.
- The intersection states are kept per input partition: an intersection whose messages arrive on two partitions, which a keyed producer never does, would share one state. A tick's elections and commit are one partition's at a time.
- Weights in the election are exact reals instead of floating point; timers, JSON output and logging are left out.
- SoakTest.Verifier.VerifyMessage: the topic and partition pair stands for the formatted map key; Datadog counters and logging are left out.
