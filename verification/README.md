# A verified model of the Antimetal system agent's core

The agent keeps an inventory of resources and relationships, follows a remote
configuration service, ships what it sees over several delivery pipelines, and turns raw
kernel counters and exec records into events.  This project models that core in Dafny
4.11 and proves what it keeps over every run.  `dafny verify dfyconfig.toml` checks it.

## What is modelled

**The resource store** (`internal/resource/store`).  `StoreModel` gives the four writing
transactions as functions on a typed database; `StoreInvariant` proves what every run
keeps about the three relationship indexes and that deleting a resource removes exactly
the incident relationships; `StoreQueries` compares GetRelationships with a linear scan;
`StoreHistory` says which histories of calls make such a query wrong; `StoreEvents` proves
which subscribers can rebuild the inventory from the routed events.
`StoreKv` refines the typed database to one flat key-value space of byte strings, and the
class `Store.Store` runs on that space, every method tied to the typed transaction.
`IndexBytes` holds the index values (sorted 32-byte chunks in one byte string) with the
binary search as written; `ResourceKeys`, `Base64` and `Bytes` the keys.  `Indexer` is the
Kubernetes client whose deduplication rests on the queries.

**The remote configuration loader** (`internal/config`).  `ConfigCache` has versions,
parsing and the cache as a fold over received messages; `TtlHeap` the min-heap of node
objects under container/heap's up, down, Push, Pop, Fix and Remove; `AmsProtocol` the
loader as a state machine over whole runs, for cache entries that reach their heap node
through the place copied once, as in the code, or through the node itself; `AmsLoader` the
loader object, whose receive loop and ticker take the protocol's steps on the heap of
nodes.  The protocol takes the cache key of an object and the verdict on it as given
(`ConfigCache.Rules`); `ConfigCache.RulesOf` are those of the code.

**Delivery pipelines.**  `Intake` is the batcher with its delaying, retrying queue as a
step system and as an object.  `RingBuffer`, `MetricsPipeline` and `OtelConsumer` are the
metrics buffer: the ring in its array, any number of concurrent handlers against one
consumer, and the objects.  `Merger` is the select loop over a changing list of cases.

**Arithmetic and codecs.**  `DeltaRuns` sums counter deltas over whole runs of the two
collector shapes.  `ExecArgs` follows an argument vector through the kernel packer, the
masked copy and the parser.

Two suppositions stand for code outside the model.  SHA-256 is a function that does not
collide on the relationships in play (it cannot be injective on all messages); protobuf
marshalling is a bijection, so a message stands for its bytes.  Times, clock ticks, select
choices, queue delays, send failures and goroutine interleavings are inputs.

## Where the code departs from what is written about it

The model follows the code; each point below has a lemma that shows it and, where a
condition separates good from bad, a lemma that gives the condition.

- The removal search keeps an open upper bound but steps it to one below the midpoint, so
  it passes over some keys: `IndexBytes.TwoKeysFirstMissed`, exact in
  `IndexBytes.DeleteKeyExact`.
- Deleting a resource leaves stale hashes in the index of the other end, and a query by
  one end or by predicate can then fail or find nothing: `StoreQueries.StaleKeysMislead`,
  exact in the state in `StoreQueries.QueryExact` and, for one end, in the history in
  `StoreHistory.OneEndHistory`.  Queries by both ends are unaffected.
- A relationship added twice is listed twice, and a query through one index returns it
  twice: `StoreHistory.RunEndTimes`, exact in `StoreHistory.OneEndOnce`.
- GetRelationships without arguments answers not-found instead of everything:
  `StoreQueries.QueryExact`.
- The filters of a subscription are pooled, kinds with kinds and types with types, and
  their empty strings dropped, where the interface says an empty string matches any kind
  or type: `StoreEvents.KindOnlyMatchesNothing`, `StoreEvents.TwoFiltersPooled`, exact in
  `StoreEvents.DocumentedIff`.  A filter on kinds and types sees deletions only under the
  kind "Resource", and does not see a resource leave its kinds:
  `StoreEvents.KindFilterSeesDeletes`, exact in `StoreEvents.ReproducesIff`.
- Keys are written with the URL-safe alphabet and read with the standard one:
  `ResourceKeys.UnreadableKey`, exact in `ResourceKeys.DecodeEncodeKey`.
- The loader copies a node's heap place once and never refreshes the copy.  Two pushes
  are enough to expire a prolonged configuration early, or to stop the process:
  `AmsProtocol.CopiedPlace`, `AmsLoader.ExpireEarly`, `AmsLoader.StopTheProcess`, exact in
  `AmsProtocol.RunOnTimeIff` and `AmsProtocol.TargetExact`.  A time-to-live given later to a cached configuration
  without a node is ignored, and would be through live handles too:
  `AmsLoader.IgnoreLate`, exact in `AmsProtocol.TargetExact` and, over runs, in
  `AmsProtocol.RunTimelyIff` and `AmsProtocol.LiveTimelyIff`.
- A negative version is accepted first and then never replaced:
  `ConfigCache.NegativeVersionEnters`, `ConfigCache.NegativeVersionSticks`, exact in
  `ConfigCache.AcceptedExact`.
- Batches can be sent in another order than they were filled, after a failed send or a
  longer delay: `Intake.RetryOvertaken`, `Intake.DelayOvertaken`, exact in
  `Intake.SentInOrderIff`.
- The dropped counter can be wrong when somebody pushes or drains between a handler's look
  at the length and its push: `MetricsPipeline.InterleavedHandlersMiscount`,
  `MetricsPipeline.CountersAddUp`, exact in `MetricsPipeline.CountersAddUpIff`.
- The mask on the size of the packed arguments keeps four bits, not the low ones: an
  argument vector under 512 bytes arrives empty: `ExecArgs.AllOrNothing`, exact in
  `ExecArgs.AllArgumentsIff`.
- After one gap over the maximal interval a CPU-style collector never emits again:
  `DeltaRuns.FrozenAfterGap`, exact in `DeltaRuns.CanEmitIff`.

## Model

| member | source | states |
|---|---|---|
| `Bytes.SplitJoin` | internal/resource/store/encode.go:88-125 | Splitting a separator-joined list of separator-free parts gives the parts back. |
| `Bytes.LastSeparatorUnique` | internal/resource/store/encode.go:66-69 | Two keys whose last parts hold no separator are equal only part by part. |
| `Bytes.LeqExact` | internal/resource/store/store.go:831-833 | The order of the keys is the lexicographic one: a prefix, or the smaller byte at the first difference. |
| `Base64.DecodeEncode` | internal/resource/store/encode.go:67-85 | Reading with the alphabet written with gives the bytes back for every input; reading URL-safe text with the standard alphabet gives them back exactly when the text has neither '-' nor '_', and is an error otherwise. |
| `Base64.NoSlash` | internal/resource/store/encode.go:66-69 | URL-safe text holds no slash, so a key has one last separator. |
| `Base64.EncodeInjective` | internal/resource/store/encode.go:66-69 | Encoding loses nothing. |
| `Base64.AlphabetExact` | internal/resource/store/encode.go:67-67 | The characters of the 64 values in both alphabets, in order. |
| `Base64.QuadBits` | internal/resource/store/encode.go:67-67 | Four characters carry the 24 bits of three bytes, high bits first. |
| `Base64.TestVectors` | internal/resource/store/encode.go:67-67 | The vectors of section 10 of RFC 4648, padding included. |
| `Base64.DecodeShape` | internal/resource/store/encode.go:82-85 | Text that decodes is whole groups of four, padded only at the end, and gives three bytes a group less the padding. |
| `ResourceKeys.KeyParts` | internal/resource/store/encode.go:32-69 | A key determines the type and the qualified name, whatever slashes they hold. |
| `ResourceKeys.KeyInjective` | internal/resource/store/encode.go:32-69 | On slash-free components keys are equal if and only if the references agree in all but account name and host namespace. |
| `ResourceKeys.SlashesCollide` | internal/resource/store/encode.go:42-64 | With slashes a plain name can have the key of a Kubernetes or of a cloud one. |
| `ResourceKeys.DecodeEncodeKey` | internal/resource/store/encode.go:32-125 | Decoding an encoded reference restores it (up to the dropped fields) if and only if nothing in it holds a slash and the alphabets agree or the text avoids '-' and '_'. |
| `ResourceKeys.DecodeNameExact` | internal/resource/store/encode.go:88-125 | The slash-separated name is read back exactly for slash-free references. |
| `ResourceKeys.UnreadableKey` | internal/resource/store/encode.go:67-85 | A name whose key the code cannot read back, and reading with the other alphabet could. |
| `IndexBytes.SplitObjects` | internal/resource/store/store.go:802-815 | Cutting an index value at every 32 bytes gives the keys it was made of. |
| `IndexBytes.JoinObjects` | internal/resource/store/store.go:821-838 | Joining gives the value the keys are cut from. |
| `IndexBytes.SortKeysSorted` | internal/resource/store/store.go:821-838 | The index is left in byte order. |
| `IndexBytes.SortedArrangementUnique` | internal/resource/store/store.go:821-838 | Any sorted permutation is the same one, so the sorting algorithm does not matter. |
| `IndexBytes.SearchExact` | internal/resource/store/store.go:848-859 | On a sorted index the search finds a key if and only if an occurrence lies at a position it can probe. |
| `IndexBytes.DeleteKeyFrame` | internal/resource/store/store.go:840-867 | Removal keeps the index sorted and is either no change or the removal of one occurrence, whatever the search misses. |
| `IndexBytes.DeleteKeyExact` | internal/resource/store/store.go:840-867 | Removal equals linear removal if and only if the value is absent or an occurrence lies at a probed position. |
| `IndexBytes.HalfOpenDeleteExact` | internal/resource/store/store.go:851-858 | With the upper bound stepping to the midpoint removal equals linear removal on every sorted index. |
| `IndexBytes.TwoKeysFirstMissed` | internal/resource/store/store.go:851-858 | As written, removing the first of two keys leaves both. |
| `IndexBytes.LeftNeighbourMissed` | internal/resource/store/store.go:851-858 | As written, the position left of every midpoint is never probed from there. |
| `IndexBytes.DeleteFromBytes` | internal/resource/store/store.go:840-867 | The loop on the bytes of the value terminates and computes that removal. |
| `StoreInvariant.AddRelationshipFacts` | internal/resource/store/store.go:447-522 | Adding a relationship stores it, lists its hash in its three indexes and changes nothing else. |
| `StoreInvariant.AddRelationshipInv` | internal/resource/store/store.go:447-522 | Adding a relationship keeps the store invariant. |
| `StoreInvariant.AddRelationshipCounts` | internal/resource/store/store.go:821-838 | Each addition lists the hash once more in each of its three indexes, also when it is there already, and in no other. |
| `StoreInvariant.ListedExact` | internal/resource/store/store.go:447-522 | In every state of the invariant an index lists a stored relationship if and only if it is one of that relationship's own indexes. |
| `StoreInvariant.IncidentExact` | internal/resource/store/store.go:363-388 | The hashes collected for a deletion are, among the stored ones, exactly those of relationships with that end. |
| `StoreInvariant.DeleteExact` | internal/resource/store/store.go:347-411 | Deleting a resource removes precisely the relationships whose subject or object it is; every other record survives unchanged and every surviving relationship is still listed by all three of its indexes, whatever the predicate search misses. |
| `StoreInvariant.DeleteInv` | internal/resource/store/store.go:347-411 | Deleting a resource keeps the store invariant. |
| `StoreInvariant.DeletedIndexes` | internal/resource/store/store.go:363-405 | What a deletion does to every index: the two of the resource go, the predicate indexes lose the collected hashes one by one, all others stay as they are. |
| `StoreInvariant.PurgeExact` | internal/resource/store/store.go:390-405 | A hash that goes is taken out of a predicate index once if the search finds it among what the removals before it left, and not at all otherwise. |
| `StoreInvariant.StepInv` | internal/resource/store/store.go:174-522 | Every call keeps the invariant, also when it fails. |
| `StoreInvariant.RunInv` | internal/resource/store/store.go:174-522 | After every run: stored relationships are listed in their three indexes, listed hashes belong where they are, a hash listed by both ends is stored, every index is sorted. |
| `StoreQueries.VisitExact` | internal/resource/store/store.go:602-631 | One visiting order of the intersected keys: the answer is right if and only if stored and stale keys do not mix. |
| `StoreQueries.QueryExact` | internal/resource/store/store.go:561-631 | In every state of the invariant a nil error comes with exactly the matching relationships; the answer is the documented one if and only if the indexes of the query do not list both a stored and a stale relationship; without arguments only for a store without relationships. |
| `StoreQueries.BothEndsExact` | internal/resource/store/store.go:561-631 | Given subject and object the answer is the scan, each relationship once, and not-found if and only if nothing matches. |
| `StoreQueries.RunQueries` | internal/resource/store/store.go:561-631 | After every run: a nil error comes with exactly the matches; by both ends the answer is the documented one, each relationship once; otherwise it is the documented one if and only if the indexes of the query do not list both a stored and a stale relationship. |
| `StoreQueries.NamesExact` | internal/resource/store/store.go:487-488 | A predicate is listed under the one name its type URL has: the URL without "type.googleapis.com/", or the URL itself if it does not start so. |
| `StoreQueries.StaleKeysMislead` | internal/resource/store/store.go:383-388 | A two-call run after which a query by subject is wrong. |
| `StoreHistory.StepEndListed` | internal/resource/store/store.go:363-388 | One call: a relationship is listed by an end afterwards if and only if the call stores it, or it was listed and the call does not delete that end. |
| `StoreHistory.RunEndListed` | internal/resource/store/store.go:363-388 | After every run a relationship is listed by an end if and only if it was added since that end was last deleted. |
| `StoreHistory.RunStored` | internal/resource/store/store.go:363-411 | And stored if and only if it was added since either of its ends was last deleted. |
| `StoreHistory.OneEndHistory` | internal/resource/store/store.go:347-631 | After every run a query by one end gives the documented answer if and only if the history does not leave, for that end, both a relationship that is stored and one whose other end was deleted after it was added. |
| `StoreHistory.ScanHistory` | internal/resource/store/store.go:447-522 | After every run a scan finds a relationship if and only if it matches and was added since either of its ends was last deleted. |
| `StoreHistory.UndeletedQueries` | internal/resource/store/store.go:561-631 | While nothing is deleted every query with an argument gives the documented answer, and finds exactly the matching relationships that were added. |
| `StoreHistory.PredicateQuery` | internal/resource/store/store.go:591-594 | A query by a message's full name matches a relationship if and only if its predicate's URL is "type.googleapis.com/" and that name, or a URL of no such form that is that name. |
| `StoreHistory.FoundByPredicate` | internal/resource/store/store.go:483-494 | A relationship added to an empty store is found by the name of its predicate, and by no other. |
| `StoreHistory.RunEndTimes` | internal/resource/store/store.go:821-838 | After every run an end lists a relationship as often as it was added since that end was last deleted. |
| `StoreHistory.OneEndOnce` | internal/resource/store/store.go:602-631 | A query by one end repeats no relationship if and only if none of that end was added twice since the end was last deleted. |
| `StoreHistory.RunAnnounces` | internal/resource/store/store.go:527-536 | Over every run the relationships announced as added are exactly those added. |
| `StoreEvents.RouteAllExact` | internal/resource/store/store.go:760-774 | Routing appends to each channel exactly the events its subscriber matches, in order. |
| `StoreEvents.FoldMatching` | internal/resource/store/store.go:760-774 | Folding what was delivered is folding what was sent. |
| `StoreEvents.SubscriberReproducesStore` | internal/resource/store/store.go:60-105 | Folding the delivered events over the matching resources at subscription time gives exactly the matching resources of the store after every later run, for filters on types or none. |
| `StoreEvents.ReproducesIff` | internal/resource/store/store.go:60-105 | A subscription reproduces the matching resources over every run if and only if none of its filters names a kind, or none names a type (and so it matches nothing). |
| `StoreEvents.KindChangeUnseen` | internal/resource/store/store.go:252-302 | An update that changes the kind of a resource to one that is not filtered leaves it with the subscriber. |
| `StoreEvents.UnfilteredSeesAll` | internal/resource/store/store.go:60-66 | Without filters the matching resources are all of them. |
| `StoreEvents.HasPrefixIs` | internal/resource/store/store.go:95-105 | A dot-separated path has a filter's path as its prefix if and only if the name is the filter or starts with the filter and a dot. |
| `StoreEvents.KindOnlyMatchesNothing` | internal/resource/store/store.go:84-92 | A filter on kinds alone matches no event. |
| `StoreEvents.DocumentedIff` | internal/resource/types.go:78-86 | A subscription matches as the interface documents (some filter matches, its empty strings matching any), for all objects, if and only if no filter names a kind and all or none name a type, or every filter names both and every kind named goes with every type named. |
| `StoreEvents.MatchPooled` | internal/resource/store/store.go:60-93 | The code's match in terms of the names in the filters of a subscription: some kind named covers the object's kind, if any is named, and some type named covers its type. |
| `StoreEvents.TwoFiltersPooled` | internal/resource/store/store.go:650-659 | With one filter on a kind and one on a type, an object of that kind and another type is missed. |
| `StoreEvents.KindFilterSeesDeletes` | internal/resource/store/store.go:415-442 | A subscription on kinds and types sees the deletion of a resource it matches if and only if one of its kinds is "Resource". |
| `StoreEvents.CreatedAtFirstWrite` | internal/resource/store/store.go:192-302 | After every run a resource's creation time is that of the write since which its key has been present. |
| `StoreEvents.PresentIff` | internal/resource/store/store.go:174-411 | After every run a resource is stored if and only if it was written since it was last deleted. |
| `StoreEvents.StoredIsLastWritten` | internal/resource/store/store.go:192-302 | After every run a stored resource is, in all but the creation time, the argument of the last successful write of its key, with that call's time. |
| `StoreKv.PhysKeyIsBuildKey` | internal/resource/store/store.go:790-800 | The flat keys are what buildKey makes of their parts. |
| `StoreKv.PhysKeyInjective` | internal/resource/store/store.go:790-800 | Keys never collide, within a family or across families. |
| `StoreKv.PredicatePrefixExact` | internal/resource/store/store.go:390-405 | Iterating over the predicate prefix meets the predicate indexes and nothing else. |
| `StoreKv.AddObjKeyToIndex` | internal/resource/store/store.go:821-838 | The byte-level write of an index refines the typed one. |
| `StoreKv.SortObjects` | internal/resource/store/store.go:821-838 | Sorting by insertion gives the sorted arrangement. |
| `StoreKv.ReadIndex` | internal/resource/store/store.go:869-912 | Reading one index gives its keys in order, nothing if it is missing. |
| `StoreKv.DeleteIndexedObjects` | internal/resource/store/store.go:914-925 | It deletes exactly the relationship records the index lists and returns their keys. |
| `StoreKv.DeleteFromIndex` | internal/resource/store/store.go:840-867 | Removing keys from the bytes of one predicate index refines the typed removal. |
| `StoreKv.PurgePredicates` | internal/resource/store/store.go:390-405 | The iteration purges every predicate index, in whatever order it meets them. |
| `Store.WriteRelationships` | internal/resource/store/store.go:447-522 | The transaction on the flat space refines the typed one. |
| `Store.Store.CommitRelationships` | internal/resource/store/store.go:447-522 | The transaction, committed, keeps invariant and refinement. |
| `Store.EraseResource` | internal/resource/store/store.go:347-411 | The delete transaction on the flat space refines the typed one. |
| `Store.DeleteStepsCompose` | internal/resource/store/store.go:363-411 | The separate deletions of that transaction compose to the typed deletion. |
| `Store.IntersectIndexes` | internal/resource/store/store.go:927-957 | The result lists exactly the keys common to all indexes, each once. |
| `Store.ReadIntersection` | internal/resource/store/store.go:869-912 | Several indexes give their intersection, nothing if one is missing. |
| `Store.FetchAll` | internal/resource/store/store.go:602-631 | The relationships are read in order until one is missing. |
| `Store.Store.New` | internal/resource/store/store.go:127-172 | A new store is empty and satisfies the invariant. |
| `Store.Store.Publish` | internal/resource/store/store.go:760-774 | The router appends the event to the channels of the subscribers that match. |
| `Store.Store.AddResource` | internal/resource/store/store.go:174-232 | It succeeds if and only if the store is open, the resource has a type and its key is absent; then exactly the resource with both times set to now is stored under its key and announced, and otherwise nothing changes. |
| `Store.Store.UpdateResource` | internal/resource/store/store.go:234-306 | It succeeds if and only if the store is open and the resource has a type; then the resource replaces what is stored in all but the creation time, which is the stored one or now, and is announced. |
| `Store.Store.GetResource` | internal/resource/store/store.go:308-345 | It returns exactly what is stored, and tells a closed store, a bad reference and a missing resource apart. |
| `Store.Store.DeleteResource` | internal/resource/store/store.go:347-445 | It succeeds if and only if the store is open and the reference has a type, also for an absent resource; then it performs the typed deletion and announces a "Resource" of that type, name and namespace with the deletion time; invariant and refinement are kept. |
| `Store.Store.AddRelationships` | internal/resource/store/store.go:447-559 | All relationships are added if and only if the store is open and each has a predicate and two different ends with types, and none otherwise; the i-th event is the addition of the i-th relationship; invariant and refinement are kept. |
| `Store.Store.GetRelationships` | internal/resource/store/store.go:561-637 | Found relationships are exactly those of the scan; by both ends the answer is the documented one. |
| `Store.Store.Subscribe` | internal/resource/store/store.go:639-668 | The subscriber is added with the filters of the descriptors, or not at all if the store is closed. |
| `Indexer.Indexer.Update` | internal/kubernetes/agent/indexer.go:70-103 | It updates the resource, looks every relationship up and adds those not found; the resource stays even if the relationships fail. |
| `Indexer.Indexer.Complete` | internal/kubernetes/agent/indexer.go:78-101 | The relationships not found are added, all or none, and a failure asks for a retry. |
| `Indexer.Indexer.FindMissing` | internal/kubernetes/agent/indexer.go:78-98 | The lookups select exactly the relationships for which a scan finds nothing, and fail exactly on an unknown predicate type. |
| `Indexer.MissingExact` | internal/kubernetes/agent/indexer.go:78-98 | A generated relationship is selected if and only if no stored one has the keys of its ends and a predicate of the type it names. |
| `Indexer.LookupExact` | internal/kubernetes/agent/indexer.go:86-93 | The lookup finds something if and only if such a relationship is stored. |
| `Indexer.UpdateStoresAll` | internal/kubernetes/agent/indexer.go:70-103 | After a successful update, for every generated relationship one with the keys of its ends and a predicate of its type is stored. |
| `Indexer.OutcomeExact` | internal/kubernetes/agent/indexer.go:78-101 | Once the resource is written the update is refused if and only if some type is unknown, and else asks for a retry if and only if some relationship that is not stored is one the store does not accept. |
| `Indexer.ScanGrows` | internal/resource/store/store.go:174-522 | Without deletions no run loses a relationship. |
| `Indexer.UpdateTwice` | internal/kubernetes/agent/indexer.go:70-103 | A second update with no deletion in between, whatever else was added, leaves every relationship and index as it is. |
| `ConfigCache.CompareVersions` | internal/config/parser.go:91-121 | Without a previous version every number is newer; with one there is a result if and only if both are numbers and not negative, and it orders them. |
| `ConfigCache.AtoiExact` | internal/config/parser.go:96-117 | Text converts to a number if and only if it is an optional sign, any zeros and the decimal numeral of the number, and 64 bits hold it. |
| `ConfigCache.VersionNumberExact` | internal/config/parser.go:96-117 | A version reads as a number with or without one leading "v". |
| `ConfigCache.VersionsCompare` | internal/config/parser.go:91-121 | Versions that read as numbers compare as those numbers, and do not compare if one is negative. |
| `ConfigCache.DecimalsCompare` | internal/config/parser.go:91-121 | In particular "v" and a decimal numeral compare as the number and not as text. |
| `ConfigCache.Parse` | internal/config/parser.go:33-89 | An object parses if and only if it has a type, a name, data and a parser that takes them; the instance then carries the parsed message and is OK, and type, name and version are the object's in any case. |
| `ConfigCache.AcceptedExact` | internal/config/ams.go:397-434 | An object is accepted if and only if its version is a number, no lower than the cached one, which is not negative, if there is one; and it parsed, or no object is cached. |
| `ConfigCache.AcceptedByNumber` | internal/config/ams.go:397-434 | Against a cached version that reads as b, a version that reads as a is accepted if and only if 0 <= b <= a and validity is not lost. |
| `ConfigCache.ReportedExact` | internal/config/ams.go:397-434 | What is reported is the parsed instance, OK if and only if it parsed and was accepted, and an error otherwise. |
| `ConfigCache.CacheKeyInjective` | internal/config/ams.go:461-463 | Without colons in types a cache key belongs to one type and name. |
| `ConfigCache.CacheKeysCollide` | internal/config/ams.go:461-463 | With one, two configurations share an entry. |
| `ConfigCache.NextKeeps` | internal/config/ams.go:397-434 | One step keeps cached versions parseable, and an entry that stays has no lower version and stays valid if it was. |
| `ConfigCache.RunSound` | internal/config/ams.go:397-434 | Every cached instance of every run has its own key, a version that parses, and an object exactly if it is OK. |
| `ConfigCache.VersionsNeverDecrease` | internal/config/ams.go:397-434 | Over any steps during which a key stays cached its version never goes down and a valid object is never replaced by an invalid one. |
| `ConfigCache.SentOkIsCached` | internal/config/ams.go:331-334 | What the receive loop sends as OK is what it has just cached. |
| `ConfigCache.SentVersionsNeverDecrease` | internal/config/ams.go:316-357 | Between expiries of a key the OK instances sent for it have non-decreasing versions. |
| `ConfigCache.NegativeVersionSticks` | internal/config/parser.go:91-121 | Over any steps without its expiry, an entry with a negative version is never replaced. |
| `ConfigCache.NegativeVersionEnters` | internal/config/parser.go:91-121 | An object of version -1 is cached if it comes first. |
| `ConfigCache.DefaultWatchSeesAcceptedOnly` | internal/config/subscription.go:11-72 | A watcher without a status filter is sent by the receive loop only configurations that were just accepted. |
| `ConfigCache.WatchExact` | internal/config/subscription.go:11-72 | A watcher is sent a received object's instance if and only if its type is one asked for, or none was, and its status is one asked for or, if none was, it was just cached with a configuration that parsed. |
| `TtlHeap.RootFirst` | internal/config/ams.go:529-556 | In heap order no node is due before the root. |
| `TtlHeap.RootIsEarliest` | internal/config/ams.go:216-230 | The root's key has the least expiry time of all keys in the heap. |
| `TtlHeap.PlaceOf` | internal/config/ams.go:521-556 | Every key of the heap has its place. |
| `TtlHeap.TtlHeap.Swap` | internal/config/ams.go:535-539 | Two nodes change places and each knows its new one. |
| `TtlHeap.TtlHeap.Up` | internal/config/ams.go:529-539 | Restores heap order when one node may be due before its parent, keeping the nodes, their places and times. |
| `TtlHeap.TtlHeap.Down` | internal/config/ams.go:529-539 | Restores heap order below a node, and says whether it moved. |
| `TtlHeap.TtlHeap.Push` | internal/config/ams.go:541-546 | Heap order and places are kept, and the nodes change by the pushed one only. |
| `TtlHeap.TtlHeap.Pop` | internal/config/ams.go:229-230 | Returns the node of the root; heap order and places are kept, and the nodes change by that one only. |
| `TtlHeap.TtlHeap.PopDue` | internal/config/ams.go:216-230 | Pops the root if and only if its time has passed. |
| `TtlHeap.TtlHeap.PopLast` | internal/config/ams.go:548-556 | Takes the last node off and clears its place. |
| `TtlHeap.TtlHeap.Remove` | internal/config/ams.go:491-499 | Takes out the node at the given place, whichever it is, keeping heap order and places. |
| `TtlHeap.TtlHeap.Update` | internal/config/ams.go:481-489 | Gives the node at the place a new time and restores heap order. |
| `TtlHeap.TtlHeap.Schedule` | internal/config/ams.go:465-479 | A new node with its place, if there is a time-to-live. |
| `TtlHeap.TtlHeap.Reschedule` | internal/config/ams.go:481-499 | Moves or removes the node at the copied place, if there is one. |
| `AmsProtocol.ReceivedCache` | internal/config/ams.go:397-434 | Receiving follows the fold of the cache. |
| `AmsProtocol.TickedCache` | internal/config/ams.go:232-240 | Expiring follows the fold of the cache. |
| `AmsProtocol.RunIsFold` | internal/config/ams.go:316-357 | The caches of every loader run are the fold of its messages and expiries. |
| `AmsProtocol.LoaderVersions` | internal/config/ams.go:397-434 | In every loader run a key that stays cached never loses version or validity. |
| `AmsProtocol.LoaderSentVersions` | internal/config/ams.go:316-357 | In every loader run, between expiries of a key, the OK instances last sent for it have non-decreasing versions. |
| `AmsProtocol.TickedEarliest` | internal/config/ams.go:216-240 | A tick expires a key of least time only, after that time. |
| `AmsProtocol.AcceptedBacked` | internal/config/ams.go:427-499 | Whatever node an accepted object touches, heap keys stay cached. |
| `AmsProtocol.TickedWellFormed` | internal/config/ams.go:216-240 | So they do over a tick, which therefore finds the popped key cached and sends its expiry. |
| `AmsProtocol.RunWellFormed` | internal/config/ams.go:207-243 | In every run, by copied places or live handles, heap keys are pairwise distinct, cached and in heap order; the steps suppose the heap's own contract only. |
| `AmsProtocol.AcceptedOnTimeIff` | internal/config/ams.go:481-499 | Accepting an object keeps every time in the heap the latest accepted one if and only if the node touched is its own, or every time then out of date happens to be right. |
| `AmsProtocol.RunOnTimeIff` | internal/config/ams.go:427-499 | A run keeps the heap on time if and only if every accepted object touches such a node, for copied places and for live handles. |
| `AmsProtocol.LiveRunOnTime` | internal/config/ams.go:465-499 | Through live handles every run does. |
| `AmsProtocol.ExpiredAfterDeadline` | internal/config/ams.go:216-240 | In a run that is on time an expired configuration is past its latest accepted time, and has the least time in the heap. |
| `AmsProtocol.NeverExpiredEarly` | internal/config/ams.go:216-240 | In every run through live handles no configuration is expired before its latest accepted time, and only one of least time is. |
| `AmsProtocol.DeadlineExact` | internal/config/ams.go:427-499 | In every run the deadline these statements speak of is the time asked for by the last object accepted for the key, if the key was not expired since. |
| `AmsProtocol.RunTimelyIff` | internal/config/ams.go:427-499 | A run has in its heap exactly the accepted times, in every state, if and only if every accepted object touches its own node or asks for what is already so, for copied places and for live handles. |
| `AmsProtocol.LiveTimelyIff` | internal/config/ams.go:427-499 | Through live handles it does if and only if no time-to-live comes for a configuration cached without one. |
| `AmsProtocol.TicksClear` | internal/config/ams.go:207-243 | After as many ticks past a time as the heap had nodes, and no object between them, nothing due before it is left. |
| `AmsProtocol.AllDueExpire` | internal/config/ams.go:207-243 | Through live handles, with no late time-to-live, every configuration past its latest accepted time is expired after as many ticks as there are configurations with one. |
| `AmsProtocol.LiveReceives` | internal/config/ams.go:481-499 | Through live handles every object can be received in every state: none stops the process. |
| `AmsProtocol.TargetExact` | internal/config/ams.go:481-499 | After an accepted object its key has the new time, or no node, if and only if the node touched is its own or already was as asked; and another key keeps its time if and only if the node touched is not its own, or already had that time. |
| `AmsProtocol.CopiedPlace` | internal/config/ams.go:427-499 | In every run of the code the place kept with a cached key is the one its node had when the key entered the cache, however the heap has moved since, or none if an object accepted since had no time-to-live. |
| `AmsProtocol.StaleIndexExpiresEarly` | internal/config/ams.go:465-539 | For every two pushes in which the second is due earlier, prolonging the first leads to its early expiry. |
| `AmsProtocol.StaleIndexPanics` | internal/config/ams.go:465-539 | After the first of two configurations expires, the next object for the second uses a place outside the heap. |
| `AmsProtocol.GoodObjects` | internal/config/parser.go:33-121 | The objects these runs are about exist for every type and data that parse, under any two names. |
| `AmsProtocol.LateTimeToLiveIgnored` | internal/config/ams.go:481-489 | A configuration first accepted without a time-to-live has no node; one accepted later leaves the heap empty. |
| `AmsLoader.Loader.constructor` | internal/config/ams.go:86-128 | A new loader is in the initial state of the protocol. |
| `AmsLoader.Loader.AcceptNew` | internal/config/ams.go:427-479 | An accepted object under a new key takes the protocol's step. |
| `AmsLoader.Loader.AcceptKnown` | internal/config/ams.go:427-499 | And one under a cached key, through the copied place. |
| `AmsLoader.Loader.Accept` | internal/config/ams.go:427-459 | Accepting is the protocol's step, or stops the process exactly when the copied place lies outside the heap, with the entry rewritten. |
| `AmsLoader.Loader.Receive` | internal/config/ams.go:397-459 | Judging, caching, scheduling and sending one object is the protocol's step, or stops the process exactly when the copied place lies outside the heap. |
| `AmsLoader.Loader.Respond` | internal/config/ams.go:316-395 | The objects of a response are taken in order, each at its own time, and it is refused if and only if one of them was an error. |
| `AmsLoader.ExpireEarly` | internal/config/ams.go:465-539 | On the loader object itself, from empty: it expires a configuration whose accepted time has not come. |
| `AmsLoader.StopTheProcess` | internal/config/ams.go:481-499 | On the loader object itself, from empty: the next object after an expiry stops the process. |
| `AmsLoader.IgnoreLate` | internal/config/ams.go:481-489 | On the loader object itself, from empty: a late time-to-live is accepted and the heap stays empty. |
| `AmsLoader.Loader.Tick` | internal/config/ams.go:216-240 | One tick is the protocol's step. |
| `Intake.AppendInv` | internal/intake/worker.go:211-230 | Receiving a delta keeps order, sizes and numbering. |
| `Intake.RenewedInv` | internal/intake/worker.go:179-189 | Flushing keeps them. |
| `Intake.AddLaterPlaced` | internal/intake/worker.go:187-187 | A batch handed to the queue is not taken for a duplicate and is then in one place. |
| `Intake.DelayedCount` | internal/intake/worker.go:297-302 | A batch whose delay ends is not dropped as a duplicate, also while it is still being processed. |
| `Intake.SendFailCount` | internal/intake/worker.go:337-358 | A batch whose send fails is delayed again, once. |
| `Intake.MovePlaced` | internal/intake/worker.go:297-361 | No step of the queue loses or doubles a batch. |
| `Intake.StepInv` | internal/intake/worker.go:179-361 | Every step of every goroutine keeps the invariant. |
| `Intake.RunInv` | internal/intake/worker.go:179-361 | Every reachable state satisfies it. |
| `Intake.NothingLost` | internal/intake/worker.go:67-72 | In every reachable state the flushed batches in order of their numbers and the current batch concatenate to the deltas received in the run, batch sizes are between one and the maximum, and every queued batch is in exactly one place. |
| `Intake.EveryDeltaPlaced` | internal/intake/worker.go:211-234 | Every received delta is at its position of one flushed batch, which is in exactly one place, or of the current batch. |
| `Intake.FlushedBatches` | internal/intake/worker.go:179-292 | In every run a flush for size hands over a full batch, or none if the ticker was faster; one for time what there is; a heartbeat its own batch; each takes one number and is then waiting, and no other step hands anything over. |
| `Intake.StepOrdered` | internal/intake/worker.go:297-361 | A step keeps the batches sent, being sent and ready in the order they were filled if and only if the batch it makes ready, if any, follows all of them. |
| `Intake.LineInOrderIff` | internal/intake/worker.go:297-361 | A run keeps the batches sent, being sent and ready in that order if and only if every batch that becomes ready follows all of them at that moment. |
| `Intake.SentInOrderIff` | internal/intake/worker.go:297-361 | What a run sent is in the order the batches were filled if and only if every successful send was of a batch that follows all those sent before it. |
| `Intake.SentOrdered` | internal/intake/worker.go:297-361 | If that line is in order, what was sent is. |
| `Intake.RetryOvertaken` | internal/intake/worker.go:337-358 | A run that sends the second batch before the first. |
| `Intake.DelayOvertaken` | internal/intake/worker.go:187-187 | And one that does so with no send failing, by a longer delay. |
| `Intake.SentInOrderAnyway` | internal/intake/worker.go:337-358 | A run whose line was out of order and whose sending is in order, the batch that jumped having failed. |
| `Intake.Worker.constructor` | internal/intake/worker.go:145-177 | A new worker is in the initial state. |
| `Intake.Worker.Append` | internal/intake/worker.go:222-225 | Appending a delta is the step, and says whether to flush. |
| `Intake.Worker.FlushBatch` | internal/intake/worker.go:179-189 | Flushing is the step; an empty batch is not queued. |
| `Intake.Worker.Heartbeat` | internal/intake/worker.go:284-292 | A heartbeat batch takes the next number and is queued. |
| `Intake.Worker.SendDelta` | internal/intake/worker.go:297-361 | A ready batch is taken and done with: sent if the send succeeds, delayed again if it fails. |
| `Intake.Worker.Start` | internal/intake/worker.go:211-233 | A stream that ends, received alone, is handed to the queue whole and in order. |
| `RingBuffer.PushWindow` | pkg/ringbuffer/ringbuffer.go:39-68 | Writing at the head of the ring drops the oldest element exactly when it is full. |
| `RingBuffer.LastNSnoc` | pkg/ringbuffer/ringbuffer.go:39-45 | Keeping the last n as elements arrive is keeping the last n of all. |
| `RingBuffer.RingBuffer.Push` | pkg/ringbuffer/ringbuffer.go:39-45 | The contents become the last capacity elements of the old ones and the new one. |
| `RingBuffer.RingBuffer.GetAll` | pkg/ringbuffer/ringbuffer.go:48-68 | Returns the contents, oldest first, for a ring that has or has not wrapped. |
| `RingBuffer.RingBuffer.Clear` | pkg/ringbuffer/ringbuffer.go:81-86 | Empties the ring. |
| `RingBuffer.New` | pkg/ringbuffer/ringbuffer.go:29-36 | There is a buffer if and only if the capacity is positive. |
| `MetricsPipeline.StepInv` | internal/metrics/consumers/otel/buffer.go:42-71 | Every step of any handler or the consumer keeps the contents and the accounting. |
| `MetricsPipeline.RunNotForgotten` | internal/metrics/consumers/otel/buffer.go:42-71 | In every run with a positive threshold a buffer at the threshold is not forgotten. |
| `MetricsPipeline.NoLostWakeUp` | internal/metrics/consumers/otel/buffer.go:42-71 | In every run, with any number of handlers, a buffer at the threshold has a notification pending, about to be posted, or being answered, if and only if the threshold is positive. |
| `MetricsPipeline.IdleHasToken` | internal/metrics/consumers/otel/consumer.go:372-404 | When nobody is posting and the consumer waits, a full enough buffer wakes it. |
| `MetricsPipeline.NoSpuriousWakeUp` | internal/metrics/consumers/otel/buffer.go:42-56 | And there is a notification only if some push reached the threshold. |
| `MetricsPipeline.PostingIff` | internal/metrics/consumers/otel/buffer.go:42-56 | A handler is about to notify if and only if its push reached the threshold and it has not notified since. |
| `MetricsPipeline.TokenIff` | internal/metrics/consumers/otel/consumer.go:372-376 | The channel holds a notification if and only if one was posted since the consumer last took one. |
| `MetricsPipeline.DrainExact` | internal/metrics/consumers/otel/buffer.go:60-71 | In every interleaving a drain hands out the last min(capacity, k) of the k events the steps since the drain before pushed, in order. |
| `MetricsPipeline.RunDropped` | internal/metrics/consumers/otel/consumer.go:265-284 | If nobody pushes or drains between a handler's look and its push, the dropped counter is ahead of the overwritten events by the pending looks that saw a full buffer. |
| `MetricsPipeline.CountersAddUp` | internal/metrics/consumers/otel/consumer.go:265-284 | In such a run, whenever nobody is between look and push, pushed equals processed, errors, dropped, buffered and in hand together. |
| `MetricsPipeline.CountersAddUpIff` | internal/metrics/consumers/otel/consumer.go:265-284 | In every run the sum holds if and only if as many looks saw the buffer full as pushes overwrote. |
| `MetricsPipeline.CountersCount` | internal/metrics/consumers/otel/consumer.go:265-428 | In every run dropped counts the looks that saw a full buffer, processed and errors the events that ended so. |
| `MetricsPipeline.LookStillRight` | internal/metrics/consumers/otel/consumer.go:265-284 | An undisturbed look is still right when its handler pushes. |
| `MetricsPipeline.InterleavedHandlersMiscount` | internal/metrics/consumers/otel/consumer.go:265-284 | Two interleaved handlers that break the sum. |
| `OtelConsumer.MetricsBuffer.Push` | internal/metrics/consumers/otel/buffer.go:42-56 | The event is kept with the last ones, and the notification set at the threshold. |
| `OtelConsumer.MetricsBuffer.Drain` | internal/metrics/consumers/otel/buffer.go:60-71 | Hands out the last capacity events pushed since the drain before and empties the buffer. |
| `OtelConsumer.ChunksPartition` | internal/metrics/consumers/otel/consumer.go:379-385 | The chunks are a partition in order, none empty or over the batch size, and only the last may be short. |
| `OtelConsumer.Consumer.HandleEvent` | internal/metrics/consumers/otel/consumer.go:265-284 | The dropped counter rises exactly when the push overwrites, the high-water mark is the larger of itself and the length seen, and the counters keep adding up. |
| `OtelConsumer.Consumer.ProcessBatch` | internal/metrics/consumers/otel/consumer.go:408-428 | Every event of a batch is counted once, failures as errors. |
| `OtelConsumer.Consumer.Export` | internal/metrics/consumers/otel/consumer.go:379-385 | The loop exports exactly the chunks and counts exactly the events that fail as errors. |
| `OtelConsumer.Consumer.OnNotify` | internal/metrics/consumers/otel/consumer.go:374-386 | On a notification everything buffered is exported in chunks and the counters still add up. |
| `OtelConsumer.Consumer.OnTick` | internal/metrics/consumers/otel/consumer.go:388-400 | On a tick everything buffered is exported as one batch, nothing if there is none. |
| `Merger.InsertListed` | pkg/channel/merger.go:107-112 | Inserting an input keeps the two special cases last and adds that channel only. |
| `Merger.DeleteListed` | pkg/channel/merger.go:115-117 | Deleting an input keeps them last and removes no other channel. |
| `Merger.StepInv` | pkg/channel/merger.go:95-121 | Every selection, send, close and addition keeps the merger invariant. |
| `Merger.RunInv` | pkg/channel/merger.go:73-122 | Every reachable state satisfies it, from any inputs. |
| `Merger.Interleaving` | pkg/channel/merger.go:73-122 | In every reachable state the output restricted to a channel is the prefix of what was sent on it that is no longer in it; a channel that was added and is neither selected nor about to be was read to its end; the two special cases are last. |
| `Merger.OutputComesFrom` | pkg/channel/merger.go:119-119 | Every output message is among those of its channel. |
| `Merger.CanReceive` | pkg/channel/merger.go:113-119 | A message waiting on a selected channel can be the next put out, and a closed empty channel can be dropped. |
| `Merger.CanAdd` | pkg/channel/merger.go:101-112 | The first channel waiting to be added can be. |
| `Merger.AdditionsInOrder` | pkg/channel/merger.go:101-112 | In every run channels are added in the order of the calls of Add, each once. |
| `Merger.EndedIff` | pkg/channel/merger.go:98-106 | In every run the loop has ended if and only if it selected the done channel, or the channel of additions when that was closed and empty; and only after Close. |
| `Merger.DoneEnds` | pkg/channel/merger.go:98-100 | Once the done channel is selected nothing more is selected or put out. |
| `Merger.CanEnd` | pkg/channel/merger.go:60-71 | After Close the loop can end at any turn. |
| `Merger.Merger.constructor` | pkg/channel/merger.go:76-93 | The cases are the inputs, then additions and done. |
| `Merger.Merger.Handle` | pkg/channel/merger.go:98-120 | The body of the loop, deciding by position, takes the step of the case selected and keeps the shape. |
| `DeltaRuns.CalculateDelta` | pkg/performance/collectors/cpu.go:296-317 | Every counter's rise, zero on a reset, and a flag exactly if some counter fell. |
| `DeltaRuns.CalculateDeltas` | pkg/performance/collectors/cpu.go:264-289 | Every entry is compared with the last previous entry of its key, new keys with nothing. |
| `DeltaRuns.Collector.CollectCarrying` | pkg/performance/collectors/cpu.go:72-101 | The baseline moves on the first collection and when deltas are emitted only. |
| `DeltaRuns.Collector.CollectAdvancing` | pkg/performance/collectors/disk.go:81-102 | The baseline moves on every collection. |
| `DeltaRuns.CarryingEmits` | pkg/performance/delta.go:61-85 | A CPU-style collection emits if and only if its distance from the baseline is acceptable. |
| `DeltaRuns.CarryingTotal` | pkg/performance/collectors/cpu.go:72-101 | For a key in all samples the deltas of a run sum to the rises from each baseline to the next. |
| `DeltaRuns.CarryingTelescopes` | pkg/performance/collectors/cpu.go:72-101 | For a counter that never decreases that is the last baseline minus the first, short intervals carried forward. |
| `DeltaRuns.FrozenAfterGap` | pkg/performance/collectors/cpu.go:82-88 | After one gap over the maximal interval, with a clock that does not go back, nothing is ever emitted again. |
| `DeltaRuns.CanEmitIff` | pkg/performance/collectors/cpu.go:82-98 | With a clock past a time for good, a CPU-style collector can emit again if and only if that time is within the maximal interval from its baseline, and the configured intervals leave room. |
| `DeltaRuns.AdvancingEmits` | pkg/performance/collectors/disk.go:89-98 | A disk-style collection emits if and only if the interval since the last one is acceptable, against that one. |
| `DeltaRuns.AdvancingDropsSkipped` | pkg/performance/collectors/disk.go:81-102 | For every counter, resets included, the total and the rises over the skipped intervals are together all rises from sample to sample. |
| `DeltaRuns.AdvancingTelescopes` | pkg/performance/collectors/disk.go:81-102 | For one that never decreases they are together the last value minus the first. |
| `ExecArgs.Pack` | ebpf/src/execsnoop.bpf.c:75-101 | The loop captures at most 20 arguments and at most the configured number, up to the first bad pointer, each whole if under 128 bytes and else its first 127, end to end with terminators, within 2560 of the 7680 bytes, so its bounds tests never stop it. |
| `ExecArgs.CapturedWholeIff` | ebpf/src/execsnoop.bpf.c:75-101 | A process's arguments are captured unchanged if and only if there are at most 20, at most the configured number, and each is under 128 bytes. |
| `ExecArgs.MaskIs` | ebpf/src/execsnoop.bpf.c:141-141 | The mask keeps four bits from the ninth on, for every size. |
| `ExecArgs.MaskOfPacked` | ebpf/src/execsnoop.bpf.c:141-144 | It drops the size of a packed vector to the last multiple of 512. |
| `ExecArgs.HeaderRoundTrip` | pkg/performance/collectors/execsnoop.go:246-270 | The header fields lie at their places in 40 bytes and are read back from the submitted record. |
| `ExecArgs.LittleEndian` | pkg/performance/collectors/execsnoop.go:253-255 | A number's first byte is its lowest. |
| `ExecArgs.ParseEvent` | pkg/performance/collectors/execsnoop.go:246-287 | The loop returns the first non-empty terminated strings; there is an error if and only if the data is under 40 bytes or the size in it goes beyond the data, and a negative count stops the process. |
| `ExecArgs.ScanIsSplit` | pkg/performance/collectors/execsnoop.go:276-287 | On any bytes the loop finds the non-empty parts between terminators, and holds what follows the last one. |
| `ExecArgs.ScanCut` | pkg/performance/collectors/execsnoop.go:276-287 | Splitting a cut of the packed bytes finds the non-empty strings that end inside it. |
| `ExecArgs.ParseOfSubmitted` | pkg/performance/collectors/execsnoop.go:246-287 | For every argument vector the parser returns a prefix of the non-empty captured arguments, those that end within the masked size, whatever the reserved space held. |
| `ExecArgs.AllArgumentsIff` | ebpf/src/execsnoop.bpf.c:141-144 | All of them arrive if and only if every non-empty one ends before the last multiple of 512. |
| `ExecArgs.UserArgumentsIff` | ebpf/src/execsnoop.bpf.c:75-144 | Few enough and short enough arguments of a process all reach the parsed event if and only if each non-empty one ends before the last multiple of 512. |
| `ExecArgs.AllOrNothing` | ebpf/src/execsnoop.bpf.c:141-144 | All arrive if the mask leaves the size alone, and none if the size is under 512. |
| `ExecArgs.Observe` | ebpf/src/execsnoop.bpf.c:43-150 | Packing, submitting and parsing one after the other give that result, with the header as it was but for count and masked size. |

## Left out

- Badger's conflict detection and durability: a transaction commits whole or changes nothing, and transactions do not overlap.
- Store.Store.New: the store starts empty; one opened on a data directory starts with what was persisted there.
- Store.Store.Subscribe: the initial objects sent to a new subscriber, and the initial instances of Watch, race with live events in goroutines of their own and are not modelled.
- StoreHistory.OneEndHistory: queries that use a predicate index have no history condition, since what the predicate search misses depends on the order of the hashes; their condition is that of the state.
- The event channel between the store and its router: an event is routed in the call that sends it, so back-pressure and the loss of events on Close are not modelled.
- Subscribers' channels have no capacity: a slow subscriber that blocks the router is not modelled.
- Base64 decoding skips carriage returns and line feeds in the code; the model's decoder rejects them, and encoded text never holds them.
- AmsProtocol.NeverExpiredEarly: a tick is one step, while the code releases the heap's lock before taking the cache's; an object accepted in between is not modelled.
- ConfigCache.DefaultWatchSeesAcceptedOnly: the ticker also sends expired configurations, which is not part of the statement.
- The gRPC stream of the loader: reconnecting, back-off, the initial request and the text of refusals.
- Intake.Worker.SendDelta: it runs with the other goroutines idle and without a shutdown; the steps interleaved are those of `Intake.Apply`.
- Intake.Worker.Start: likewise, the flusher, the heartbeat and the sender are idle during the stream.
- Intake after cancellation or queue shutdown: a failed batch is then dropped, and a batch still delayed may never be sent.
- Intake batch numbers are unbounded integers; the code's 64-bit counter would wrap after 2^64 batches.
- The rate limiter's delays: a delayed batch becomes ready at any later time.
- OtelConsumer: transforming and exporting one event is a predicate that says whether it fails; health reporting and the high-water mark under races are left out.
- Merger: sending to the output is one step, so a consumer that stops reading is not modelled.
- DeltaRuns: rates and percentages, which are floating-point divisions, and writing the delta into the statistics object; deltas are returned in a list instead.
- ExecArgs.ParseEvent: the command name taken from the first argument, and the process fields beyond the header.
- /proc and /sys readers, OpenTelemetry transformers, Kubernetes informers, cluster providers, flags and generated code: input and output with only easy members.
