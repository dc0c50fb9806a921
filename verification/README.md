# nixcache verification

Dafny models of a Nix binary cache whose index is a sharded Merkle map kept as
content-addressed OCI blobs, with proofs about the parts where a mistake would lose or
invent entries. `dafny verify dfyconfig.toml` checks everything.

The project follows the program's components:

- `Glob`, `Reachability`, `Selection`, `SelectionLaws`, `Purge`, `Gc`: which entries a
  selector picks, how the choice spreads over the reference graph, what GC roots protect, and
  what purge and garbage collection remove. Each worklist loop is proved equal to a least
  fixed point that names no iteration order.
- `Encoding`, `Merkle`, `MerkleBinding`, `Root`, `RootBinding`, `IndexBinding`: the canonical
  encoding, the layered tree, the global root and the map it binds. SHA-256 is any function; binding is stated as "the inputs
  are equal, or two different byte strings among those actually hashed have one digest".
- `Store`, `Index`, `Archive`, `ArchiveLaws`, `ReferenceSafety`: partial compaction. The simple thing is one map
  of entries per architecture; the fast thing is a root of 1024 descriptors over an append-only
  blob store. The class `Archive` keeps the maps as ghost state beside the published roots.
- `Coherence`, `Worker`, `WorkerLaws`, `Freshness`, `Eviction`, `Debounce`, `Proxy`,
  `ProxyFreshness`: the readers, as state machines whose tasks stop at every await, with memory,
  key-value and remote tiers, late finishing fetches, refreshes, evictions and expiry. The laws
  quantify over every run: answers are right for the root they were read from, that root is no
  older than the cache lifetimes allow, and lookups end.
- `NarInfo`, `NarInfoLaws`, `NarInfoText`, `Auth`, `AuthLaws`, `AuthGrammar`: printers and
  parsers, their round trips, and what is read from texts that no printer makes.
- `Streams`, `Bloom`, `Murmur`: the stream wrappers, the bit-set index and the hash's tail.
- `Basics`, `Text`, `Order`, `Types`: shared vocabulary; `Samples`: entries written out in full.

Where the code does not meet the obvious property, the exact condition is proved:

- The glob matcher misses matches of some pattern on every text that contains a literal `*`, and
  on no other text (`Glob.ExactTexts`); both sides have a family of examples.
- `StoreHash::parse` trims, so a deriver `/nix/store/ <hash>-x.drv` is accepted; such a value
  is not restored by rendering and parsing it (`NarInfoLaws.RoundTripIsExact`).
- A token68 credential with padding is read as a parameter without a value, and the header is
  refused (`AuthLaws.Token68IsReadExactly`).
- The saturating byte count enforces every limit but 2^64 - 1 (`Streams.LimitIsExact`).
- Writing a shard does not check what reading it demands of system, sizes and count, and these
  alone decide whether it can be read (`ArchiveLaws.FetchableIs`); a payload that is written and
  never read again is `ArchiveLaws.ForeignPayload`.
- Purging merges the entries of all architectures. No purge leaves an entry of any index pointing
  to a purged one exactly when every reference is traced back in the merged entries
  (`ReferenceSafety.ReferenceSafetyIsExact`); `ReferenceSafety.SharedHashCounterexample` is a pair
  of indexes where it is not.

## Model

| member | source | states |
|---|---|---|
| `Glob.WildcardMatch` | crates/nixcache-core/src/filter.rs:378-409 | the four-index backtracking loop ends on every pattern and text; a match it reports is always a match in the recursive meaning of `*` and `?`, and the two agree whenever the pattern or the text has no `*` byte |
| `Glob.MatcherIsSound` | crates/nixcache-core/src/filter.rs:378-409 | greedy last-star backtracking never reports a false match, whatever bytes occur |
| `Glob.MatcherIsExact` | crates/nixcache-core/src/filter.rs:378-409 | it finds every match when the pattern or the text has no literal `*` |
| `Glob.ExactTexts` | crates/nixcache-core/src/filter.rs:384-404 | the matcher is exact on a text for all patterns if and only if the text has no `*`: the literal comparison is tried before the star |
| `Glob.ExactPatterns` | crates/nixcache-core/src/filter.rs:384-404 | it is exact for a pattern on all texts if and only if the pattern has no `*` |
| `Glob.TextCounterexample` | crates/nixcache-core/src/filter.rs:384-404 | for every text with a `*`, a pattern that matches it and is missed |
| `Glob.PatternCounterexample` | crates/nixcache-core/src/filter.rs:384-404 | for every pattern with a `*`, a text that it matches and misses |
| `Glob.PlainPatternIsSurrounded` | crates/nixcache-core/src/filter.rs:411-417 | a pattern without wildcards means the same as that pattern between two stars |
| `Glob.PatternIsGlob` | crates/nixcache-core/src/filter.rs:411-417 | a pattern never matches beyond the glob it stands for, and matches exactly that glob unless pattern and text both have a `*` |
| `Selection.BuildGraphs` | crates/nixcache-core/src/filter.rs:439-452 | succeeds exactly when every reference parses; the forward graph is the reference graph and the reverse graph its converse |
| `Selection.Mark` | crates/nixcache-core/src/filter.rs:466-483 | the worklist computes the least set that holds the start and is closed under references, for cyclic and dangling graphs, whatever the order of the queue |
| `Selection.ForwardClosure` | crates/nixcache-core/src/filter.rs:465-483 | the closure of some roots equals the declarative reachable set |
| `Selection.Spread` | crates/nixcache-core/src/filter.rs:531-608 | the cascade worklist of each mode reaches exactly what the mode's edges reach outside the protected set, and records a reason for every hash it adds |
| `Selection.InitialMatches` | crates/nixcache-core/src/filter.rs:485-529 | the first pass picks the unprotected entries the scope selects, each with its reason |
| `Selection.Split` | crates/nixcache-core/src/filter.rs:610-628 | entries are split by membership in the total set, with both byte sums |
| `Selection.EvaluateCacheQuery` | crates/nixcache-core/src/filter.rs:434-628 | fails exactly when a reference does not parse; otherwise the whole answer: matched and unmatched entries, sorted hash lists, reasons, byte sums and active roots, independent of map iteration order |
| `SelectionLaws.PickedIsLeastFixedPoint` | crates/nixcache-core/src/filter.rs:531-626 | the picked entries are those inside any least set that holds the initial matches and is closed under the mode's edges into unprotected hashes |
| `SelectionLaws.SelectionIsExact` | crates/nixcache-core/src/filter.rs:434-628 | in terms of the entries alone: an entry is picked if and only if steps of the mode lead to it from an entry the scope wants, none of them over a hash to which references lead from a GC root of a targeted system while protection is on |
| `SelectionLaws.ExactModePicks` | crates/nixcache-core/src/filter.rs:465-529 | without a cascade, exactly the wanted entries are picked that no such references lead to |
| `SelectionLaws.ProtectedIsGuarded` | crates/nixcache-core/src/filter.rs:454-483 | protected is exactly what references lead to from the GC roots of the systems the scope names, or of all systems when it names none |
| `SelectionLaws.LabelsAreExact` | crates/nixcache-core/src/filter.rs:97-186 | an entry matches a filter if and only if it is of a named system and some filter names it by hash, pattern, time, size, job or run; the labels are exactly those that hold |
| `SelectionLaws.InitialReasonsAreExact` | crates/nixcache-core/src/filter.rs:485-529 | the reason recorded for an initial match is the one that holds of it |
| `SelectionLaws.ReportedRootsAreTargeted` | crates/nixcache-core/src/filter.rs:454-463 | the active roots are those of the targeted systems, unchanged |
| `SelectionLaws.AnswerIsUnique` | crates/nixcache-core/src/filter.rs:434-628 | two answers to one query differ at most in which parent explains a cascade |
| `SelectionLaws.AnswerPartitions` | crates/nixcache-core/src/filter.rs:610-628 | matched and unmatched entries are disjoint and make up the input, and so do their bytes modulo 2^64 |
| `SelectionLaws.ProtectedIsKept` | crates/nixcache-core/src/filter.rs:465-483 | nothing the GC roots reach is picked in any mode |
| `SelectionLaws.NoDanglingReference` | crates/nixcache-core/src/filter.rs:538-607 | in the modes that spread to dependents no kept entry references a picked one, with or without protection and under any restriction |
| `SelectionLaws.ReasonsLeadToInitialMatch` | crates/nixcache-core/src/filter.rs:505-607 | following the recorded reasons from any picked hash ends, without repetition, at an initial match, and each step is an edge in the stated direction |
| `Purge.CheckRoot` | crates/nixcache-core/src/purge.rs:47-70 | the early-exit search says a root is sound exactly when everything it reaches is present and not purged |
| `Purge.PruneBrokenGcRoots` | crates/nixcache-core/src/purge.rs:26-83 | keeps exactly the sound roots of every system in their order; fails exactly when a kept entry has a bad reference |
| `Purge.GroupBlobs` | crates/nixcache-core/src/purge.rs:109-115 | groups entries by digest with the largest size of each group |
| `Purge.ListBlobs` | crates/nixcache-core/src/purge.rs:116-122 | lists the groups in strictly ascending order of digest |
| `Purge.EvaluateCachePurge` | crates/nixcache-core/src/purge.rs:100-131 | the selection answer together with the pruned roots and the grouped blobs |
| `Purge.RootSurvives` | crates/nixcache-core/src/purge.rs:39-83 | a root survives exactly when all it reaches through entries is present and not purged |
| `Purge.PruningIsIdempotent` | crates/nixcache-core/src/purge.rs:26-83 | pruning again over the kept entries removes nothing |
| `Purge.ProtectionBreaksNoRoot` | crates/nixcache-core/src/purge.rs:107-108 | with protection on, a root of a system the scope names, or of any system when it names none, survives exactly when its closure was complete before |
| `Purge.BlobsAreGrouped` | crates/nixcache-core/src/purge.rs:109-122 | every digest is listed once, in order, with the maximum size among the entries that share it |
| `Purge.BlobBytesAreFreedBytes` | crates/nixcache-builder/src/purge.rs:207-210 | the saturating sum of blob sizes is exact and never exceeds the freed bytes when those fit in 64 bits |
| `Gc.SearchEntries` | crates/nixcache-core/src/gc.rs:53-66 | the collector's own search is closed and stays inside every closed set that holds the roots |
| `Gc.EvaluateMultiArchGc` | crates/nixcache-core/src/gc.rs:33-74 | deletes exactly the entries outside the closure of all roots whose parsed timestamp precedes the cutoff; the reachable set is that closure |
| `Gc.GcTotal` | crates/nixcache-core/src/gc.rs:38-45 | what the purge engine picks with the collector's selector is the set of dead entries |
| `Gc.CollectionKeepsLive` | crates/nixcache-core/src/gc.rs:38-74 | no collection removes anything a root reaches |
| `Types.ParseStoreHash` | crates/nixcache-core/src/types.rs:35-49 | the test of the byte length and then of every character accepts exactly the texts that trim to 32 Nix base-32 characters |
| `Types.CanonicalDigestParses` | crates/nixcache-core/src/sharding.rs:330-349 | a digest parses to itself exactly when it is in canonical form |
| `Types.FormatThenRead` | crates/nixcache-core/src/sharding.rs:366-374 | reading the text form of a digest gives its bytes back |
| `Types.NormalizeIsExact` | crates/nixcache-core/src/types.rs:503-519 | exactly the basenames with a parsing hash, a plain name and no separator are accepted, with or without the store directory in front, and the basename is returned |
| `Types.BasenameIsExact` | crates/nixcache-core/src/types.rs:485-501 | a basename has a hash if and only if a name without slash, backslash, control character or blank follows its first dash and the text before trims to the hash |
| `Types.StorePathIsExact` | crates/nixcache-core/src/types.rs:471-483 | a store path is exactly the store directory and such a basename, without any other slash |
| `Types.HashTestsAreComplete` | crates/nixcache-core/src/types.rs:35-49 | the length test and the character test together accept exactly the hashes |
| `Types.ReferenceHashes` | crates/nixcache-core/src/types.rs:672-685 | the hashes of all references in order, or an error if any is broken |
| `Encoding.CanonicalEncoder.PutStringVec` | crates/nixcache-core/src/sharding.rs:455-461 | appends the count and every length-prefixed string |
| `Encoding.CanonicalEncoder.PutOptDigest` | crates/nixcache-core/src/sharding.rs:425-433 | appends a tag byte and, if present, the 32 bytes |
| `Encoding.SplitStr` | crates/nixcache-core/src/sharding.rs:412-419 | a length-prefixed string at the front of two equal byte strings is the same string with the same rest |
| `Encoding.SplitStrVec` | crates/nixcache-core/src/sharding.rs:455-461 | the same for a vector of strings |
| `Encoding.SplitOptDigest` | crates/nixcache-core/src/sharding.rs:425-433 | the same for an optional digest |
| `Merkle.ComputeLayeredRoot` | crates/nixcache-core/src/sharding.rs:294-328 | the level-by-level loop computes the layered tree for any number of leaves, odd ones folded as unary nodes |
| `Merkle.EntryLeafHash` | crates/nixcache-core/src/sharding.rs:145-175 | hashes the canonical bytes of every persistent field; fails exactly on a digest not in canonical form |
| `Merkle.PrefixOfShard` | crates/nixcache-core/src/sharding.rs:52-85 | a hash belongs to a shard exactly when it starts with the shard's prefix |
| `Merkle.ComputeShardHash` | crates/nixcache-core/src/sharding.rs:112-143 | accepts exactly the shards whose entries belong under their keys, and hashes them independently of map order |
| `MerkleBinding.EntryIsReadOneWay` | crates/nixcache-core/src/sharding.rs:145-175 | equal leaf inputs come from equal hashes and entries |
| `MerkleBinding.NodeIsReadOneWay` | crates/nixcache-core/src/sharding.rs:306-322 | equal node inputs have the same children, one or two of them |
| `MerkleBinding.KindsAreSeparate` | crates/nixcache-core/src/sharding.rs:11-17 | no string hashed under one of the v8 domain tags is ever one hashed under another |
| `MerkleBinding.ClimbBinds` | crates/nixcache-core/src/sharding.rs:294-328 | two levels of the same width with the same root are equal, or two different strings that were hashed on the way have one digest |
| `MerkleBinding.ShardHashBinds` | crates/nixcache-core/src/sharding.rs:120-143 | two accepted shards with the same hash have the same id, keys and entries, or two different byte strings among those hashed collide |
| `Root.MakeEmpty` | crates/nixcache-core/src/types.rs:1041-1052 | an empty descriptor for exactly the ids below 1024 |
| `Root.ValidateDescriptor` | crates/nixcache-core/src/types.rs:996-1038 | accepts exactly the structurally valid descriptors; an empty one has only its own canonical form |
| `Root.IndexDescriptors` | crates/nixcache-core/src/sharding.rs:216-246 | accepts exactly one valid descriptor per id in any order, returns them by id, and never reports a missing shard |
| `Root.Pigeonhole` | crates/nixcache-core/src/sharding.rs:236-245 | 1024 different ids below 1024 leave none out |
| `Root.ComputeMerkleRoot` | crates/nixcache-core/src/sharding.rs:180-192 | accepts exactly the complete sets; the root is that of the descriptors by ascending id |
| `Root.DiffDescriptors` | crates/nixcache-core/src/sharding.rs:248-260 | returns exactly the differing ids, ascending |
| `RootBinding.RootIgnoresOrder` | crates/nixcache-core/src/sharding.rs:180-192 | the root is the same under every permutation of the descriptors |
| `RootBinding.RootHashBinds` | crates/nixcache-core/src/sharding.rs:180-214 | equal roots come from equal descriptors, or two different strings among those hashed collide |
| `RootBinding.EqualRootsHaveNoDiff` | crates/nixcache-worker/src/store.rs:477-485 | where roots agree the diff is empty, up to a collision, so skipping it loses no eviction |
| `IndexBinding.RootBindsMap` | crates/nixcache-core/src/sharding.rs:112-214 | two indexes with one Merkle root, in whatever stores, stand for one map of entries; otherwise two different strings hashed for the roots, or for one shard of both, collide |
| `Store.Registry.PushBlob` | crates/nixcache-oci/src/client/index.rs:284-296 | bytes are stored under their digest; existing blobs never change; two different byte strings under one digest are recorded as a collision |
| `Store.Registry.PushShard` | crates/nixcache-oci/src/client/index.rs:284-296 | refuses an invalid payload; otherwise the stored blob decodes to the payload with the sizes returned |
| `Store.Registry.GetShard` | crates/nixcache-oci/src/client/index.rs:230-282 | what is returned is what the descriptor's digest addresses and agrees with its sizes, count, system, limits and Merkle hash; a refusal means that one of these fails |
| `Store.EmptyShardHidesNothing` | crates/nixcache-core/src/types.rs:1192-1197 | turning a lookup away at an empty shard hides no entry |
| `Index.ValidateRoot` | crates/nixcache-core/src/types.rs:1199-1245 | accepts exactly the structurally valid roots |
| `Index.PartitionByShard` | crates/nixcache-core/src/sharding.rs:87-96 | a bucket for exactly the shards that have an entry, holding their part of the map |
| `Index.LookupIsMapLookup` | crates/nixcache-core/src/types.rs:1159-1163 | looking a hash up through descriptor and payload is looking it up in the one map the root stands for |
| `Index.AgreesIsUnique` | crates/nixcache-core/src/types.rs:1113-1131 | a root stands for one map only |
| `Index.CompactShard` | crates/nixcache-builder/src/promote.rs:194-216 | one shard: the old payload, which must be readable, overwritten by the incoming entries, uploaded and described |
| `Index.MergeShards` | crates/nixcache-builder/src/promote.rs:189-218 | all shards: the new descriptors stand for the old map overwritten by the incoming one, and a shard with nothing incoming keeps its descriptor |
| `Index.CountTestIsExact` | crates/nixcache-builder/src/purge.rs:266-272 | comparing counts tells exactly whether a shard lost an entry |
| `Index.ReduceShards` | crates/nixcache-builder/src/purge.rs:258-285 | all shards: the new descriptors stand for the old map without the purged hashes, and a shard that lost nothing keeps its descriptor |
| `Index.LoadEntries` | crates/nixcache-builder/src/purge.rs:154-174 | reading every non-empty shard gives the whole map, and succeeds only if each of them is readable |
| `Index.AgreesIsInOrder` | crates/nixcache-core/src/types.rs:1224-1233 | descriptors that agree with their payloads pass every structural check |
| `Archive.NewRoot` | crates/nixcache-core/src/types.rs:1133-1156 | a complete blank root of the given system, repository and registry, with its Merkle root; neither of its assertions can fail |
| `Archive.UnionOfRoots` | crates/nixcache-builder/src/promote.rs:221-223 | GC roots become the sorted duplicate-free union |
| `Archive.Archive.Promote` | crates/nixcache-builder/src/promote.rs:172-237 | the architecture's map becomes the old one overwritten by the incoming entries, its roots the sorted union, untouched shards keep their descriptors, what is published is valid, belongs to the architecture, repository and registry, and agrees with the map; a key that is there stays, the time and the run are the new ones; a failure publishes nothing |
| `Archive.Archive.PurgeArch` | crates/nixcache-builder/src/purge.rs:247-299 | the architecture's map loses exactly the purged hashes, its roots are replaced, shards that lost nothing keep their descriptors, and system, repository, registry, key and run stay |
| `Archive.Archive.LoadAll` | crates/nixcache-builder/src/purge.rs:144-186 | loads the maps and roots of the published targets and merges them |
| `Archive.Archive.Purge` | crates/nixcache-builder/src/purge.rs:144-299 | load, evaluate and re-compact: a published purge removes exactly the hashes the evaluation picked from every loaded architecture; a preview or an empty answer changes nothing |
| `Archive.RunAll` | crates/nixcache-builder/src/purge.rs:247-299 | any run of promotes and purges, failing or not, keeps every published root structurally valid, under its own architecture, and standing for the replayed maps, and every purge removed what its selector picks from the maps at that point |
| `ReferenceSafety.ReferenceSafetyIsExact` | crates/nixcache-builder/src/purge.rs:180-206 | over all GC roots and all selectors that spread to dependents, a purge leaves no entry of any index pointing to a purged one if and only if following referrers in the merged entries leads from every reference of every index back to its entry |
| `ReferenceSafety.AlikeIsTraced` | crates/nixcache-builder/src/purge.rs:180-186 | that is so where architectures that share a hash give it the same references |
| `ReferenceSafety.SharedHashCounterexample` | crates/nixcache-builder/src/purge.rs:180-186 | two architectures with valid, written-out entries that share a hash, only one of which references another hash: for one order of the merge, purging that hash leaves it referenced |
| `ArchiveLaws.PublishedServesMap` | crates/nixcache-core/src/types.rs:1159-1167 | a reader of any published root sees exactly the architecture's map |
| `ArchiveLaws.PublishedIsItsOwn` | crates/nixcache-core/src/types.rs:1247-1264 | after any run every published root passes the structural and the identity checks of a reader of its architecture, repository and registry |
| `ArchiveLaws.FetchableIs` | crates/nixcache-oci/src/client/index.rs:230-282 | a shard that stands for some entries can be read if and only if they have the right system and size and their number fits; every other check of a read holds of what was published |
| `ArchiveLaws.IndexIsReadable` | crates/nixcache-builder/src/purge.rs:154-174 | the same of a whole published index |
| `ArchiveLaws.ReadableAfterPromote` | crates/nixcache-core/src/types.rs:1419-1458 | a promoted shard can be read if and only if incoming and surviving entries have the right system and size and their number fits, none of which writing checks |
| `ArchiveLaws.ForeignPayload` | crates/nixcache-core/src/types.rs:1378-1458 | a written-out payload that is valid, so that it is written, and that no reader for another architecture allows under any limits |
| `ArchiveLaws.ForeignShardIsStuck` | crates/nixcache-oci/src/client/index.rs:268-281 | where a shard holds other entries, or too many, reading it, promoting into it and loading its index all fail |
| `ArchiveLaws.ReadableAfterPurge` | crates/nixcache-core/src/types.rs:1419-1458 | if a shard can be read, so can the shard a purge leaves of it |
| `Coherence.BuildNarLookup` | crates/nixcache-core/src/lookup.rs:42-51 | a reverse table whose every name and digest come from one entry and which misses no named entry |
| `Coherence.PublishedIsPresent` | crates/nixcache-builder/src/promote.rs:232-237 | every shard of a published root can be found by its digest |
| `Coherence.FallbackRoot` | crates/nixcache-proxy/src/index.rs:463-468 | the root the proxy falls back to is new and blank |
| `Coherence.PayloadDecides` | crates/nixcache-worker/src/store.rs:151-166 | the payload a descriptor's digest addresses decides every lookup in that shard |
| `WorkerLaws.EventKeeps` | crates/nixcache-worker/src/store.rs:137-518 | every step of any task, publication, eviction or cache clearing keeps the caches coherent |
| `WorkerLaws.LabelsAreTrue` | crates/nixcache-worker/src/store.rs:271-378 | over every run each memory and key-value shard labelled with a digest holds the payload the digest addresses |
| `WorkerLaws.AnswersAreExact` | crates/nixcache-worker/src/store.rs:137-258 | over every run a finished lookup agrees with the root it read, for hits and misses alike: a NAR digest found belongs to an entry of that root under that name, and a name not found is that of no entry in the shard it was routed to |
| `WorkerLaws.ScanKeeps` | crates/nixcache-worker/src/store.rs:234-257 | a scanned shard counts only under the digest the current root gives it |
| `WorkerLaws.PublishKeeps` | crates/nixcache-worker/src/store.rs:441-518 | publishing while tasks are under way invalidates nothing they hold |
| `Freshness.RootsAreTaken` | crates/nixcache-worker/src/store.rs:381-438 | over every run the root a task works with was taken by one of its own steps: an unexpired one from memory that a task of the isolate cached, a stored one within its lifetime, one just fetched, or after a failed refresh a stored one; the registry gave it before |
| `Freshness.AnswersAreFresh` | crates/nixcache-worker/src/store.rs:381-438 | over every run the root behind an answer was given by the registry less than the memory and the store lifetimes together before a time the lookup read, unless a refresh of the lookup failed |
| `Freshness.StoredIsGiven` | crates/nixcache-worker/src/store.rs:492-507 | every root in the key-value store was given by the registry, and its time is the one read before asking |
| `Freshness.CachedIsTaken` | crates/nixcache-worker/src/store.rs:410-417 | a root in memory was taken by a task of its isolate and expires one memory lifetime after the time that task read |
| `Freshness.CachesComeFirst` | crates/nixcache-worker/src/store.rs:280-378 | a lookup waits for a slower tier only because its step before found nothing usable in the faster one |
| `Freshness.FetchedIsStored` | crates/nixcache-worker/src/store.rs:492-507 | a root just fetched is in the key-value store |
| `Freshness.LookupsFillCaches` | crates/nixcache-worker/src/store.rs:286-364 | a root or shard taken from a slower tier is in memory afterwards, under its digest and for the memory lifetime |
| `Freshness.MissesAreExcused` | crates/nixcache-worker/src/store.rs:163-211 | over every run a lookup of a hash says that there is nothing only after a refresh, inside the debounce interval, or when the registry shows no newer root or cannot be used |
| `Freshness.LookupsEnd` | crates/nixcache-worker/src/store.rs:137-438 | a lookup whose awaited operations succeed ends with an answer after at most twenty of its steps, whatever runs in between |
| `Eviction.EvictionFollowsDiff` | crates/nixcache-worker/src/store.rs:477-485 | a refresh drops from memory exactly the shards the two roots describe differently, also where equal Merkle roots skip the comparison, short of a collision |
| `Debounce.RevalidationsAreSpaced` | crates/nixcache-worker/src/state.rs:78-87 | over every run two revalidations of one isolate are at least the debounce interval apart |
| `Proxy.ProxyEventKeeps` | crates/nixcache-proxy/src/index.rs:162-479 | every step of the proxy's lookups, registrations, refreshes, restarts and publications keeps its caches coherent |
| `Proxy.ProxyAnswersAreTruthful` | crates/nixcache-proxy/src/index.rs:182-254 | over every run a baseline hit is the entry its root binds, a hot hit was registered, and a miss hides an entry only where the shard counts as unreachable |
| `ProxyFreshness.ProxyAnswersAreFresh` | crates/nixcache-proxy/src/index.rs:182-479 | over every run a hot answer is what the hot table held when it was read; any other answer is given only when it held nothing, from a root the query obtained itself or that was cached less than a lifetime before; a shard is unreachable only when the registry gave nothing |
| `ProxyFreshness.BaselineIsCached` | crates/nixcache-proxy/src/index.rs:328-479 | a cached root expires a lifetime after the query that cached it, which had it from the registry, or after a failure from the backup, or blank |
| `ProxyFreshness.QueriesEnd` | crates/nixcache-proxy/src/index.rs:182-479 | whatever fails, a query is answered after at most seven of its steps, unless the process restarts |
| `Text.ParseDecimal` | crates/nixcache-core/src/narinfo.rs:115-129 | a rendered number parses back, for every 64-bit value |
| `NarInfo.ParseNarInfo` | crates/nixcache-core/src/narinfo.rs:35-218 | the line loop with its options, vectors and seen fields computes the parse function that the following rows and `NarInfoText.ParseIsExact` pin |
| `NarInfoText.ParseIsExact` | crates/nixcache-core/src/narinfo.rs:35-218 | for any text: it parses to a value if and only if every line is ignored or has a colon, each single key stands on at most one line and the four required ones on one, and every part of the value is what the values of its key say; a compression of `none` counts as none, and the structural check at the end refuses nothing more |
| `NarInfoText.TakenIsSaid` | crates/nixcache-core/src/narinfo.rs:54-197 | the state after any lines is exactly what they say, each field for itself, and the fields seen are those with a value |
| `NarInfoText.KeyValueIs` | crates/nixcache-core/src/narinfo.rs:55-64 | a line gives a key its value exactly when it is not blank or a comment and splits at its first colon into the two, after trimming |
| `NarInfoText.IrrelevantIsRemovable` | crates/nixcache-core/src/narinfo.rs:56-58 | removing a blank line, a comment or a line with an unknown key changes nothing about what a text parses to |
| `NarInfoText.RepetitionIsRefused` | crates/nixcache-core/src/narinfo.rs:66-83 | the first line that repeats a single key ends the parse with the error for that field |
| `NarInfoText.NarUrlIsExact` | crates/nixcache-core/src/narinfo.rs:243-268 | a URL gives a name if and only if it has no control character, blank, backslash or dot component, and the name is a valid one that follows `nar/` or the last slash |
| `NarInfo.RenderNarInfo` | crates/nixcache-core/src/types.rs:692-724 | pushing and joining lines gives the rendering of the fields in order |
| `NarInfoText.RenderingIsOrdered` | crates/nixcache-core/src/types.rs:692-724 | the fields of every rendering stand in the customary order |
| `NarInfoLaws.ParseOfRendering` | crates/nixcache-core/src/narinfo.rs:54-64 | a rendering whose values have no line break is read field by field with trimmed values |
| `NarInfoLaws.ParsedIsTidy` | crates/nixcache-core/src/narinfo.rs:35-218 | whatever the text, a parsed value is valid, has one-line trimmed texts, bare references, positive sizes and no compression `none` |
| `NarInfoLaws.RoundTrip` | crates/nixcache-core/src/types.rs:692-724 | parsing undoes rendering for every tidy value with a trimmed deriver |
| `NarInfoLaws.RoundTripIsExact` | crates/nixcache-core/src/narinfo.rs:35-218 | parsing the rendering of a value gives that value if and only if it is tidy and its deriver has no outer blanks |
| `NarInfoLaws.ParsedRoundTrips` | crates/nixcache-core/src/narinfo.rs:162-179 | a parsed value survives rendering and parsing if and only if its deriver has no outer blanks |
| `NarInfoLaws.BlankedDeriverIsLost` | crates/nixcache-core/src/types.rs:503-519 | a written-out text whose deriver has a blank between the store directory and the hash parses, and the value it parses to does not survive rendering and parsing |
| `Auth.ChallengeParser.Bump` | crates/nixcache-oci/src/auth.rs:316-320 | takes the next character off the text |
| `Auth.ChallengeParser.Token` | crates/nixcache-oci/src/auth.rs:337-350 | takes the longest token |
| `Auth.ChallengeParser.ConsumeUntilComma` | crates/nixcache-oci/src/auth.rs:369-384 | stops at the first comma outside quotes |
| `Auth.ChallengeParser.AuthParams` | crates/nixcache-oci/src/auth.rs:386-427 | reads parameters while a comma is followed by a name with an equals sign |
| `Auth.ChallengeParser.Value` | crates/nixcache-oci/src/auth.rs:429-452 | reads a token or an unescaped quoted string |
| `Auth.ParseWwwAuthenticate` | crates/nixcache-oci/src/auth.rs:252-285 | ends on every text and computes the choice of the Bearer challenge |
| `AuthLaws.Unquotes` | crates/nixcache-oci/src/auth.rs:429-447 | reading a quoted and escaped value gives the value and leaves the rest, for any characters |
| `AuthLaws.ParamsRead` | crates/nixcache-oci/src/auth.rs:386-427 | a printed parameter list reads back as itself |
| `AuthLaws.ReadUndoesPrint` | crates/nixcache-oci/src/auth.rs:252-285 | reading any printed list of challenges makes exactly the choice the list means |
| `AuthLaws.OneBearerIsChosen` | crates/nixcache-oci/src/auth.rs:252-285 | with one Bearer challenge and a valid realm exactly that one is returned, and with none, none |
| `AuthGrammar.ChoiceIsExact` | crates/nixcache-oci/src/auth.rs:252-285 | a printed list is accepted with an answer if and only if every Bearer challenge has a valid realm and means that answer; without one the answer is none |
| `AuthGrammar.SpacedParamReads` | crates/nixcache-oci/src/auth.rs:386-410 | blanks before a parameter and around its equals sign do not matter |
| `AuthGrammar.RepetitionReads` | crates/nixcache-oci/src/auth.rs:400-412 | a parameter that repeats a name is dropped when it repeats the value, and an error otherwise |
| `AuthGrammar.TrailingCommaIsRefused` | crates/nixcache-oci/src/auth.rs:411-427 | a comma after a parameter that no name follows is an error |
| `AuthGrammar.UnterminatedIsRefused` | crates/nixcache-oci/src/auth.rs:429-447 | a quoted string without its closing quote is an error |
| `AuthGrammar.SkipsQuoted` | crates/nixcache-oci/src/auth.rs:369-384 | skipping to the next comma passes over a quoted string with the commas in it |
| `AuthGrammar.SeparatorsDoNotMatter` | crates/nixcache-oci/src/auth.rs:328-335 | any commas and blanks may stand before a challenge |
| `AuthGrammar.CaseIsIgnored` | crates/nixcache-oci/src/auth.rs:287-292 | names and schemes match exactly when they agree up to the case of letters |
| `Auth.ParseHeaders` | crates/nixcache-oci/src/auth.rs:231-249 | the loop over all headers computes the combined choice; a header that is not text is an error |
| `AuthLaws.HeadersAreOneList` | crates/nixcache-oci/src/auth.rs:231-249 | challenges spread over several headers are accepted, and choose the same, as in one list |
| `AuthLaws.FindsByName` | crates/nixcache-oci/src/auth.rs:287-292 | a parameter is found by its name in any case |
| `AuthLaws.PaddedToken68IsRefused` | crates/nixcache-oci/src/auth.rs:352-359 | a token68 whose padding follows a plain token makes the whole header an error |
| `AuthLaws.Token68IsReadExactly` | crates/nixcache-oci/src/auth.rs:352-384 | of the token68 texts exactly those that open with a token not followed by an equals sign are accepted |
| `Auth.EncodeQueryComponent` | crates/nixcache-oci/src/auth.rs:208-220 | computes the percent-encoding of the UTF-8 bytes |
| `AuthLaws.DecodeUndoesEncode` | crates/nixcache-oci/src/auth.rs:208-229 | percent-decoding (section 2.1 of RFC 3986) gives the bytes back |
| `AuthLaws.EncodingIsInjective` | crates/nixcache-oci/src/auth.rs:208-220 | different texts have different encodings |
| `AuthLaws.EncodedIsSafe` | crates/nixcache-oci/src/auth.rs:183-194 | an encoded value has no character that separates query parameters |
| `Streams.OpenVerified` | crates/nixcache-oci/src/transport.rs:213-246 | opens exactly when the digest is canonical, the length header is absent or a 64-bit number, and the declared length is within the limit |
| `Streams.DeclaredLength` | crates/nixcache-oci/src/transport.rs:53-66 | a length header gives its number; one that is not text or no number is an error, never an absent length |
| `Streams.VerifiedBlobStream.PollNext` | crates/nixcache-oci/src/transport.rs:254-301 | one poll of the verifying stream, as a step on its state |
| `Streams.VerifyInvariant` | crates/nixcache-oci/src/transport.rs:254-301 | over every poll sequence the hasher covers exactly what was yielded and the count is its saturated length |
| `Streams.YieldsAreBounded` | crates/nixcache-oci/src/transport.rs:264-278 | no run yields more than the limit, for every limit below the largest 64-bit number |
| `Streams.LargestLimitIsNoLimit` | crates/nixcache-oci/src/transport.rs:266 | with the largest limit three full buffers exceed it |
| `Streams.LimitIsExact` | crates/nixcache-oci/src/transport.rs:264-278 | over all runs of chunks that fit in a buffer the limit bounds what is yielded if and only if it is below the largest 64-bit number |
| `Streams.CleanEndIsChecked` | crates/nixcache-oci/src/integrity.rs:50-87 | a stream that ends without an error has yielded bytes with the expected digest and header digest, and with the declared length as far as the saturating count tells |
| `Streams.CleanEndIsVerified` | crates/nixcache-oci/src/integrity.rs:50-87 | for every run under 2^64 bytes, and for every run under a smaller limit, the declared length is exact too |
| `Streams.NothingAfterTheEnd` | crates/nixcache-oci/src/transport.rs:256-258 | after an error or the end every poll reports the end |
| `Streams.EndsCleanlyIffVerified` | crates/nixcache-oci/src/transport.rs:280-299 | a body within the limit passes through unchanged, and ends cleanly exactly when it is what was asked for |
| `Streams.FirstFaultIsReported` | crates/nixcache-oci/src/transport.rs:254-301 | while only pauses and chunks within the limit came, the next poll passes a pause or chunk on, or reports the transport error, the exceeded limit, or at the end the first of length, header and digest that does not match |
| `Streams.HashingStream.PollNext` | crates/nixcache-oci/src/transport.rs:333-363 | one poll of the hashing stream, as a step on its state |
| `Streams.DigestOnlyAfterEnd` | crates/nixcache-oci/src/transport.rs:333-363 | a digest is exposed only after a clean end and is that of everything yielded |
| `Streams.FirstEndDecides` | crates/nixcache-oci/src/transport.rs:321-363 | the first end, failure or drop among the events decides the terminal state, and after an end the digest is that of the chunks given before; until then every chunk is passed on, and afterwards nothing |
| `Streams.TerminalIffDecided` | crates/nixcache-oci/src/transport.rs:321-363 | there is no terminal state if and only if no such event came |
| `Streams.TerminalIsFinal` | crates/nixcache-oci/src/transport.rs:321-325 | the terminal state never changes and nothing is yielded after it, also when the stream is dropped |
| `Streams.CollectLimited` | crates/nixcache-oci/src/transport.rs:86-113 | the appending loop computes the result the next row is about |
| `Streams.CollectIsExact` | crates/nixcache-oci/src/transport.rs:86-113 | the whole body is returned if and only if no item fails and it is within the limit, at the largest limit for bodies under 2^64 bytes; a broken result has a failing item, and a refused body exceeds the limit |
| `Bloom.BloomFilter.InsertBytes` | crates/nixcache-core/src/bloom.rs:572-600 | sets exactly the probed bits and counts the entry, or changes nothing: when the filter is malformed or the count would overflow |
| `Bloom.BloomFilter.ContainsBytes` | crates/nixcache-core/src/bloom.rs:610-634 | true exactly when entries were counted and all probed bits are set; every key inserted is reported |
| `Bloom.PresentGrows` | crates/nixcache-core/src/bloom.rs:590-596 | later insertions keep every present key present |
| `Bloom.Cell` | crates/nixcache-core/src/bloom.rs:380-387 | every probe falls into the block of its hash and inside the bit map |
| `Bloom.ProbesSpread` | crates/nixcache-core/src/bloom.rs:583-597 | a key's probes fall on as many different cells as there are hashes, all in its block |
| `Bloom.BloomFilter.ToBytes` | crates/nixcache-core/src/bloom.rs:556-562 | packs the bit map eight bits to a byte, lowest first |
| `Bloom.FromBytes` | crates/nixcache-core/src/bloom.rs:461-508 | accepts exactly whole blocks within the limits and restores a well-formed filter |
| `Bloom.RestoreUndoesExport` | crates/nixcache-core/src/bloom.rs:461-562 | restoring an exported filter with its counts gives the same filter |
| `Bloom.ExportUndoesRestore` | crates/nixcache-core/src/bloom.rs:461-562 | exporting a restored filter gives the same bytes |
| `Murmur.Tail` | crates/nixcache-core/src/bloom.rs:40-284 | the fifteen cases, written out: for every length the first word takes the little-endian value of the first eight bytes and the second that of the rest, and a word without bytes stays as it is |
| `Murmur.UnrolledIsLittleEndian` | crates/nixcache-core/src/bloom.rs:44-70 | adding bytes from the last to the first, each moved to its place, is one little-endian fold |
| `Murmur.LittleEndianSpells` | crates/nixcache-core/src/bloom.rs:40-284 | the little-endian value has exactly the bits of its bytes, one after the other |

## Left out

- HTTP transports, token caching and single flight, manifest compare-and-swap, chunked uploads, tag pagination and package deletion: input and output, or code outside these files.
- Publishing across manifests: an architecture's root is replaced in one step; the top-level image index, concurrent publishers and an upload that takes effect although it was reported as failed are not modelled.
- JSON and zstd: a codec that is inverse to itself on valid payloads and never writes an empty blob or reports an empty payload; its parse errors are the `None` of `decode`.
- SHA-256, the RFC 3339 reader, the test whether a realm is an absolute HTTP(S) URL and the 128-bit hash of the Bloom filter: parameters; the laws hold for any such functions. The domain tags are parameters too, and `Merkle.V8` gives the ones in use.
- Strings: a text is its Unicode scalar values, with UTF-8 where bytes matter; lengths are assumed to fit in 64 bits where a law reads an encoding back (`Sized` predicates), as they do in memory.
- Sums of NAR sizes: modelled as wrapping at 2^64, as in release builds; debug builds stop instead.
- Sorting: an insertion sort; only its result is used.
- `evaluate_arch_cache_query`, `evaluate_arch_cache_purge` and `evaluate_gc`: one-architecture wrappers that only build a map of roots.
- Descriptions and summaries of selectors, discovery of architectures, command line, environment, session, exporter and Nix process driving: plumbing.
- `promote.rs` lines 179 to 183, which replace a descriptor list of the wrong length: never reached, as a fetched root was validated and a new one is complete.
- `validate_for` on roots: structure, system, repository and registry are modelled; the size limits checked when a root is fetched appear as a fetch that may fail, and in the readers the validators are parameters, since no law rests on them.
- Worker: the manifest digest that decides whether a refresh is worth while is an answer of the environment; remote status, statistics and the public key are not modelled. The worker and the proxy are modelled as step functions on values, since their tasks interleave.
- Proxy: `find_nar_digest` over all loaded shards and the status counters are approximate by design; writing the backup file is one step.
- GetShard: a readable shard can still come back as unavailable, because the registry may fail at any time.
- `FastBlockedBloomFilter::new`: its floating-point sizing is not modelled; a filter is made from given fields.
- Murmur: the loop over whole blocks and the final mix are not modelled, and the multiplication rounds are parameters of the tail; words are modelled as their bits.
- `limits.rs`, `manifest.rs` and the builder's classification of derivations: only simple checks.
