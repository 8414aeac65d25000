# Chunkster: a verified model

Chunkster is a content-addressed peer-to-peer store. A node cuts a file into chunks of 256 KiB, stores them under their hashes together with a file node that lists them, announces itself as a provider and sends every block to the peers whose IDs are XOR-closest to it. A reader looks up providers among its active peers and fails over between them. A registry of at most 20 peers, a heartbeat sweep and a cleanup pass decide who counts as active. A catalog of all uploads is itself a file of the store, replaced under a lock.

The modules follow the program:

| module | what it models |
|---|---|
| `XorDistance`, `Routing`, `MapOrder` | keys, the XOR metric, k-closest selection of replicas, and when Go's map order shows in it |
| `PeerRegistry`, `RegistryLaws`, `RegistryWitnesses` | the bounded registry, what one Upsert and every run keep, and runs that show the exceptions |
| `FailureDetector`, `Heartbeat`, `Lifecycle`, `Completeness`, `SplitPasses` | sweep, cleanup and heartbeat tick, all runs of one node, what becomes of silent peers and their records, and the runs in which other steps come between the marks of a pass |
| `Providers` | provider records and the concurrent lookup |
| `Content`, `Transfer` | chunks, CIDs, file nodes, fetch with failover, downloads |
| `Host`, `CatalogLine` | the node: upload and download pipelines, gRPC handlers, the catalog without Redis; and the lines of the catalog |
| `Network`, `Availability`, `Interleaving`, `Replication` | runs of many nodes with lost requests and crashes; when downloads succeed, also those with other steps between their turns, and how many crashes an upload outlasts |
| `Refinement` | the steps of the runs are what the methods do |
| `Catalog`, `CatalogLock`, `CatalogLosses`, `CatalogNetwork` | the catalog with Redis: the pointer at any speed, the lock when sections end in time, runs that lose entries, and the catalog on top of the network |
| `Gossip`, `Directory` | learning peers from the bootstrap service, and that service |

State that the program changes in place is a class whose methods have the program's loops and are proved against functions or relations on values; the laws are lemmas about those. Runs are sequences of states related by steps; `Refinement` proves that the methods take these steps. Go's map iteration and the order in which goroutines take a lock are any order; clocks, network answers and lost requests are parameters or arbitrary steps.

Assumptions, stated as preconditions where they are used:

- `Env.Valid`: the block hash prints as 64 hexadecimal digits, and the JSON reader reads back the canonical file node. `CanonicalReaderIsValid` shows that such a reader exists.
- `NoSecondPreimage`: nothing but the block itself hashes to the CID of a block of the file in question. This stands for SHA-256 (FIPS 180-4); it speaks only of the blocks of one file, because no hash is injective on all strings.
- The block store behaves as `docs/ARCHITECTURE.md` says. `internal/storage` is not part of this model.

Where the code differs from what one might expect of it, the model follows the code:

- Address pruning stops after one entry, so addresses stay unique only under a condition (`UpsertKeepsUniqueIff`, `TwoRivalsLeaveAConflict`).
- StoreBlock does not compare the data with the CID it announces (`StoreBlockIsHonestIff`).
- A Left entry under the empty ID, which only a Redis merge can create, blocks evictions (`RefusalIsExact`, `NamelessEntryBlocksEviction`).
- Sweep and cleanup work on a snapshot: they can bring a Left peer back, and can hit a peer that has just been seen (`StaleSweepRevivesIff`, `StaleSweepHitsLivePeersIff`, `StaleCleanupHitsLivePeersIff`). The runs of `Lifecycle` take each pass as one step; those of `SplitPasses` do not, and there Left is undone exactly under the condition of `LeftIsFinalIff`.
- The cleanup takes out provider records only as it marks a peer: a peer announced while it is Left, or that left, was pruned or evicted, stays in the records (`DetectorIsComplete`, `RecordOutlivesPeer`, `RecordOfLeftPeerStays`, `RecordOfGonePeerStays`).
- Two IDs that differ in letter case are two peers with one key, and the map order decides between them (`OrderFreeIff`, `TwoSpellings`).
- A record is stamped before the registry is locked, so an Upsert can move a sighting back (`SightingsAdvanceIff`, `SightingGoesBack`).
- A catalog that cannot be fetched is replaced by a new one, and the Redis lock can expire under its holder (`CatalogIsAllPublishedIff`, `ExpiryLosesAnUpdate`, `FailedFetchLosesAnEntry`). Its Del is unconditional (`SlowReleaseFreesOthersLock`, `LateDelFreesTheLock`).
- A catalog line is not escaped, so a type that holds a bar makes it ambiguous (`FieldsAreReadBackIff`, `BarsInTypeConfuse`).
- An empty chunk list is encoded as `null`, because copying it leaves a nil slice.
- The bootstrap service treats two empty HTTP addresses as equal (`EmptyHttpOverwrites`).
- The sweep uses 9 s and the heartbeat 3 s, not the values in the documentation.

## Model

| member | source | states |
|---|---|---|
| `XorDistance.KeyIsItsDigits` | internal/dht/xor_distance.go:12-17 | A string decodes to a key exactly when it is 64 characters of 0-9, a-f and A-F, and then printing the 32 bytes in lower-case hexadecimal gives the string back, in lower case. |
| `XorDistance.PrintedKeyIsRead` | internal/dht/xor_distance.go:12-17 | Round trip: any 32 bytes, printed in lower-case or in upper-case hexadecimal, decode to themselves. |
| `XorDistance.SameKeyIff` | internal/dht/xor_distance.go:12-17 | Two strings decode to the same key exactly when they differ only in letter case. |
| `XorDistance.XorBytes` | internal/dht/xor_distance.go:20-29 | The loop fills a fresh array with the XOR of the two inputs, byte by byte. |
| `XorDistance.XorIsBitwise` | internal/dht/xor_distance.go:20-29 | Each of the 8 bits of each byte of the result is set exactly where the two inputs differ. |
| `XorDistance.IntegerOrderIsLexicographic` | internal/dht/xor_distance.go:31-35 | Comparing the big-endian integers of two equally long byte strings is comparing the strings at the first byte where they differ. |
| `XorDistance.DistanceIdentity` | internal/dht/xor_distance.go:31-35 | Distance is zero exactly between equal keys. |
| `XorDistance.DistanceSymmetry` | internal/dht/xor_distance.go:31-35 | Distance does not depend on the order of the two keys. |
| `XorDistance.TriangleInequality` | internal/dht/xor_distance.go:31-35 | No detour is shorter than the direct distance. |
| `XorDistance.DistanceDeterminesPoint` | internal/dht/xor_distance.go:31-35 | Two keys at the same distance from a third are the same key. |
| `XorDistance.UniquePointAtDistance` | internal/dht/xor_distance.go:31-35 | Every distance that fits the key width is attained by exactly one key. |
| `XorDistance.CloserIsTotalOrder` | internal/dht/xor_distance.go:37-42 | Closer is the lexicographic order of the XOR bytes, and of two distinct keys exactly one is closer to the target. |
| `Routing.RoutingTable.ClosestPeerIDs` | internal/dht/routing_table.go:20-46 | The loop, the sort with the comparator and the truncation give a selection for some order in which the registry was iterated; each ID returned is in the registry, is a key, is not the excluded one, and its state is among the allowed ones. No comparison panics unless two candidates are compared with a target that has not the length of a key. |
| `Routing.RoutingTable.SelectReplicaPeerIDs` | internal/replication/replica_selection.go:9-16 | A malformed CID is an error. Otherwise every comparison is of keys of one length, so nothing panics, and the result is min(k, n) distinct IDs out of the n entries that are Active, not self, and named by 64 hexadecimal digits, and no such entry left out is closer to the block. |
| `Routing.SelectionIsReplicaChoice` | internal/replication/replica_selection.go:9-16 | So is every selection, in whatever order the map was iterated. |
| `Routing.SortIsByRank` | internal/dht/routing_table.go:37-41 | Sorting with the comparator, which needs keys of one length, is sorting by distance. |
| `Routing.StableSortIsStable` | internal/dht/routing_table.go:37-41 | Candidates of equal distance keep their snapshot order. |
| `Routing.ClosestIsFull` | internal/dht/routing_table.go:20-46 | The result has no duplicates, only eligible peers, nearest first, and min(k, eligible) of them (none for k not positive). |
| `Routing.ClosestIsNearest` | internal/dht/routing_table.go:37-44 | No eligible peer left out is closer to the target than one returned. |
| `Routing.SelectionIgnoresMapOrder` | internal/dht/routing_table.go:25-44 | With pairwise distinct keys the result is the same for every iteration order of the registry map. |
| `MapOrder.OrderFreeIff` | internal/dht/routing_table.go:25-44 | The result is the same for every iteration order of the registry map if and only if no two eligible IDs are spellings of one key with fewer than k eligible peers strictly closer. |
| `MapOrder.TwoSpellings` | internal/dht/routing_table.go:25-44 | For any target there is a registry with two spellings of one key in which the map order decides which of them is selected. |
| `Routing.SmallerSelectionIsPrefix` | internal/dht/routing_table.go:42-45 | The result for k is a prefix of the result for any larger k. |
| `Routing.AddingAPeer` | internal/dht/routing_table.go:20-46 | A new eligible peer leaves the selection alone or enters it at its place and pushes out at most the farthest, and it enters exactly when there was room or it beats the farthest. |
| `Routing.RemovingAnUnselectedPeer` | internal/dht/routing_table.go:20-46 | Removing a peer that was not selected changes nothing. |
| `PeerRegistry.Registry.constructor` | internal/peer/peer_registry.go:33-49 | A new registry is empty and within its bound. |
| `PeerRegistry.Registry.Upsert` | internal/peer/peer_registry.go:57-104 | In every map order one call is a step of the Upsert relation: at most one address conflict pruned, update in place, or eviction of a Left entry, or refusal. An accepted record is in the registry with its stamp, its two addresses and its state, if it has one. |
| `PeerRegistry.Registry.PruneAddress` | internal/peer/peer_registry.go:64-76 | The scan takes out the first entry met that shares an address under another ID and stops; nothing if there is none. |
| `PeerRegistry.Registry.MakeRoom` | internal/peer/peer_registry.go:85-98 | A full registry gives up one Left entry, or refuses. |
| `PeerRegistry.Registry.FindLeft` | internal/peer/peer_registry.go:86-92 | Finds a Left entry if there is one; an entry under the empty ID reads as none found. |
| `PeerRegistry.Registry.MarkState` | internal/peer/peer_registry.go:113-123 | Changes the state of that entry and nothing else. |
| `PeerRegistry.Registry.Touch` | internal/peer/peer_registry.go:125-135 | Refreshes the sighting; Inactive becomes Active, Left stays Left. |
| `PeerRegistry.Registry.Remove` | internal/peer/peer_registry.go:137-144 | Takes out that entry and nothing else. |
| `PeerRegistry.Registry.Snapshot` | internal/peer/peer_registry.go:146-155 | Lists every record exactly once, in some order. |
| `PeerRegistry.Registry.MergeRemote` | internal/peer/peer_registry.go:198-210 | A newer Redis record overwrites, an older one is ignored, a new peer needs a free slot. |
| `RegistryLaws.UpsertContract` | internal/peer/peer_registry.go:57-104 | One Upsert keeps the bound and the keys. Accepted, it writes the addresses, the stamp and the state of the record (an empty state keeps the old one), and the joining time is kept for a known peer and set for a new one; it takes out at most one other entry, which shared a gRPC or a non-empty HTTP address or was Left. Refused, it changes nothing. |
| `RegistryLaws.NewcomerEntersIff` | internal/peer/peer_registry.go:64-98 | A new peer that shares no address with anyone is accepted exactly when fewer than 20 peers are there or one of them is Left. |
| `RegistryLaws.KnownPeerIsAccepted` | internal/peer/peer_registry.go:77-84 | A known peer is always accepted. |
| `RegistryLaws.RefusalIsExact` | internal/peer/peer_registry.go:57-104 | A call is refused exactly when the ID is empty, or the peer is new, the map full, no address conflicts and nobody is Left, if and only if no Left entry sits under the empty ID of a full registry. |
| `RegistryLaws.MergeContract` | internal/peer/peer_registry.go:198-210 | A Redis merge keeps the bound, every peer and every other record and never moves a sighting back; a known peer gets all but its joining time from the newer record, a new one enters as it is exactly when there is room. |
| `RegistryLaws.MergeOrderDoesNotMatter` | internal/peer/peer_registry.go:198-210 | Records of known peers may be merged in any order, and more than once, unless two different ones of one peer carry the same stamp. |
| `RegistryLaws.MergedAllIsNewest` | internal/peer/peer_registry.go:198-210 | After any list of merges the entry of a known peer is the newest of its records, or what it was when none is newer. |
| `RegistryLaws.RegistryStaysBounded` | internal/peer/peer_registry.go:57-214 | In every run of all operations, Redis merges included, at most 20 peers, each under its own ID. |
| `RegistryLaws.UpsertKeepsUniqueIff` | internal/peer/peer_registry.go:64-82 | A successful Upsert into a conflict-free registry leaves it conflict-free exactly when at most one entry shared an address with the new record. |
| `RegistryLaws.AtMostOneConflictRemains` | internal/peer/peer_registry.go:64-82 | Whatever the addresses, it leaves at most one conflicting pair, and the new record is in it. |
| `RegistryLaws.UpsertKeepsUnique` | internal/peer/peer_registry.go:64-82 | When equal non-empty HTTP addresses come with equal gRPC addresses, uniqueness is kept. |
| `RegistryWitnesses.NamelessEntryBlocksEviction` | internal/peer/peer_registry.go:85-98 | A run from the empty registry that ends full, with a Left entry under the empty ID, and refuses a newcomer. |
| `RegistryWitnesses.NamedWithoutMerges` | internal/peer/peer_registry.go:57-144 | Without Redis merges no entry ever lies under the empty ID. |
| `RegistryWitnesses.RefusalIsExactWithoutMerges` | internal/peer/peer_registry.go:57-104 | Without Redis merges a call is refused exactly as the network-full rule says. |
| `RegistryWitnesses.TwoRivalsLeaveAConflict` | internal/peer/peer_registry.go:64-76 | A record with the gRPC address of one peer and the HTTP address of another leaves two entries that share an address. |
| `FailureDetector.Manager.Sweep` | internal/peer/peer_manager.go:23-38 | Marks Inactive exactly the other peers that are not Left and were last seen more than 9 s ago. |
| `FailureDetector.Manager.MarkSilent` | internal/peer/peer_manager.go:27-37 | The marking loop does what its snapshot says, however far the registry has moved on. |
| `FailureDetector.Manager.Leave` | internal/peer/peer_manager.go:40-46 | The peer is gone from the registry, and nobody else. |
| `FailureDetector.CleanupPass` | internal/scheduler/cleanup.go:27-36 | Marks Left exactly the Inactive peers last seen more than 60 s ago and purges exactly their provider records. |
| `FailureDetector.SweepInFields` | internal/peer/peer_manager.go:23-38 | Entry by entry: a sweep makes Inactive exactly what is not self, not Left and was last seen more than 9 000 000 000 ns ago, and changes no other field. |
| `FailureDetector.CleanupInFields` | internal/scheduler/cleanup.go:18-36 | Entry by entry and record by record: a cleanup makes Left exactly what is not self, Inactive and was last seen more than 60 000 000 000 ns ago, and takes out exactly the records of those peers. |
| `FailureDetector.ExpireStale` | internal/scheduler/cleanup.go:27-36 | The marking and purging loop does what its snapshot says, however far the registry has moved on. |
| `FailureDetector.StaleSweepRevivesIff` | internal/peer/peer_manager.go:23-38 | A sweep on an out-of-date snapshot makes a Left peer Inactive again exactly when the snapshot still shows it silent and not Left. |
| `FailureDetector.CleanupDuringSweepIsUndone` | internal/peer/peer_manager.go:23-38 | Every cleanup between the snapshot of a sweep and its marking is undone. |
| `FailureDetector.StaleSweepHitsLivePeersIff` | internal/peer/peer_manager.go:23-38 | A sweep on an out-of-date snapshot makes a peer Inactive that is Active and just seen exactly when the snapshot shows such a peer as silent. |
| `FailureDetector.StaleCleanupHitsLivePeersIff` | internal/scheduler/cleanup.go:27-36 | A cleanup on an out-of-date snapshot makes such a peer Left exactly when the snapshot shows one as stale. |
| `FailureDetector.TouchDuringSweepIsLost` | internal/peer/peer_manager.go:23-38 | A ping between the snapshot of a sweep and its marking does not keep the peer Active. |
| `FailureDetector.TouchDuringCleanupIsLost` | internal/scheduler/cleanup.go:27-36 | A ping between the snapshot of a cleanup and its marking saves neither the peer nor its records. |
| `Heartbeat.Tick` | internal/coordinator/node.go:345-368 | One tick: self refreshed, sweep, then exactly the Active peers with an address are pinged, and those that answer refreshed. |
| `Heartbeat.PingAll` | internal/coordinator/node.go:348-367 | The ping loop refreshes exactly the peers reached. |
| `Heartbeat.TickOutcome` | internal/coordinator/node.go:345-368 | A tick keeps a peer Active exactly when it was Active and seen within 9 s, counts only answered pings as sightings, and never changes who is Left. |
| `Lifecycle.RunKeepsInv` | internal/peer/peer_registry.go:57-144 | In every run of handlers, sweeps and cleanups the bound and the keys hold, no sighting is in the future, and self is never Inactive or Left. |
| `Lifecycle.StepLifecycle` | internal/peer/peer_registry.go:57-144 | Only a cleanup makes a peer Left, from Inactive and more than 60 s after its last sighting; only a sweep makes it Inactive, more than 9 s after it; only an Upsert stamped before the latest sighting moves a sighting back. |
| `Lifecycle.SightingsAdvanceIff` | internal/peer/peer_registry.go:77-82 | Over a run the sighting of a peer that stays never goes back if and only if no Upsert of it carries an older stamp than its entry has by then. |
| `Lifecycle.LeftPersists` | internal/peer/peer_registry.go:77-82 | A Left peer stays Left until it is upserted or removed. |
| `Lifecycle.LastSeenNeverDecreases` | internal/peer/peer_registry.go:57-144 | Then the last sighting at the end of the run is no older than at its start. |
| `Lifecycle.SightingGoesBack` | internal/coordinator/grpc_service.go:74-81 | A run in which a ping arrives between the stamp of a join and the lock, and the join moves the sighting back. |
| `Lifecycle.LeftOnlyAfterSilence` | internal/scheduler/cleanup.go:27-36 | A peer that went from Active to Left was marked Inactive by a sweep after 9 s and then Left by a cleanup after 60 s, and is not self. |
| `Lifecycle.DetectorIsAccurate` | internal/peer/peer_manager.go:23-38 | A peer seen within 9 s of every sweep is never marked Inactive or Left. |
| `Lifecycle.SightingIsLastHeard` | internal/peer/peer_registry.go:77-84 | In a run the sighting of a peer is the stamp of the last accepted Upsert of it, or the time of the last Touch, whichever came last. |
| `Lifecycle.HeardPeerStaysActive` | internal/peer/peer_manager.go:23-38 | A peer that joins, or is Active, stays Active over a run in which each sweep comes no more than 9 s after the last join or ping of that peer. |
| `Completeness.DetectorIsComplete` | internal/scheduler/cleanup.go:27-36 | A peer that is not heard from is Left after a sweep past 9 s and a cleanup past 60 s, whoever announces it meanwhile; then it is in no provider record if and only if it was in none if it had been Left before, and nobody named it as a provider while it was Left. |
| `Completeness.RecordStep` | internal/dht/provider_records.go:20-64 | A record goes only in the cleanup that makes its peer Left, and comes only by an announcement. |
| `Completeness.RecordOutlivesPeer` | internal/scheduler/cleanup.go:32-35 | The records of a peer that is not in the registry, because it left, was pruned or evicted, and those of a peer that is Left already, are never taken out. |
| `Completeness.RecordOfLeftPeerStays` | internal/coordinator/grpc_service.go:112-119 | A run in which a peer is made Left without records, is then named as a provider, and stays one through the next cleanup. |
| `Completeness.RecordOfGonePeerStays` | internal/coordinator/grpc_service.go:95-102 | A run in which a peer leaves by LeaveNetwork and stays a provider through the next cleanup. |
| `Lifecycle.LeftMakesRoom` | internal/peer/peer_registry.go:83-98 | With a Left entry a new peer is accepted even at capacity. |
| `Lifecycle.AddressesStayUnique` | internal/peer/peer_registry.go:64-82 | In every run with coherent addresses no two entries ever share an address. |
| `SplitPasses.RunKeepsInv` | internal/peer/peer_manager.go:23-38 | When the passes are split into their copy of the registry and their single marks, with any other steps between: the bound and the keys hold, and self is never Inactive or Left. |
| `SplitPasses.StepLifecycle` | internal/peer/peer_manager.go:27-36 | Then a peer ceases to be Left exactly in an Upsert of it or a mark of a sweep, becomes Left exactly in a mark of a cleanup, and Inactive exactly in a mark of a sweep. |
| `SplitPasses.LeftIsFinalIff` | internal/peer/peer_manager.go:23-38 | Without an Upsert a Left peer stays Left if and only if the sweep under way by then, if any, was not still going to mark it; sweeps that begin later never undo it. |
| `SplitPasses.SplitDetectorIsAccurate` | internal/peer/peer_manager.go:23-38 | A peer that each sweep copies as seen within 9 s, and that no pass under way was going to mark, stays Active. |
| `SplitPasses.SplitDetectorIsComplete` | internal/scheduler/cleanup.go:27-36 | A peer that is not heard from is Left at some moment after a sweep has copied it past 9 s and is over, and then a cleanup past 60 s, and is never Active again. |
| `SplitPasses.SplitRecordStep` | internal/scheduler/cleanup.go:32-35 | A record goes only when the cleanup, having marked the peer, takes out its records. |
| `SplitPasses.UndisturbedSweep` | internal/peer/peer_manager.go:23-38 | A sweep that begins on time and that nothing disturbs is the one step of the runs above. |
| `SplitPasses.UndisturbedCleanup` | internal/scheduler/cleanup.go:27-36 | So is such a cleanup. |
| `SplitPasses.LeftUndoneInRun` | internal/peer/peer_manager.go:23-38 | A run in which a cleanup makes a peer Left while a sweep is under way, and the sweep undoes it. |
| `Providers.ProviderRecords.Add` | internal/dht/provider_records.go:20-30 | Records the endpoint under its peer ID, replacing an older one; a nameless endpoint is ignored. |
| `Providers.ProviderRecords.Get` | internal/dht/provider_records.go:32-44 | Lists the endpoints recorded for a block, each once, in some order. |
| `Providers.ProviderRecords.RemovePeer` | internal/dht/provider_records.go:52-64 | Takes that peer out of every block and drops blocks left without providers. |
| `Providers.AnnouncedAt` | internal/dht/provider_records.go:20-30 | An announcement records that endpoint for that peer and block, in place of an older one, and changes no other record. |
| `Providers.RemovedAt` | internal/dht/provider_records.go:52-64 | A removal takes out the records of that peer, and changes no other record. |
| `Providers.LookupProviders` | internal/dht/lookup.go:15-71 | Whatever order the goroutines take the lock in, the result is a lookup: local records, then the merged answers. A peer is named in it exactly when it is recorded locally or named in the answer of a peer that is Active and has an address other than the caller's own. |
| `Providers.Gather` | internal/dht/lookup.go:34-69 | Every successful answer is merged exactly once, in some order. |
| `Providers.Asked` | internal/dht/lookup.go:34-40 | Asks exactly the Active peers with an address other than the caller's own. |
| `Providers.DedupIsComplete` | internal/dht/lookup.go:25-33 | The merge returns each named peer once and loses none. |
| `Providers.DedupKeepsFirst` | internal/dht/lookup.go:25-33 | The endpoint kept for a peer is the first that arrived. |
| `Providers.LookupConfluence` | internal/dht/lookup.go:15-71 | In every arrival order each peer is returned once, and the peers returned are the local ones and those named in the answers of Active peers with a non-empty foreign address. |
| `Providers.LocalRecordsWin` | internal/dht/lookup.go:23-33 | The local records come first, so they win. |
| `Content.Split` | docs/ARCHITECTURE.md:147-150 | Pieces are never empty and never longer than the chunk size. |
| `Content.SplitLossless` | docs/ARCHITECTURE.md:325-329 | Joining the pieces gives the file back. |
| `Content.SplitFull` | docs/ARCHITECTURE.md:325-329 | Every piece but the last has exactly the chunk size. |
| `Content.ChunksOfFile` | docs/ARCHITECTURE.md:147-150 | The chunks of a file are 262144 bytes each, but the last, which is not empty and no longer, and together they are the file. |
| `Content.HashesInjective` | internal/coordinator/node.go:161-174 | Two block lists with the same CIDs are the same list, if nothing else hashes to the blocks of one of them. |
| `Content.RootCommitment` | internal/coordinator/node.go:161-174 | Two files have the same root CID exactly when they are equal, under the same assumption. |
| `Content.FileNodeText` | internal/merkle/dag_traversal.go:10-20 | The text of a file node: the keys chunks and type in this order, no spaces, the CIDs quoted and between commas, and null in place of an empty list. |
| `Content.FileNodeRoundTrip` | internal/merkle/dag_traversal.go:10-20 | Decoding the canonical JSON of a file node returns its chunk list, the empty one included. |
| `Content.CanonicalReaderIsValid` | internal/merkle/file_node.go:12-20 | The assumption about the JSON reader can be met: a reader of the canonical layout meets it. |
| `Transfer.FetchBlock` | internal/replication/recovery.go:14-52 | The failover loop computes the fetch function over its providers. |
| `Transfer.FetchIsExact` | internal/replication/recovery.go:14-52 | A fetch succeeds if and only if some provider serves the block; it returns the answer of the first that does, and blames missing providers only when none has an address. |
| `Transfer.FailureIsTheLast` | internal/replication/recovery.go:15-50 | A fetch that fails after asking somebody reports what the answer of the last provider with an address lacked: no answer, no data, or a wrong hash. |
| `Transfer.GetFileWritesListed` | internal/coordinator/node.go:234-280 | For any root and any answers, under no assumption on the hash: nothing is written and an error reported, or the bytes are blocks whose hashes are the first CIDs that a block with the root as hash lists, all of them exactly when no error is reported. |
| `Transfer.GetFileIsFixedByRoot` | internal/coordinator/node.go:234-280 | For any root block, however made and wherever it comes from: the bytes are a prefix of the blocks it lists put together, all of it when no error is reported. |
| `Transfer.GetFileIntegrity` | internal/coordinator/node.go:234-280 | In particular for what AddFile made: a prefix of the file, all of it when no error is reported, and the store only gains honest blocks. |
| `Transfer.GetFileSucceedsIff` | internal/coordinator/node.go:234-280 | For any root block, a download succeeds exactly when the block is obtained and is a file node, and every CID it lists is local, repeated or served. |
| `Transfer.FailureIsFinal` | internal/coordinator/node.go:254-278 | The first chunk that cannot be resolved ends the download. |
| `Transfer.HeldFileReads` | internal/coordinator/node.go:234-280 | A file held locally is read back exactly and without asking anyone. |
| `Transfer.AddThenGet` | internal/coordinator/node.go:160-280 | Round trip: what AddFile stores, GetFile returns, whoever else is on the network. |
| `Host.PeerHost.constructor` | internal/coordinator/node.go:73-104 | A new node knows only itself, as Active, and replicates three times unless told otherwise. |
| `Host.PeerHost.PutFile` | docs/ARCHITECTURE.md:147-150 | The chunker stores every piece under its hash and returns the CIDs in order. |
| `Host.PeerHost.StoreFile` | internal/coordinator/node.go:161-177 | Stores the chunks and the root block; every CID returned is valid and held. |
| `Host.PeerHost.Announce` | internal/coordinator/node.go:178-182 | Announces the node itself for the root and every chunk. |
| `Host.LastError` | internal/replication/replication_manager.go:41-50 | There is no error exactly when every call succeeded; otherwise it is that of the last call that failed. |
| `Host.PeerHost.ReplicateToAddrs` | internal/replication/replication_manager.go:41-50 | One request to each address, whatever fails before it, and the last error. |
| `Host.PeerHost.Replicate` | internal/coordinator/node.go:192-208 | One request per selected peer with an address, all with the same block. |
| `Host.PeerHost.ReplicateAll` | internal/coordinator/node.go:186-209 | The requests sent are those of some selection of the closest active peers for each block. |
| `Host.PeerHost.AddFile` | internal/coordinator/node.go:160-211 | Returns the root CID of the file; all its blocks are stored, recorded under the node's own ID and two addresses, and sent out; no other record changes and no earlier block is lost. |
| `Host.PeerHost.Lookup` | internal/coordinator/node.go:237-237 | A lookup over some snapshot of the registry. |
| `Host.PeerHost.ResolveBlock` | internal/coordinator/node.go:254-274 | The local copy, or a fetched one that is then cached; the store stays honest. |
| `Host.PeerHost.CopyChunks` | internal/coordinator/node.go:254-278 | The chunk loop writes what the copy function says and stops at the first failure. |
| `Host.PeerHost.GetFile` | internal/coordinator/node.go:234-280 | The method is a GetFile outcome for some snapshots and arrival orders. |
| `Host.PeerHost.StoreBlock` | internal/coordinator/grpc_service.go:32-46 | Refuses an empty or malformed CID; otherwise files the data under its own hash but announces the CID of the request. |
| `Host.PeerHost.FindProvider` | internal/coordinator/grpc_service.go:61-67 | Answers with the local records of the block. |
| `Host.PeerHost.AddProvider` | internal/coordinator/grpc_service.go:112-119 | Records whatever endpoint the caller names. |
| `Host.PeerHost.Ping` | internal/coordinator/grpc_service.go:24-30 | Touches the caller and nobody else. |
| `Host.PeerHost.LeaveNetwork` | internal/coordinator/grpc_service.go:95-102 | Removes the named peer; an empty ID is refused. |
| `Host.PeerHost.JoinNetwork` | internal/coordinator/grpc_service.go:69-93 | One Upsert. If accepted, the caller's entry is Active with the caller's two addresses and the stamp of the call, and the answer lists every peer of the registry once with its addresses; if refused, nothing changes and nobody is listed. |
| `Host.PeerHost.UpdateLocalCatalog` | internal/coordinator/node.go:391-473 | Without Redis, a successful update appends its entry and a failed one leaves pointer and entries alone; the pointer is always the root of all entries one after the other. |
| `Host.PeerHost.ReadCatalog` | internal/coordinator/node.go:417-436 | The local catalog is always read back in full. |
| `Host.PeerHost.PublishCatalog` | internal/coordinator/node.go:455-469 | Uploads the grown catalog and moves the pointer to it. |
| `CatalogLine.FieldsAreReadBackIff` | internal/coordinator/node.go:439-439 | Name, CID, size and type of a catalog line are read back, whatever the name, if and only if neither CID nor type holds a bar. |
| `CatalogLine.SignedReads` | internal/coordinator/node.go:439-439 | The digits printed for a size denote it, negative ones too, and do not start with a zero. |
| `CatalogLine.BarsInTypeConfuse` | internal/coordinator/node.go:439-439 | A type with bars in it makes two different entries the same line. |
| `Network.StoreBlockIsHonestIff` | internal/coordinator/grpc_service.go:32-46 | A StoreBlock request leaves a node honest exactly when the CID is refused, when the data hashes to it, or when the node already had that block. |
| `Network.AddProviderIsHonestIff` | internal/coordinator/grpc_service.go:112-119 | AddProvider leaves a node honest exactly when it names nobody, or the node itself for a block that it holds. |
| `Network.UploadIsHonest` | internal/coordinator/node.go:160-211 | After an upload the node is honest and announces every block of the file. |
| `Network.UploadSendsHonestly` | internal/coordinator/node.go:186-209 | Every replication request carries the block it names. |
| `Network.CleanupKeepsRecords` | internal/scheduler/cleanup.go:27-36 | A cleanup never takes out a record of an honest node. |
| `Network.RunIsHonest` | internal/coordinator/grpc_service.go:32-46 | In every run of uploads, deliveries, losses, crashes, downloads, registry changes and cleanups, each provider record is the node's own endpoint for a block it holds, and each request in flight carries the block it names. |
| `Network.RunKeepsAll` | internal/coordinator/node.go:178-206 | Nothing stored or announced is ever lost. |
| `Network.GainedStaysAnnounced` | internal/coordinator/node.go:178-206 | Every uploaded or accepted block stays announced and held. |
| `Availability.ProviderOrigin` | internal/dht/lookup.go:15-71 | Every provider found was recorded locally or named by a peer that was asked. |
| `Availability.AnswerIsUsed` | internal/dht/lookup.go:35-70 | Every peer named in a successful answer is found. |
| `Availability.HolderReplies` | internal/coordinator/grpc_service.go:48-59 | What a running node that announces a block answers to GetBlock is that block. |
| `Availability.HolderServes` | internal/replication/recovery.go:16-51 | A block that a listed node announces and serves is obtained. |
| `Availability.DownloadSucceedsIff` | internal/coordinator/node.go:234-280 | Among honest nodes that respond, a download succeeds if and only if every block is local or announced by a running node whose address the reader lists as active. |
| `Availability.OfferedFileIsRead` | internal/coordinator/node.go:234-280 | When every block is local or offered, exactly the file is written, even if any other call fails. |
| `Availability.ReadFileWasReachable` | internal/coordinator/node.go:234-280 | A download that succeeds found every block locally or at a listed node that announces it. |
| `Availability.SomeNetworkIsPerfect` | internal/coordinator/grpc_service.go:48-67 | The assumptions on answers can always be met: in every honest world there is a network in which no call to a running node fails. |
| `Availability.FaultTolerance` | internal/coordinator/node.go:160-280 | In every run, after any losses and crashes, a download writes exactly the file when each block is local or has a surviving, listed and responding holder that uploaded or accepted it. |
| `Availability.UploaderSuffices` | internal/coordinator/node.go:160-280 | The uploader alone is enough, while it runs, is listed and responds: whatever became of the replicas, and if every other call fails. |
| `Interleaving.ReadingIsIntact` | internal/coordinator/node.go:234-280 | When any steps happen between the turns of a download, at the reader and elsewhere, what is written is a prefix of the file, all of it when no error is reported. |
| `Interleaving.ReadingSucceedsIff` | internal/coordinator/node.go:234-280 | Such a download, once it has returned, reports no error if and only if each block was, when its own turn came, at hand or announced by a running node that the reader listed by then. |
| `Interleaving.ReadingToleratesFaults` | internal/coordinator/node.go:160-280 | It writes exactly the file when each turn finds its block at hand or one surviving, listed and responding holder of it, whatever crashes, uploads, registry changes and cleanups come between. |
| `Replication.ReplicationDegree` | internal/coordinator/node.go:186-209 | Once all requests of an upload are delivered, every block is held and announced for good by the uploader and by min(replication factor, eligible peers) further nodes. |
| `Replication.ToleratesCrashes` | internal/coordinator/node.go:160-280 | Then that many nodes may crash, any of them, and every running node that lists the others as active still downloads exactly the file. |
| `Replication.RequestsGoToReplicas` | internal/coordinator/node.go:186-209 | The requests of an upload are, for each block, one to each of the min(factor, n) closest Active others that has an address, with that block, and no others. |
| `Refinement.Perform` | internal/coordinator/node.go:338-374 | Every step of a run of one node is performed by the methods of its registry, manager and records. |
| `Refinement.Start` | internal/coordinator/node.go:73-104 | A node that has just started is a state from which both kinds of run may start. |
| `Refinement.Upload` | internal/coordinator/node.go:160-211 | AddFile is the upload step of the network. |
| `Refinement.Deliver` | internal/coordinator/grpc_service.go:32-46 | The StoreBlock handler is the delivery step. |
| `Refinement.Download` | internal/coordinator/node.go:234-280 | GetFile is the download step. |
| `Refinement.ReadBlock` | internal/coordinator/node.go:254-274 | Resolving one block is one turn of a download. |
| `Refinement.Cleanup` | internal/scheduler/cleanup.go:27-36 | The cleanup pass is the cleanup step. |
| `Refinement.Join` | internal/coordinator/grpc_service.go:69-93 | A join is a registry change that the runs of the network allow. |
| `Refinement.JoinOne` | internal/coordinator/grpc_service.go:69-93 | And it is the Upsert, as Active with the caller's addresses and stamp, of the runs of one node. |
| `Refinement.AnswerGetBlock` | internal/coordinator/grpc_service.go:48-59 | What the GetBlock handler answers is a genuine reply in the sense of the availability results. |
| `Refinement.AnswerFindProvider` | internal/coordinator/grpc_service.go:61-67 | So is what the FindProvider handler answers. |
| `Catalog.FetchIsExact` | internal/coordinator/node.go:427-436 | A successful download of the catalog is exact, whatever providers answer; a failed one starts a new catalog. |
| `Catalog.PointerIsRootOfLog` | internal/coordinator/node.go:391-473 | In every run, however slow, the pointer is the root of the entries that the last caller built on, with its own. |
| `Catalog.CatalogIsAllPublishedIff` | internal/coordinator/node.go:391-473 | In every run, at any speed and whatever calls fail, the pointer is the root of all published entries in the order of publication if and only if no caller moved a pointer that had been moved since it read it, or started over on a catalog that had entries. |
| `CatalogLock.RunIsExclusive` | internal/coordinator/node.go:395-415 | When every section ends before its lock expires and no Del takes effect late, at most one caller is inside, even if callers die inside, their Del fails, or SetNX takes effect unseen. |
| `CatalogLock.CatalogIsCompleteIff` | internal/coordinator/node.go:391-473 | The catalog with the entry under way is then the list of all entries in lock order, each once, if and only if no section gave up or died, failed to move the pointer or started over on a catalog that had entries. |
| `CatalogLock.CatalogIsConcatenation` | internal/coordinator/node.go:391-473 | Between the sections of such a run the pointer is the root of the concatenation of all entries. |
| `CatalogLock.SecondCallerEntersIff` | internal/coordinator/node.go:398-410 | A second caller can get in beside the first exactly when the first has been inside for 10 s or more. |
| `CatalogLock.SlowReleaseFreesOthersLock` | internal/coordinator/node.go:410-410 | The unconditional delete of a slow caller lets a third caller in beside the one inside. |
| `CatalogLock.LateDelFreesTheLock` | internal/coordinator/node.go:410-410 | A Del that takes effect after its caller has returned lets another caller in beside the one inside, however quick everyone is. |
| `CatalogLosses.ExpiryLosesAnUpdate` | internal/coordinator/node.go:391-473 | A run in which every call and every download succeeds and nobody gives up, but a section outlives its lock, and one of two published entries is lost. |
| `CatalogLosses.FailedFetchLosesAnEntry` | internal/coordinator/node.go:427-436 | A run in which every section ends in time and everything succeeds but one download, which is named, and one of two published entries is lost. |
| `CatalogNetwork.SoughtWasUploaded` | internal/coordinator/node.go:417-453 | In every run, at any speed, the catalog that a caller goes to download was uploaded by some caller before. |
| `CatalogNetwork.SupportedFetchSucceeds` | internal/coordinator/node.go:427-436 | If a node that uploaded it is the reader, or runs, is listed by it and responds, the download succeeds and the caller goes on with exactly the catalog whose pointer it has read, whatever other calls fail. |
| `CatalogNetwork.NothingIsLostIff` | internal/coordinator/node.go:391-473 | In a timely run in which every download is so supported and every read of the pointer succeeds, the catalog with the entry under way is the list of all entries in lock order if and only if no call gave up, died or failed to move the pointer. |
| `Gossip.MergeBootstrapPeers` | internal/coordinator/bootstrap_sync.go:57-121 | Without a bootstrap service nothing happens; a list that cannot be read is an error and changes nothing; otherwise the registry goes through one turn per entry. |
| `Gossip.MergeOffer` | internal/coordinator/bootstrap_sync.go:79-119 | An entry without ID or with the own ID is skipped; a refused one is not joined; nor is one without address. |
| `Gossip.UpsertKnown` | internal/coordinator/bootstrap_sync.go:105-116 | The known peers of an accepted join are upserted one after the other. |
| `Gossip.BookPeerIsAccepted` | internal/peer/peer_registry.go:57-104 | When all peers have coherent addresses and fit, each is accepted and nobody has to go. |
| `Gossip.MergeConverges` | internal/coordinator/bootstrap_sync.go:57-121 | The registry then gains exactly the peers of the list and the known peers of accepted joins, all of them are Active, and it neither loses nor changes anybody else. |
| `Gossip.LearnedInFields` | internal/coordinator/bootstrap_sync.go:79-119 | Those peers are the entries of the list that are neither nameless nor self, and the named known peers of joins of such entries that have an address. |
| `Gossip.AcceptedOfferIsActive` | internal/coordinator/bootstrap_sync.go:83-91 | Whatever the registry and the addresses, an entry of the list that is accepted is Active, with the addresses of the list and the stamp of its turn. |
| `Gossip.AcceptedKnownIsActive` | internal/coordinator/bootstrap_sync.go:105-116 | So is a known peer that is accepted; one that is refused changes nothing. |
| `Gossip.OrderDoesNotMatter` | internal/coordinator/bootstrap_sync.go:57-121 | The peers known and all their addresses are the same in any order of the list. |
| `Directory.Directory.Register` | cmd/bootstrap/main.go:40-80 | Refuses incomplete records, replaces the first record that shares any field, appends while there is room, and reports a full network exactly when 20 records are there and none matches. |
| `Directory.RegisterInFields` | cmd/bootstrap/main.go:40-80 | A record without ID or gRPC address changes nothing; any other goes to the place of the first record that shares one of the three fields, or to the end while there are fewer than 20. |
| `Directory.Directory.Delete` | cmd/bootstrap/main.go:91-114 | Takes out the first record with that ID; a missing ID and an unknown peer are told apart. |
| `Directory.RegisterTwice` | cmd/bootstrap/main.go:54-79 | Registering the same record twice is registering it once. |
| `Directory.DeleteUndoesRegister` | cmd/bootstrap/main.go:103-112 | Deleting a peer that was new undoes its registration. |
| `Directory.RegisterKeepsDistinctIff` | cmd/bootstrap/main.go:56-69 | A registration keeps IDs, gRPC and HTTP addresses pairwise distinct exactly when its record matches at most one entry. |
| `Directory.DeleteRemovesOnlyThat` | cmd/bootstrap/main.go:103-112 | A deletion takes out the peer of that ID and nobody else. |
| `Directory.RunsStayDistinct` | cmd/bootstrap/main.go:40-114 | Over every run the list holds at most 20 records, and with coherent addresses all three fields stay pairwise distinct. |
| `Directory.EmptyHttpOverwrites` | cmd/bootstrap/main.go:57-57 | Two peers that share nothing but an HTTP address, the empty one included, overwrite each other. |

## Left out

- Routing.SortByDistance: the sort of the library is modelled as a stable insertion sort, not as the algorithm Go uses.
- Lifecycle.RunKeepsInv: runs without Redis merges, which may make a peer Left or move its address at any time; the bound and the keys with merges are RegistryStaysBounded.
- CatalogLock.RunIsExclusive: exclusion is claimed only for runs in which sections end in time and no Del takes effect late; LateDelFreesTheLock shows what one does.
- Availability.FaultTolerance: nodes that crash do not come back, and the other nodes do not change during one download; those of ReadingToleratesFaults change between the turns of a download, but not within one.
- SplitPasses.SplitDetectorIsComplete: promises Left at some moment, not from then on; LeftIsFinalIff says when it lasts.
- Host.PeerHost.AddFile: the registry and the store do not change under one upload.
- Content.CanonicalReaderIsValid: the reader shown reads the canonical layout only; encoding/json reads more, and the model leaves open what.
- Replication.ToleratesCrashes: assumes that every request of the upload is delivered at least once, and that the registries at both ends list addresses as they are.
- Host.PeerHost.UpdateLocalCatalog: covers runs in which nothing but its own blocks hashes to the blocks of the new catalog.
- Records shared by pointer: the registry maps IDs to values, so the alias between a caller's record and the stored one is not captured; nil records and endpoints are not modelled.
- Publishing records to Redis and the key scan of the sync loop: only the merge of one record is modelled.
- Disk: errors of the block store and of the reader's output stream, the per-file mirror of blocks, and the file that keeps the peer ID.
- General JSON: only the canonical file node; the reader of other documents is an arbitrary function.
- DetectType, InspectCID and directory nodes: used for display only.
- ProviderRecords.Merge: a loop of Add that nothing calls.
- Dialing, connection pooling and timeouts: a call succeeds or fails.
- HTTP API, command line, logging, dashboard, rebalancing and the heartbeat package: wiring or unused.
- Claims of the documentation that the code does not implement: logarithmic hops, next-closest fallback during replication, eviction of long-inactive peers on join, a filename in the file node, concurrent replication.
