# AresaDB core: a verified model

This project models, in Dafny, the parts of AresaDB's embedded engine where a fast, layered or
distributed structure has to agree with a simple one, and proves that it does, or exactly when.

| files | component | main result |
|---|---|---|
| `Tiered`, `TieredRuns`, `TieredStorage` | tiered node store | over every run the five places a payload can sit read like one map, also after a crash inside an eviction or a promotion |
| `Replication`, `ElectionLogs` | vote and term state machine | no two leaders in one term, and every leader's log at least as good as a majority's, over any run of a cluster of any size |
| `Parallel`, `ParallelLimit`, `ParallelSingle` | multi-task traversal | under every schedule each id is claimed at most once; the exact depth limit from which every finished schedule is complete |
| `Graph`, `Search`, `Components` | traversal, shortest path, components | exact visited sets, minimum hop counts, a partition into weak components |
| `EdgeStore`, `IndexKeys`, `PropertyIndex`, `PropertyTables` | edge, type and property indexes | lookups equal scans despite dead entries, over every run |
| `Query`, `QueryLaws`, `Executor`, `IndexedQueries` | planning and execution | when an index plan means "scan the type, then filter", both ways |
| `VectorSearch`, `VectorIndex` | HNSW-style index | the layer search keeps the nearest of what it evaluates; a complete index searches exactly |
| `Bits`, `Bloom`, `CountingBloom` | Bloom filters | bits are exactly the items' slots, counters exactly the loads; the byte form round-trips |
| `HashRing`, `Shards` | consistent hashing and sharding | the ring is a function of its members; the shards are one map |
| `Values`, `Json` | property values and JSON | printing then parsing is the identity exactly on plain values |

Code that changes things in place (`TieredStorage`, `ReplicaSet`, `EdgeTables`, `Tables`,
`VectorIndex`, `BloomFilter`, `CountingBloomFilter`, `ConsistentHashRing`, `ShardManager`) is a class
whose methods are proved against a function on plain values; the invariants and the theorems over
whole runs are then proved about that function. Code that computes a value in a loop is a method with
loop invariants; recursive code is a recursive function.

Conventions. Hashes (SipHash, xxHash), distances, float formatting, 32-bit float narrowing, serialised
sizes, regular-expression matching and the outcome of a bucket call are parameters, so every theorem
holds for all of them. 64-bit words are naturals below 2^64, with shifts, `or`, wrapping addition and
truncation written out. Redb tables are maps, multimap tables are sets of pairs, the moka cache is a map
that may lose any entry at any time, the bucket a map whose calls may fail.

Findings, each with its own lemma:

- `promote_to_local` never looks at the location; it preserves the stored payload exactly when the bucket copy is the current one (`Tiered.PromoteExact`), and can bring back the payload before a failed write-through (`Tiered.PromoteRevertsUpdate`).
- Stopping `delete_node` after its bucket delete leaves an evicted node indexed but unreadable (`Tiered.DeleteCrashExact`, `Tiered.HalfDeletedIsUnreadable`).
- `set_bucket` on a store with a bucket loses the evicted payloads the new one does not hold (`Tiered.AttachExact`, `Tiered.EmptyBucketLosesEvicted`).
- Counting grants without comparing terms, which the vote-counting stub leaves open, would be unsafe (`Elections.StaleGrantsAreUnsafe`).
- A conflicting append truncates committed entries (`Replication.CommittedExact`, `Replication.CommittedEntryLost`).
- `parallel_traverse` can miss an id within `max_depth` hops, because an id is claimed at whatever depth a task first takes it up; with several starts it is complete on all graphs of n reachable ids exactly from a limit of n - 1 for ids and n for edges, or with limit 0 (`ParallelLimit.IdsExact`, `ParallelLimit.EdgesExact`), with one start always (`ParallelSingle.SingleIsExact`).
- `plan_scan` ignores the operator, so an indexed comparison is right on every database only if the operator accepts the literal and nothing else (`IndexedQueries.SelectExact`, `IndexedQueries.ChangeExact`); a SELECT drops all its indexed conditions but the first, which is right only when they are the same (`IndexedQueries.EqualitiesExact`); and one whose index was dropped loses its condition (`Executor.DroppedIndexIgnoresCondition`).
- `update_node` and `insert_nodes_batch` leave property indexes stale (`PropertyIndex.UpdateExact`, `PropertyIndex.UpdateLeavesStale`, `PropertyIndex.BatchExact`, `PropertyIndex.BatchIsNotFound`), and an index created while payloads are evicted misses them (`PropertyIndex.CreateExact`, `PropertyIndex.CreateMissesEvicted`).
- A counting filter whose counters saturate denies items it holds (`CountingBloom.SaturationLosesItem`), and so does one from which a false positive was removed (`CountingBloom.RemoveOtherExact`, `CountingBloom.FalsePositiveRemovalLosesItem`).
- A filter of 2^32 bits or items does not survive its byte form (`Bloom.RoundTripExact`, `Bloom.HugeFilterIsLost`).
- The parser accepts a vector element too large for 32 bits and then refuses its own printed form (`Json.StableExact`, `Json.HugeElementIsLost`).

## Model

| member | source | states |
|---|---|---|
| `TieredRuns.ReadsAgreeWithMap` | src/storage/tiered.rs:241-392 | Over every run of insert, batch insert, update, delete, evict, guarded promote, prefetch, eviction pass, migration, bucket attachment and cache loss, with failing puts, from a new or legacy database, a read returns exactly what one map id to node holds |
| `TieredRuns.RunRecordsAreTrue` | src/storage/tiered.rs:64-76 | Over every such run the index record of a node gives the size and property count of the payload last written, as far as 32 and 16 bits hold them |
| `TieredRuns.RunRefines` | src/storage/tiered.rs:241-647 | Every legal run keeps the five tables a refinement of the map the same run produces |
| `TieredRuns.StepRefines` | src/storage/tiered.rs:241-647 | Every single operation keeps that refinement |
| `TieredRuns.BatchRefines` | src/storage/tiered.rs:282-306 | A batch of distinct fresh ids stores each of its nodes and changes no other |
| `TieredRuns.EvictLoopRefines` | src/storage/tiered.rs:537-577 | An eviction pass changes no node's meaning, whichever uploads fail |
| `TieredRuns.EvictLoopExact` | src/storage/tiered.rs:537-577 | The pass moves and counts exactly the candidates of the tried prefix whose upload works; it goes on exactly as long as the estimate is above the target and candidates are left |
| `TieredRuns.LegacyStart` | src/storage/local.rs:634-680 | A database with only legacy rows stands for those rows, whatever its bucket holds |
| `Tiered.InsertRefines` | src/storage/tiered.rs:241-279 | Insert of a fresh id adds the node, also when the write-through put fails |
| `Tiered.GetRefines` | src/storage/tiered.rs:310-322 | A read gives the map's answer and keeps the refinement; it fails exactly for an uncached cloud payload with the bucket unreachable |
| `Tiered.ResolveRefines` | src/storage/tiered.rs:605-647 | Resolving a payload yields the current one, whichever tier it comes from |
| `Tiered.UpdateRefines` | src/storage/tiered.rs:330-376 | Every key of an object takes its value, every other key keeps its own, none appears or is lost, anything but an object changes nothing; the update fails exactly for an unknown or unreachable node, and then changes nothing |
| `Tiered.DeleteRefines` | src/storage/tiered.rs:379-392 | Delete removes the node and nothing else, also when the bucket delete fails |
| `Tiered.LossRefines` | src/storage/tiered.rs:605-647 | Losing any cache entries changes no node |
| `Tiered.InsertPlaces` | src/storage/tiered.rs:241-279 | After an insert the payload is in the local table and the cache, and in the bucket exactly if a write-through put worked |
| `Tiered.UpdatePlaces` | src/storage/tiered.rs:330-376 | After an update it also replaces the legacy row, and the node counts locally |
| `Tiered.DeleteClears` | src/storage/tiered.rs:379-392 | A delete leaves at most a bucket copy, and none if the bucket delete worked |
| `Tiered.ReadFills` | src/storage/tiered.rs:605-647 | A read that succeeds leaves the payload in the cache and moves nothing else |
| `Tiered.PromoteMoves` | src/storage/tiered.rs:519-533 | Promotion succeeds exactly when the bucket copy can be fetched, and the node then counts locally with that copy |
| `Tiered.PrefetchFills` | src/storage/tiered.rs:580-602 | Prefetching caches every listed id with a local payload and touches nothing else |
| `Tiered.MigrateAt` | src/storage/local.rs:1485-1529 | Migration gives every legacy node an index record and a payload row |
| `Tiered.EvictPrefixRefines` | src/storage/tiered.rs:480-515 | Stopping an eviction after any of its writes leaves every node as it was |
| `Tiered.PromotePrefixRefines` | src/storage/tiered.rs:519-533 | The same for promoting a cloud payload |
| `Tiered.EvictCrashSafe` | src/storage/tiered.rs:480-515 | After any prefix of an eviction and loss of the cache every id reads as last written |
| `Tiered.PromoteCrashSafe` | src/storage/tiered.rs:519-533 | The same for promoting a cloud payload |
| `Tiered.PromoteExact` | src/storage/tiered.rs:519-533 | Promotion preserves the store if and only if the fetch fails, the id is unknown, or the bucket copy is the current payload |
| `Tiered.PromoteCloudRefines` | src/storage/tiered.rs:519-533 | Promotion of a cloud-located payload is always safe |
| `Tiered.DeleteCrashExact` | src/storage/tiered.rs:379-392 | Stopped before its local delete, a delete leaves the node reading as last written if and only if its payload counts locally; otherwise reading fails |
| `Tiered.PromoteRevertsUpdate` | src/storage/tiered.rs:519-533 | Insert with write-through, update with a failing put, promote, lose the cache: the old payload is read |
| `Tiered.HalfDeletedIsUnreadable` | src/storage/tiered.rs:379-392 | Insert, evict, and a delete stopped halfway: still indexed, reading fails |
| `Tiered.PrefetchRefines` | src/storage/tiered.rs:580-602 | Prefetching changes no node |
| `Tiered.MigrateRefines` | src/storage/local.rs:1485-1529 | Migration of legacy rows changes no node |
| `Tiered.AttachExact` | src/storage/tiered.rs:205-207 | Attaching a bucket, also in place of another, changes no node if and only if it carries every payload that counts in the cloud |
| `Tiered.FirstBucketCarries` | src/storage/tiered.rs:205-207 | A first bucket always does, whatever it holds |
| `Tiered.EmptyBucketLosesEvicted` | src/storage/tiered.rs:205-207 | Replacing the bucket by an empty one makes an evicted node unreadable |
| `TieredStorage.TieredStorage.Insert` | src/storage/tiered.rs:241-279 | Rows, cache and write-through as the specification says |
| `TieredStorage.TieredStorage.InsertMany` | src/storage/tiered.rs:282-306 | The two loops of the batch compute the specified tables |
| `TieredStorage.TieredStorage.Get` | src/storage/tiered.rs:310-322 | Answer and new tables as specified |
| `TieredStorage.TieredStorage.Resolve` | src/storage/tiered.rs:605-647 | Cache, then the copy the index record names; a miss fills the cache |
| `TieredStorage.TieredStorage.Update` | src/storage/tiered.rs:330-376 | Answer and new tables as specified |
| `TieredStorage.MergeInto` | src/storage/tiered.rs:341-345 | The merging loop lays the new fields over the old ones, key by key |
| `TieredStorage.TieredStorage.Delete` | src/storage/tiered.rs:379-392 | Bucket, cache and local rows as specified |
| `TieredStorage.TieredStorage.EvictToCloud` | src/storage/tiered.rs:480-515 | Upload, index record, then local delete, in that order |
| `TieredStorage.TieredStorage.PromoteToLocal` | src/storage/tiered.rs:519-533 | Local payload, then the index record |
| `TieredStorage.TieredStorage.SetBucket` | src/storage/tiered.rs:205-207 | The new bucket takes the place of any other |
| `TieredStorage.TieredStorage.PrefetchNeighbors` | src/storage/tiered.rs:580-602 | Fills the cache for the listed ids when prefetching is on |
| `TieredStorage.TieredStorage.RunEviction` | src/storage/tiered.rs:537-577 | Evicts the candidates, oldest first, down to four fifths of the limit, and only above the limit |
| `TieredStorage.TieredStorage.EvictionCandidates` | src/storage/local.rs:969-999 | Exactly the local payloads of the minimum size, oldest update first |
| `TieredStorage.PlaceKeepsOrder` | src/storage/local.rs:969-999 | Placing one candidate keeps the order and loses or adds no other |
| `TieredStorage.BuildRows` | src/storage/local.rs:1485-1529 | One index record and one payload row for each legacy node |
| `TieredStorage.TieredStorage.MigrateToTiered` | src/storage/local.rs:1485-1529 | Migrates once, and reports how many |
| `Elections.ElectionSafety` | src/distributed/replication.rs:237-423 | Over any run with any delivery order, loss or repetition, no two nodes lead in the same term, at one moment or at two |
| `Elections.VoteOnce` | src/distributed/replication.rs:237-280 | No node grants two candidates in one term, over any run |
| `Elections.QuorumsAgree` | src/distributed/replication.rs:367-370 | Two majorities of one term name the same candidate |
| `Elections.RunGrows` | src/distributed/replication.rs:237-310 | Along every run terms never fall and no message is forgotten |
| `Elections.RunInv` | src/distributed/replication.rs:195-423 | In every reachable state votes are held, one per term, and leaders hold a majority |
| `Elections.NextKeeps` | src/distributed/replication.rs:195-423 | Every step keeps that invariant |
| `Elections.StaleGrantsAreUnsafe` | src/distributed/replication.rs:367-370 | A reachable state in which counting grants of any term would elect a second leader |
| `ElectionLogs.GrantNeedsLog` | src/distributed/replication.rs:237-280 | Over any run, whenever a vote is granted the voter's log is no better, by last term and then length, than the candidate's own log was when it asked |
| `ElectionLogs.LeaderLogIsGood` | src/distributed/replication.rs:237-423 | Behind every leader stands a majority each of whom, when it voted, had a log no better than the leader's when it stood |
| `ElectionLogs.RequestWasAsked` | src/distributed/replication.rs:391-407 | Every request in flight was made by its sender, in the term after its own, describing its own log |
| `ElectionLogs.AsksOnce` | src/distributed/replication.rs:391-407 | A node asks at most once in a term |
| `Replication.MessageIsSteady` | src/distributed/replication.rs:195-235 | No message lowers the term, takes back a vote within a term, or makes a leader; a later term is taken over as a follower, any other term is not |
| `Replication.GrantIsRecorded` | src/distributed/replication.rs:237-280 | A vote is granted exactly to a candidate of the current or a later term, with no other vote in its way, whose last log term is greater, or equal with a log at least as long; it is then the vote held |
| `Replication.MessageReplies` | src/distributed/replication.rs:195-235 | Requests are answered by their handler, responses are not answered |
| `Replication.CommittedExact` | src/distributed/replication.rs:283-355 | A message keeps the committed prefix if and only if it is not a conflict at or below the commit index |
| `Replication.CommittedEntryLost` | src/distributed/replication.rs:283-355 | Two messages to a new replica after which a committed entry is gone |
| `Replication.SuccessMatches` | src/distributed/replication.rs:283-355 | A successful append reports the whole log, which extends the old one and holds the previous entry |
| `Replication.AppendExact` | src/distributed/replication.rs:283-355 | When an append succeeds, both ways, what it reports, where the commit index goes, and what a failed one does to the log |
| `Replication.AppendOnlyExtends` | src/distributed/replication.rs:336-341 | Appending keeps the old log as a prefix, whatever the new entries say |
| `Replication.AppendsAllNew` | src/distributed/replication.rs:336-341 | Consecutive entries that start within the log or right after it end up in it, as far as they reach beyond it |
| `Replication.SetAllPeers` | src/distributed/replication.rs:410-423 | A new leader's index for every peer, and for nobody else, is reset |
| `Replication.LeaderStarts` | src/distributed/replication.rs:410-423 | Every peer is to be sent the entry after the last one, and nothing counts as replicated |
| `Replication.ElectionStarts` | src/distributed/replication.rs:391-407 | A candidate stands in the next term with its own vote and asks with its own last entry |
| `Replication.CommandIsAppended` | src/distributed/replication.rs:176-192 | A leader's command becomes the last entry, of its term, at the index reported; nobody else appends |
| `Replication.ReplicaSet.ProcessMessage` | src/distributed/replication.rs:195-235 | New state and reply as specified for each kind of message |
| `Replication.ReplicaSet.HandleRequestVote` | src/distributed/replication.rs:237-280 | New state and reply as specified |
| `Replication.ReplicaSet.HandleAppendEntries` | src/distributed/replication.rs:283-355 | New state and reply as specified, the loop pushing the missing entries |
| `Replication.ReplicaSet.BeginElection` | src/distributed/replication.rs:391-407 | Next term, own vote, and the request sent |
| `Replication.ReplicaSet.TakeOffice` | src/distributed/replication.rs:410-423 | Leader state with both peer tables reset |
| `Replication.ReplicaSet.Append` | src/distributed/replication.rs:176-192 | A leader appends one entry and reports its index; anyone else refuses |
| `Parallel.ClaimedOnceAndNear` | src/storage/parallel.rs:42-153 | Under every schedule no id is claimed twice and none lies beyond `max_depth` hops of a start |
| `Parallel.FinishedIsExact` | src/storage/parallel.rs:42-153 | With `max_depth` at least the number of reachable ids, every finished schedule reports exactly the reachable nodes and their allowed out-edges, each once |
| `Parallel.EveryStepProgresses` | src/storage/parallel.rs:76-127 | No schedule runs forever |
| `Parallel.StuckIsDone` | src/storage/parallel.rs:76-134 | A schedule cannot go on if and only if all tasks have finished |
| `Parallel.FinishedLists` | src/storage/parallel.rs:121-134 | Every finished schedule reports exactly the stored ids it claimed and the allowed out-edges of those it expanded, each once |
| `Parallel.RunInv` | src/storage/parallel.rs:42-153 | The invariant of the shared visited set, queues and merged lists holds in every reachable state |
| `Parallel.NextKeeps` | src/storage/parallel.rs:76-127 | Every step of every task keeps it |
| `Parallel.NeverAtLimit` | src/storage/parallel.rs:76-127 | Under that bound no claim is stopped by the depth limit |
| `ParallelLimit.IdsExact` | src/storage/parallel.rs:76-119 | On all graphs with n reachable ids every finished schedule claims exactly the ids within the limit, if and only if the limit is 0 or at least n - 1 |
| `ParallelLimit.EdgesExact` | src/storage/parallel.rs:76-119 | It lists exactly the allowed edges out of ids below the limit, if and only if the limit is 0 or at least n |
| `ParallelLimit.RingMissesId` | src/storage/parallel.rs:76-119 | For every limit from 1, a ring and a finished schedule that misses an id within it |
| `ParallelLimit.RingMissesEdge` | src/storage/parallel.rs:76-119 | The same for an edge |
| `ParallelSingle.SingleIsExact` | src/storage/parallel.rs:42-153 | From one start every limit is exact, for ids and edges |
| `Search.Traverse` | src/query/executor.rs:548-624 | Ends on any finite graph, visits exactly the stored ids within `max_depth` allowed hops, and returns each allowed out-edge of the nearer ones once, with their targets in order |
| `Search.FinalDepths` | src/query/executor.rs:548-624 | When the queue is empty the settled ids are exactly those within the limit |
| `Search.ExpandNode` | src/query/executor.rs:588-612 | The edge loop keeps the allowed edges and queues the targets not yet visited |
| `Search.ExpandPushes` | src/query/executor.rs:588-612 | What it queues is what the breadth-first invariant asks for |
| `BreadthFirst.FrontIsNearest` | src/query/executor.rs:566-586 | The first unsettled queue entry carries its true distance |
| `BreadthFirst.SettleFront` | src/query/executor.rs:566-612 | Settling it and queueing its hops keeps the invariant |
| `BreadthFirst.Covered` | src/query/executor.rs:566-612 | A queue deeper than k means everything within k hops is settled |
| `Graph.WalkIsWithin` | src/query/executor.rs:548-624 | The end of a walk lies within as many hops as it has edges |
| `Graph.WithinHasWalk` | src/query/executor.rs:548-624 | Conversely, an id within k hops has a walk of at most k edges |
| `Graph.AllowedMeans` | src/query/executor.rs:594-600 | Without a type filter every edge is allowed, with one exactly those of the listed types |
| `Search.ShortestPath` | src/query/executor.rs:627-674 | The explored path is a directed walk with the fewest hops, None is answered exactly when no walk of at most `max_depth` hops exists, and the answer lists exactly the stored ids of the walk in order, the whole walk when all are stored |
| `Search.ResolvePath` | src/query/executor.rs:644-652 | The loop picks exactly the stored positions of a path, in increasing order |
| `Search.FrontIsShortest` | src/query/executor.rs:627-674 | The target at the front of the queue has a shortest route |
| `Search.NoneLeft` | src/query/executor.rs:627-674 | An empty queue means no walk within the limit |
| `Components.ConnectedComponents` | src/query/executor.rs:677-731 | Every node of the type is in exactly one component; components are disjoint, and each is the stored nodes weakly connected to its seed |
| `Components.Collect` | src/query/executor.rs:691-724 | The inner loop collects one component and leaves the visited set closed |
| `Components.ClosedChain` | src/query/executor.rs:677-731 | A set closed under edges holds both ends of a chain or neither |
| `Components.ComponentAdded` | src/query/executor.rs:677-731 | One more component keeps the list disjoint and covering |
| `EdgeStore.RunExact` | src/storage/local.rs:369-570 | Over every run with fresh ids the three indexes stay good and the edge table is what a plain map would be |
| `EdgeStore.DeleteNodeExact` | src/storage/local.rs:750-840 | A node delete removes exactly the edges that touch the node |
| `EdgeStore.StepExact` | src/storage/local.rs:369-570 | Every single operation keeps the indexes good and acts on the table as on a map |
| `EdgeStore.AddAllAdds` | src/storage/local.rs:400-427 | A batch stores every one of its edges |
| `EdgeStore.EdgeTables.GetEdgesFrom` | src/storage/local.rs:445-475 | Exactly the stored edges leaving the node, of one type if asked, each once |
| `EdgeStore.EdgeTables.GetEdgesTo` | src/storage/local.rs:478-508 | Exactly the stored edges arriving at the node, each once |
| `EdgeStore.EdgeTables.GetEdgesByType` | src/storage/local.rs:543-570 | At most the limit, and all of the type, each once, when fewer |
| `EdgeStore.Collect` | src/storage/local.rs:445-570 | The loop behind the three queries skips dead entries and stops at the limit |
| `EdgeStore.EdgeTables.InsertEdge` | src/storage/local.rs:369-397 | One row and three index entries |
| `EdgeStore.EdgeTables.InsertEdgesBatch` | src/storage/local.rs:400-427 | The loop inserts every edge |
| `EdgeStore.EdgeTables.DeleteEdge` | src/storage/local.rs:511-540 | The row and its entries go, nothing else |
| `EdgeStore.EdgeTables.DeleteNodeEdges` | src/storage/local.rs:750-840 | The two loops over the node's index entries |
| `EdgeStore.DropEntries` | src/storage/local.rs:750-840 | One of those loops |
| `IndexKeys.KeyInjective` | src/storage/local.rs:1660-1671 | For NUL-free names the composite key determines type and field, and the value if it is a string, integer or boolean |
| `IndexKeys.PrefixExact` | src/storage/local.rs:1072-1110 | A key has an index's prefix exactly when it belongs to that index |
| `IndexKeys.CanonicalInjective` | src/storage/local.rs:1660-1671 | A string, integer or boolean shares its text with no other value |
| `IndexKeys.RegPrefixExact` | src/storage/local.rs:1150-1169 | A registered name has a type's prefix exactly when it is of that type |
| `IndexKeys.NulNamesCollide` | src/storage/local.rs:1660-1671 | With NUL in names two indexes can share a key |
| `PropertyIndex.RunLookupIsScan` | src/storage/local.rs:1003-1198 | After any run from the empty database, every live index answers a string, integer or boolean like a scan of the type |
| `PropertyIndex.LookupIsScan` | src/storage/mod.rs:451-471 | The same in any state that meets the invariant |
| `PropertyIndex.LookupIsTyped` | src/storage/mod.rs:451-471 | Whatever value is looked up and however stale the index is, only nodes of the type are found |
| `PropertyIndex.RunSound` | src/storage/local.rs:1003-1198 | Every run with fresh ids and NUL-free names, with any updates, batches and index creations, keeps entries filed under their node's type |
| `PropertyIndex.TypeLookupExact` | src/storage/local.rs:314-341 | The type index answers exactly, dead entries or not |
| `PropertyIndex.EntryMeans` | src/storage/local.rs:1172-1198 | A live node is filed under a value exactly when its property holds it and the index is registered |
| `PropertyIndex.RunKeeps` | src/storage/local.rs:1003-1198 | Every run keeps the index invariant whose updates and batches change no indexed field and whose indexes are created over local payloads |
| `PropertyIndex.RunNodes` | src/storage/local.rs:575-840 | Whatever the indexes do, the nodes are those a plain map would hold after the same run |
| `PropertyIndex.OtherIndexesKept` | src/storage/local.rs:1003-1110 | A created index is registered, a dropped one gone, and neither changes what any other index answers |
| `PropertyIndex.UpdateKeeps` | src/storage/tiered.rs:330-376 | An update of other fields keeps it |
| `PropertyIndex.BatchKeeps` | src/storage/local.rs:603-631 | A batch without indexed fields keeps it |
| `PropertyIndex.InsertKeeps` | src/storage/local.rs:1172-1198 | Insert keeps it |
| `PropertyIndex.DeleteKeeps` | src/storage/local.rs:750-840 | Delete keeps it, though it leaves dead entries |
| `PropertyIndex.CreateKeeps` | src/storage/local.rs:1003-1069 | Creating an index keeps it when no payload of the type is evicted |
| `PropertyIndex.DropKeeps` | src/storage/local.rs:1072-1110 | Dropping an index removes its own entries and no other's |
| `PropertyIndex.RowsKeep` | src/storage/tiered.rs:480-533 | Eviction and promotion touch no index |
| `PropertyIndex.CreateExact` | src/storage/local.rs:1003-1069 | A new index is exact for a value if and only if every holder still has its payload row |
| `PropertyIndex.UpdateExact` | src/storage/tiered.rs:330-376 | An update leaves a lookup exact if and only if it does not change whether the node's field holds the value |
| `PropertyIndex.BatchExact` | src/storage/local.rs:603-631 | A batch leaves a lookup exact if and only if none of its nodes holds the value |
| `PropertyIndex.CreateMissesEvicted` | src/storage/local.rs:1003-1069 | Insert, evict, create: the lookup finds nothing |
| `PropertyIndex.UpdateLeavesStale` | src/storage/tiered.rs:330-376 | Create, insert, update: the old value is found and the new one is not |
| `PropertyIndex.BatchIsNotFound` | src/storage/tiered.rs:282-306 | Create, then insert in a batch: the lookup finds nothing |
| `PropertyTables.Tables.InsertNode` | src/storage/local.rs:1172-1198 | Rows and index entries as specified |
| `PropertyTables.Tables.DeleteNode` | src/storage/local.rs:750-840 | Rows as specified, index entries left behind |
| `PropertyTables.Tables.CreateIndex` | src/storage/local.rs:1003-1069 | New entries and registration as specified; the count is the number of visible nodes with the field, 0 if registered already |
| `PropertyTables.Tables.DropIndex` | src/storage/local.rs:1072-1110 | Entries under the prefix and the registration go |
| `PropertyTables.Tables.IndexLookup` | src/storage/mod.rs:451-471 | None without an index; otherwise the live ids filed under the key, each once, which through a live index are the scan's; an error exactly when the payload of one of them cannot be fetched |
| `PropertyTables.BuildEntries` | src/storage/local.rs:1003-1069 | One entry for each visible node of the type that has the field |
| `Executor.SelectFindsAll` | src/query/planner.rs:139-199 | The rows of a SELECT before sort and limit are the naive filter when at most one condition is on an indexed column, it is an answerable equality, and its index is registered |
| `Executor.UpdateFindsAll` | src/query/planner.rs:201-251 | An UPDATE or DELETE finds the naive filter when no condition is indexed, the first indexed one is an answerable equality, or its index is gone |
| `Executor.TouchedAreWanted` | src/query/executor.rs:374-469 | For any indexed-field set and however stale the indexes, only nodes of the target type meeting every condition are touched |
| `Executor.RunTouchedAreWanted` | src/query/executor.rs:374-469 | So after every run, whatever updates, batches and index creations it held |
| `Executor.TouchedIsFound` | src/query/executor.rs:374-469 | Running the whole plan touches exactly what its first steps find |
| `Executor.FindStepsFind` | src/query/executor.rs:374-469 | Running those steps finds exactly the rows the two theorems speak of |
| `Executor.LookupAnswers` | src/query/executor.rs:374-400 | An index lookup for an answerable equality is the filter on that condition |
| `Executor.DroppedIndexIgnoresCondition` | src/query/executor.rs:374-400 | With its index dropped, a SELECT on that one condition returns the whole type |
| `Executor.ExecutePlan` | src/query/executor.rs:374-469 | The step loop computes the meaning of the plan |
| `Executor.FilterRows` | src/query/executor.rs:374-469 | The filter step keeps exactly the rows meeting every condition |
| `IndexedQueries.SelectExact` | src/query/planner.rs:290-318 | A SELECT comparing an indexed column with a string, integer or boolean is right on every database if and only if the operator accepts that value and no other |
| `IndexedQueries.ChangeExact` | src/query/planner.rs:290-318 | An UPDATE or DELETE, if and only if the operator accepts no other value |
| `IndexedQueries.EqualitiesExact` | src/query/planner.rs:148-167 | A SELECT by answerable equalities on indexed columns is right on every database if and only if they are all the same condition |
| `IndexedQueries.IntOperators` | src/query/mod.rs:295-350 | For an integer literal that leaves equality, and for changes also IN and LIKE, which never match one |
| `Planner.Plan` | src/query/planner.rs:133-287 | The accumulating code builds the specified plan for every operation |
| `Planner.PlanSelect` | src/query/planner.rs:139-199 | The steps of a SELECT in order |
| `Planner.SelectTail` | src/query/planner.rs:139-199 | After the rows one sort per key with its direction, then the limit with its offset, then the projection |
| `Planner.OtherPlans` | src/query/planner.rs:201-287 | The steps of inserts, traversals and changes |
| `Planner.PlanScan` | src/query/planner.rs:290-318 | The first condition on an indexed column decides the scan, whatever its operator |
| `Planner.RemainingConditions` | src/query/planner.rs:148-167 | The two loops leave the conditions on columns that are not indexed |
| `Query.MatchesConditions` | src/query/executor.rs:508-523 | The loop answers whether all conditions hold |
| `QueryLaws.OrderIsTotal` | src/query/mod.rs:295-330 | On integers, strings and floats that are numbers, exactly one of less, equal and greater holds |
| `QueryLaws.OrEqual` | src/query/mod.rs:295-330 | At most and at least are less or equal and greater or equal |
| `QueryLaws.Swapped` | src/query/mod.rs:295-330 | Greater is less with the sides swapped, for all values |
| `QueryLaws.LtTransitive` | src/query/mod.rs:295-330 | Less is transitive |
| `QueryLaws.IntOrder` | src/query/mod.rs:295-330 | On integers less is a positive difference |
| `QueryLaws.StringOrder` | src/query/mod.rs:295-330 | On strings it is decided at the first position where they differ |
| `QueryLaws.FloatOrder` | src/query/mod.rs:295-330 | On floats it is the order of the numbers with the infinities at the ends, and NaN is related to nothing |
| `QueryLaws.MixedOrder` | src/query/mod.rs:295-330 | An integer compares with a float as the float it widens to |
| `QueryLaws.Unordered` | src/query/mod.rs:295-330 | Values of other or different kinds are never ordered |
| `QueryLaws.EqIsIdentity` | src/query/mod.rs:295-298 | Equal means the same value with no NaN in it, and different is the opposite |
| `QueryLaws.OtherOperators` | src/query/mod.rs:331-349 | What IN, LIKE and the null tests mean |
| `QueryLaws.ColumnLaws` | src/query/executor.rs:508-523 | The columns id and type are the node's own, any other a property, and a missing property is null |
| `VectorSearch.SearchLayer` | src/storage/vector_index.rs:233-316 | Ends and returns, ascending by the metric from the query, the ef nearest of all it evaluated, which includes the entry point and every stored link of every returned entry, so none of those is missing that is nearer than a returned one |
| `VectorSearch.Evaluate` | src/storage/vector_index.rs:274-304 | One neighbour: the result stays the ef nearest of what has been evaluated |
| `VectorSearch.ExpandLinks` | src/storage/vector_index.rs:272-306 | The same over all links of one entry, all of which get evaluated |
| `VectorSearch.SortHits` | src/storage/vector_index.rs:309-316 | The results once each, in ascending order of distance |
| `VectorSearch.NearestReplace` | src/storage/vector_index.rs:289-302 | Pushing out the farthest keeps the ef nearest |
| `VectorSearch.NearestPrefix` | src/storage/vector_index.rs:187-194 | The first k of the ef nearest are the k nearest |
| `VectorIndex.VectorIndex.Insert` | src/storage/vector_index.rs:106-168 | Refuses a wrong dimension; otherwise stores the normalised vector linked both ways with the nearest evaluated as far as there is room, leaves all other entries alone, keeps the link bound and the entry point, and keeps a complete graph complete while it has room |
| `VectorIndex.VectorIndex.Search` | src/storage/vector_index.rs:171-194 | The k nearest of what was evaluated, each with its distance from the normalised query, and no nearer link of an answer is missing; on a complete index exactly a brute-force scan's answer |
| `VectorIndex.VectorIndex.Remove` | src/storage/vector_index.rs:197-220 | Removes the entry; what it linked to loses its links to it and no others, the rest is untouched; the bound holds, and the entry point moves to a stored id exactly when one is left |
| `VectorIndex.VectorIndex.BuildFromVectors` | src/storage/vector_index.rs:366-371 | At most `max_connections + 1` distinct ids give a complete graph over exactly those ids |
| `VectorIndex.CompleteGrows` | src/storage/vector_index.rs:144-159 | Linking a new id with every entry of a complete table gives a complete table |
| `VectorIndex.CompleteIsSeen` | src/storage/vector_index.rs:233-316 | A wide enough search of a complete table evaluates all of it |
| `VectorIndex.BoundedDegree` | src/storage/vector_index.rs:144-157 | An entry's links over all layers stay within `max_connections` |
| `VectorIndex.InsertSound` | src/storage/vector_index.rs:106-168 | Inserting keeps the bound and the entry point |
| `VectorIndex.RemoveSound` | src/storage/vector_index.rs:197-220 | Removing keeps them |
| `Bloom.BitsAreItems` | src/distributed/bloom.rs:65-176 | After any history of insert, clear, merge and reload a bit is set exactly when some held item points at it |
| `Bloom.NoFalseNegatives` | src/distributed/bloom.rs:80-91 | A held item is always reported; anything reported has every slot taken by a held item |
| `Bloom.RoundTripExact` | src/distributed/bloom.rs:132-176 | The byte form reads back as the same filter if and only if bits and count are below 2^32 |
| `Bloom.Reload` | src/distributed/bloom.rs:132-176 | Below 2^32 bits the bits always survive, trailing bytes are ignored, and the count is cut to 32 bits |
| `Bloom.HugeFilterIsLost` | src/distributed/bloom.rs:132-176 | A filter of 2^32 bits comes back with none |
| `Bloom.ParsedIsWritten` | src/distributed/bloom.rs:147-176 | Whatever parses is the byte form of the result |
| `Bloom.Layout` | src/distributed/bloom.rs:132-144 | The byte layout: bit count, hash count and item count in four bytes each, then eight bytes a word |
| `Bloom.SetBitSets` | src/distributed/bloom.rs:203-213 | Setting a bit sets that bit and no other |
| `Bloom.SetFirstSets` | src/distributed/bloom.rs:65-74 | An insert sets exactly the slots of its item |
| `Bloom.IndexWraps` | src/distributed/bloom.rs:197-201 | Slot i of an item is h1 + i * h2 modulo 2^64, modulo the number of slots |
| `Bloom.CountIsCounted` | src/distributed/bloom.rs:65-129 | The count over any history of insertions, clears, merges and reloads |
| `Bloom.MergeUnites` | src/distributed/bloom.rs:119-129 | A merged filter has a bit exactly when one of the two had it |
| `Bloom.BloomFilter.Add` | src/distributed/bloom.rs:65-74 | The loop sets the item's bits and counts it |
| `Bloom.BloomFilter.Contains` | src/distributed/bloom.rs:80-91 | True exactly when all the item's bits are set |
| `Bloom.BloomFilter.Absorb` | src/distributed/bloom.rs:119-129 | The word-by-word `or`, and the sum of the counts |
| `Bloom.BloomFilter.Serialize` | src/distributed/bloom.rs:132-144 | The loop writes the specified bytes |
| `Bloom.Deserialize` | src/distributed/bloom.rs:147-176 | The loop reads the specified filter, or none from short data |
| `Bits.BitOr` | src/distributed/bloom.rs:203-213 | Bits of a bitwise `or` |
| `Bits.LeRoundTrip` | src/distributed/bloom.rs:132-176 | Little-endian bytes read back |
| `Bits.LeDigit` | src/distributed/bloom.rs:132-144 | The least significant byte comes first |
| `CountingBloom.RunAgrees` | src/distributed/bloom.rs:262-302 | After every run whose loads stay within 15 and whose removals name held or denied items, each counter is its load, the count is the number held, and every held item is reported |
| `CountingBloom.InsertExact` | src/distributed/bloom.rs:262-271 | Inserting keeps counters equal to loads if and only if no load passes 15 |
| `CountingBloom.RemoveHeld` | src/distributed/bloom.rs:274-288 | Removing a held item takes exactly its share off every counter |
| `CountingBloom.RemoveOtherExact` | src/distributed/bloom.rs:274-288 | Removing an item that is not held is harmless if and only if the filter denies it |
| `CountingBloom.HeldIsReported` | src/distributed/bloom.rs:291-302 | A held item is reported |
| `CountingBloom.SaturationLosesItem` | src/distributed/bloom.rs:335-353 | Past 15, a held item is denied |
| `CountingBloom.FalsePositiveRemovalLosesItem` | src/distributed/bloom.rs:274-288 | Add one item, remove another of the same slot: the first is held and denied |
| `CountingBloom.IncrementIsLocal` | src/distributed/bloom.rs:335-343 | An increment raises its counter, up to 15, and no other |
| `CountingBloom.IncrementFits` | src/distributed/bloom.rs:335-343 | An increment never overflows its word |
| `CountingBloom.DecrementIsLocal` | src/distributed/bloom.rs:345-353 | A decrement lowers its counter, down to 0, and no other |
| `CountingBloom.CountingBloomFilter.Put` | src/distributed/bloom.rs:262-271 | The loop raises the item's counters and counts it |
| `CountingBloom.CountingBloomFilter.Take` | src/distributed/bloom.rs:274-288 | Refuses what the filter denies; otherwise lowers the item's counters |
| `CountingBloom.CountingBloomFilter.Contains` | src/distributed/bloom.rs:291-302 | True exactly when all the item's counters are positive |
| `Nibbles.AddNibble` | src/distributed/bloom.rs:335-343 | Adding a power of sixteen carries into no other nibble |
| `Nibbles.SubNibble` | src/distributed/bloom.rs:345-353 | Subtracting one borrows from no other nibble and never underflows |
| `HashRing.OwnerIsNext` | src/distributed/shard.rs:318-332 | Lookup finds the owner of the nearest point clockwise, wrap-around included |
| `HashRing.AddMovesOntoNew` | src/distributed/shard.rs:301-307 | Adding a node moves keys only onto it |
| `HashRing.DropMovesOwnKeys` | src/distributed/shard.rs:310-316 | Removing a node whose points no other node holds moves only its own keys |
| `HashRing.DropExact` | src/distributed/shard.rs:310-316 | Points shared or not, removing a node moves only its own keys if and only if, from each of its points that another node owns, the first point clockwise that is not its own belongs to that node too |
| `HashRing.RunMoves` | src/distributed/shard.rs:301-316 | After any run a join moves keys only onto the joiner, and with distinct points a leave moves only the leaver's keys |
| `HashRing.SharedPointMovesOthers` | src/distributed/shard.rs:310-316 | With a shared point another node's key can move |
| `HashRing.DropUndoesAdd` | src/distributed/shard.rs:301-316 | Removing a node just added restores the ring when its points were free |
| `HashRing.RunHolds` | src/distributed/shard.rs:301-316 | After any run of joins and leaves with distinct points the ring holds exactly its members' points |
| `HashRing.SameMembersSameRing` | src/distributed/shard.rs:301-316 | The same members give the same ring, whatever the order they came in |
| `HashRing.ConsistentHashRing.AddNode` | src/distributed/shard.rs:301-307 | The loop inserts the node's virtual points |
| `HashRing.ConsistentHashRing.RemoveNode` | src/distributed/shard.rs:310-316 | The loop removes them |
| `HashRing.ConsistentHashRing.GetNode` | src/distributed/shard.rs:318-332 | The specified owner, node 0 on an empty ring |
| `Shards.ShardsAreOneMap` | src/distributed/shard.rs:102-182 | After every run on new shards a lookup answers as one flat map despite the filter, every id is in exactly one shard, and the total is the map's size |
| `Shards.StepAgrees` | src/distributed/shard.rs:154-182 | Every operation keeps the shards and the flat map in agreement |
| `Shards.LookupAgrees` | src/distributed/shard.rs:161-170 | The filter's short cut never hides a stored node |
| `Shards.StoredOnce` | src/distributed/shard.rs:138-146 | An id is stored in its own shard and in no other |
| `Shards.TotalIsSize` | src/distributed/shard.rs:236-263 | The node total over the shards is the size of the flat map |
| `Shards.ShardManager.constructor` | src/distributed/shard.rs:102-117 | New shards agree with the empty map, and every owner on the ring is a shard |
| `Shards.ShardManager.Insert` | src/distributed/shard.rs:154-158 | Filter and table of the id's shard as specified |
| `Shards.ShardManager.Get` | src/distributed/shard.rs:161-170 | The specified lookup |
| `Shards.ShardManager.Update` | src/distributed/shard.rs:173-176 | The merged node in its shard, or an error and no change |
| `Shards.ShardManager.Delete` | src/distributed/shard.rs:179-182 | The id leaves its shard's table |
| `Shards.ShardManager.MarkEdge` | src/distributed/shard.rs:185-190 | An edge's id enters the filter of its source node's shard |
| `Shards.ShardManager.Stats` | src/distributed/shard.rs:236-263 | The loop's counts and their sum |
| `Json.RoundTripExact` | src/storage/node.rs:273-362 | Printing then parsing gives a value back if and only if it has no bytes, no non-finite float, and no object whose one key is "$vector" holding an array |
| `Json.StableExact` | src/storage/node.rs:273-316 | What the parser accepts survives printing and parsing again if and only if no vector element overflows a 32-bit float |
| `Json.HugeElementIsLost` | src/storage/node.rs:273-362 | A vector element of 1e300 is accepted, prints as null, and is then refused |
| `Json.ParsedIsPlain` | src/storage/node.rs:273-316 | What is parsed is such a value if and only if no vector element overflows |
| `Json.VectorRoundTrip` | src/storage/node.rs:339-352 | A vector survives exactly when all its elements are finite |
| `Json.ArrayRoundTrip` | src/storage/node.rs:329-362 | An array survives exactly when its elements do |
| `Json.ObjectRoundTrip` | src/storage/node.rs:329-362 | An object survives exactly when its fields do and it does not look like a vector |
| `Json.ObjectVectorForm` | src/storage/node.rs:329-362 | Which objects print to the vector notation |
| `Json.ScalarForms` | src/storage/node.rs:329-338 | Scalars are written as themselves, a float without a JSON form as null, and raw bytes come back as their base64 text |
| `Json.IntegerForms` | src/storage/node.rs:277-285 | An integer beyond 64 bits is read as a float |
| `Json.VectorForm` | src/storage/node.rs:293-307 | The vector notation is read number by number, integers widened, each narrowed to 32 bits; anything else is refused |

## Left out

- Concurrency inside the tiered store: the code takes no lock across the steps of an eviction, so operations are atomic with respect to each other; stopping between steps is modelled.
- Serialisation of payloads and nodes: bytes are represented by the property map they encode.
- Cache and bucket internals, tier statistics and timestamps: clocks and outcomes are parameters.
- The file-size estimate behind the eviction pass is a parameter, and the product of the limit with 80 is not cut to 64 bits.
- The tables of the tiered store and those of the indexes are two models of one database: the type and property indexes are kept in `PropertyIndex`, the payload tiers in `Tiered`.
- Type and field names holding NUL: the index theorems take names without it, since with it keys collide (`IndexKeys.NulNamesCollide`).
- Raft log replication, commit advancement and persistence of replica state: senders and response handling are stubs, and a restart forgets votes.
- `Elections.ElectionSafety` takes "a majority granted in my current term" as the guard of `become_leader`, as the comment in the vote-counting stub says; terms stop at the last 64-bit value.
- Task setup in `parallel_traverse`: each task reopens the database there; only the shared-visited protocol is modelled.
- Executor.ExecutePlan: sort, limit, projection and insert steps do nothing here, and the nodes an update or delete step touches are recorded, not changed; a payload that cannot be fetched ends a query with an error there.
- SQL parsing, LIKE matching, projection, ORDER BY and LIMIT: rows are compared before sort and limit, and matching is a parameter.
- Target ids of `shortest_path` in a non-canonical spelling: the code compares the raw text; ids here are canonical.
- Floating point: distances are reals, normalisation and the metric are parameters, NaN is out of the vector index; ties in the heaps may break either way.
- `VectorIndex.VectorIndex.Search` on an index that is not complete is approximate, as in the source: the answer is the nearest of what was evaluated.
- The layer drawn for an id and the sizes computed from a false-positive rate are parameters.
- Item counters past the machine word, in both filters, are not wrapped.
- `Shard::open` starts with an empty filter, so runs of the sharded store start from new shards; edges in shards are only followed into the filter.
- Full-text index, BM25, `Transaction::commit`, compression, chunking, embeddings, schema migration, CLI, server, Python bindings and the cluster crates.
