# WaddleMap-DB storage engine, verified model

A Dafny model of the storage package of WaddleMap-DB, a vector database written in Go, with
proofs of what its parts promise. The model follows the package file by file:

- **HNSW graph** (`Heap`, `LayerSearch`, `HnswGraph`, `HnswOps`, `HnswIndex`, `HnswInsert`,
  `HnswExact`, `HnswUnlisted`, `HnswBound`, `HnswFile`, `HnswPersist`). A layered neighbour graph with insertion, reverse links, pruning,
  deletion, entry-point repair, best-first search over two heaps, and a binary file. The class
  `HnswIndex.Index` has the methods of `HNSWWrapper`; each is proved against a step relation of
  `HnswGraph`, and the theorems are about every run of those steps.
- **Collections** (`CollectionModel`, `CollectionRuns`, `CollectionRebuild`, `Collection`,
  `CollectionSearch`, `Repair`). Graph, document map, per-key id lists and keyword postings kept in
  agreement by append, batch append and delete, searched under filters, rebuilt from the document map,
  and repaired.
- **Append log** (`RecordLog`, `BucketProtocol`, `BucketOrder`, `Storage`). Sixteen bucket files of
  length-prefixed records, each with an offset index; the scan that rebuilds the index; the
  buffered record reader; and, as a step system over any number of threads, `Append` and
  `BatchAppend` with their two locks.
- **Keyword search** (`Levenshtein`, `KeywordIndex`, `KeywordCase`, `KeywordPartial`, `KeywordRuns`,
  `KeywordHistory`). Trigram postings, four search modes, edit distance, and what searches return over runs of a collection.
- **Entry codec** (`Bytes`, `EntryCodec`, `EntryBytes`) and **vector manager** (`VectorStore`, `VectorBatch`,
  `VectorRuns`, `VectorReads`, `VectorManager`), which puts collection, codec and log together.

Parameters of the model: the level drawn for a new node (any number up to 32), the distance (any
function of two vectors into the reals), M and the two ef values (any naturals), the bucket hash
(any function into 0..15), the compressor (any function; lossless where a theorem says so), and the
checksum (any function into 32 bits). Map iteration order is always arbitrary.

Where the code differs from its comments, the model follows the code:

- `pruneConnections` says that it sorts by distance; it keeps the first M live entries in list
  order, and it never keeps the node being inserted, which is not in the map yet
  (`HnswGraph.Prune`, `HnswGraph.AppendedShape`).
- Pruning in list order can cut nodes off: insert-only runs leave the base layer connected, and a
  search for everything exact, up to 2M+1 vectors and not beyond (`HnswBound.ConnectedIff`,
  `HnswBound.ExactIff`); after deletions even two live nodes can be apart
  (`HnswBound.DeletedConnectedIff`).
- A filter that no id passes counts as no filter, so a search limited to a key that does not exist
  returns blocks of other keys (`CollectionSearch.FilterIgnored`, `CollectionSearch.AbsentKeyFindsOthers`),
  and a result count of 0 yields one result (`HnswExact.SoundSearch`). An ef below 1 acts as 1 (`LayerSearch.SearchLayer`).
- `readRecordAt` computes the position of the payload length in 32 bits, so a record whose key has
  2^32 - 4 bytes or more can be read wrongly (`RecordLog.ReaderRefusesHugeKey`; the exact condition
  is `RecordLog.ReaderExact`).
- Overlapping calls can leave the offsets of a key out of file order (`BucketOrder.OverlapReorders`;
  the exact condition is `BucketOrder.OrderIff`).
- Deleting a key leaves its postings behind, and its ids are given out again, so a later block can
  answer for a deleted block's keywords (`KeywordRuns.StaleAfterDelete`; the exact rule per query is
  `KeywordHistory.SearchInRuns`, the exact condition for all queries `KeywordHistory.SoundIff`).
- A collection posts keywords before anything validates them, and the posting key of the empty keyword
  is also the trigram "kw:", so an empty term can find a block that has the keyword "kw:"
  (`KeywordRuns.EmptyTermUnsound`; the exact condition is `KeywordIndex.MeansIffPlain`).
- Deleting a key leaves its records in the log: when the key is appended to again, the old blocks
  are read again, at the lower indexes (`VectorReads.DeletedBlockRead`; the exact conditions are
  `VectorReads.LengthAgreesIff` and, without deletes, `VectorReads.ReadsHistoryIff`).
- A collection takes a block before the log can refuse it, and keeps it (`VectorManager.AppendBlock`).
- A batch that repeats a key stores only the last block of that key that encodes
  (`VectorBatch.BatchKeepsLast`; the exact condition for storing all is `VectorBatch.StoresAllIff`).
- Partial search finds the keywords that contain the term for terms of three characters other than
  "kw:", and for no other term (`KeywordPartial.PartialExactIff`): shorter ones match whole keywords
  only (`KeywordIndex.PartialShort`), longer ones can be pieced together from several keywords.
- Deleting a node leaves it in the lists of nodes that it does not list itself
  (`HnswBound.DeletedLinks`, `HnswBound.DeadLinkRun`).
- A rebuild indexes a record whose payload was cut off, as long as its header is complete; reading it
  then fails (`RecordLog.TornTail`).

## Model

| member | source | states |
|---|---|---|
| `Heap.Push` | internal/storage/hnsw_wrapper.go:233-243 | the heap order is restored after sifting up and the contents grow by exactly the pushed candidate |
| `Heap.SiftDown` | internal/storage/hnsw_wrapper.go:233-243 | sifting the root down restores the heap order and permutes the contents |
| `Heap.Pop` | internal/storage/hnsw_wrapper.go:233-258 | removes one element that no other precedes, for the min-heap and the max-heap alike |
| `Heap.RootFirst` | internal/storage/hnsw_wrapper.go:282-304 | in a heap no element precedes position 0, which the search reads as nearest or farthest |
| `LayerSearch.SearchLayer` | internal/storage/hnsw_wrapper.go:261-321 | terminates; from a live entry returns a non-empty sorted list of at most ef distinct live nodes reachable from the entry, locally optimal: every live neighbour of a result is a result, or the list is full and none in it is farther; nothing for a dead entry |
| `LayerSearch.Explore` | internal/storage/hnsw_wrapper.go:279-313 | the main loop ends, measured by unvisited nodes plus waiting candidates, with every result expanded or too many closer ones found |
| `LayerSearch.ExpandNode` | internal/storage/hnsw_wrapper.go:286-312 | after one node is expanded all its neighbours are visited, every visited live node is settled, and the measure has not grown |
| `LayerSearch.Offer` | internal/storage/hnsw_wrapper.go:304-311 | a full result heap loses exactly one farthest element |
| `LayerSearch.Drain` | internal/storage/hnsw_wrapper.go:315-320 | the drained list is sorted and a permutation of the heap |
| `LayerSearch.ReturnsReachable` | internal/storage/hnsw_wrapper.go:279-320 | with ef at least the number of nodes, an id is returned if and only if it can be reached from the entry through live nodes of the layer |
| `LayerSearch.NearerThanEntry` | internal/storage/hnsw_wrapper.go:175-192 | the first result is live and no farther than the entry, so a descent never moves away |
| `HnswOps.SelectNeighbors` | internal/storage/hnsw_wrapper.go:324-329 | the chosen ids are the first M of the candidates' ids |
| `HnswIndex.Index.constructor` | internal/storage/hnsw_wrapper.go:64-76 | a new index is empty, without entry point, and clean |
| `HnswIndex.Index.PruneConnections` | internal/storage/hnsw_wrapper.go:354-376 | one list becomes its first M live entries in list order; nothing else changes, and nothing at all for a missing node or level |
| `HnswIndex.Index.AddConnection` | internal/storage/hnsw_wrapper.go:332-351 | a link already there changes nothing; otherwise it is appended and the list pruned when longer than 2M |
| `HnswIndex.Index.LinkSelected` | internal/storage/hnsw_wrapper.go:183-188 | the new node lists the chosen ids in order and each is offered the reverse link in that order |
| `HnswIndex.Index.LinkLevel` | internal/storage/hnsw_wrapper.go:180-192 | one level of an insertion is a level step from the layer search's results, and the next entry is the nearest of them; what that links is `HnswInsert.NearestLinked` and `HnswInsert.OlderLists` |
| `HnswIndex.Index.Descend` | internal/storage/hnsw_wrapper.go:173-176 | the greedy descent goes one layer search of size 1 per level and, from a live entry point, always ends in a live node; from a dead one it stays there |
| `HnswIndex.Index.Add` | internal/storage/hnsw_wrapper.go:142-204 | succeeds exactly for the right dimension and a new id; the new state is an insertion step, and a refusal leaves everything unchanged; what an insertion step does, list by list, is `HnswInsert.InsertionLists` |
| `HnswIndex.Index.BatchAdd` | internal/storage/hnsw_wrapper.go:207-222 | the items are inserted in turn, refused ones skipped |
| `HnswIndex.Index.RemoveConnection` | internal/storage/hnsw_wrapper.go:466-479 | exactly the target disappears from one list of the source |
| `HnswIndex.Index.UpdateEntryPoint` | internal/storage/hnsw_wrapper.go:482-493 | whatever the map order, the entry point becomes a live node of the greatest level, if there is a node |
| `HnswIndex.Index.Delete` | internal/storage/hnsw_wrapper.go:437-463 | fails exactly for an unknown id; otherwise the node is gone, the nodes it listed have forgotten it on those levels, and the entry point is repaired |
| `HnswIndex.Index.Search` | internal/storage/hnsw_wrapper.go:385-434 | refuses a wrong dimension, returns nothing without entry point or with a dead one, and otherwise the first results passing the filter of a layer search from the descended entry; under a non-empty filter every result is in it |
| `HnswGraph.AppendedShape` | internal/storage/hnsw_wrapper.go:345-350 | offering a new greatest id keeps a list's shape, never loses a live smaller id, and takes the new id in exactly when the list has fewer than 2M entries |
| `HnswGraph.PruneKeepsOlder` | internal/storage/hnsw_wrapper.go:354-376 | pruning never drops a live smaller id |
| `HnswOps.PruneSeesSameNodes` | internal/storage/hnsw_wrapper.go:362-375 | what pruning keeps depends only on which ids are live, not on any vector or distance |
| `HnswOps.LiveInOrder` | internal/storage/hnsw_wrapper.go:362-375 | pruning keeps the order of what it keeps: filtering a list in two parts is filtering each part |
| `HnswGraph.ConnectAllKeeps` | internal/storage/hnsw_wrapper.go:184-188 | the list invariant survives linking a level both ways, the new node counted as live although pruning does not see it |
| `HnswGraph.DescentKeeps` | internal/storage/hnsw_wrapper.go:174-176 | the descent ends in a live node whose level is high enough for the next layer, so its results are never empty |
| `HnswGraph.AddKeeps` | internal/storage/hnsw_wrapper.go:142-204 | an insertion with a fresh greatest id keeps the whole graph invariant |
| `HnswGraph.InsertedNodeLinked` | internal/storage/hnsw_wrapper.go:179-195 | a node that is not the first gets at least one neighbour, and only live ones, on every level up to the smaller of its level and MaxLevel |
| `HnswGraph.AddNodes` | internal/storage/hnsw_wrapper.go:195-204 | insertion adds exactly the one node and changes no other node's vector or level |
| `HnswGraph.DeleteKeeps` | internal/storage/hnsw_wrapper.go:437-479 | deletion keeps the graph invariant, removes exactly the one node, and changes no vector or level |
| `HnswGraph.RunKeeps` | internal/storage/hnsw_wrapper.go:142-493 | every run of insertions with ids above all live ids and of deletions keeps list invariant, entry invariant and field sizes |
| `HnswGraph.RunLists` | internal/storage/hnsw_wrapper.go:332-376 | after any run every list is free of duplicates and self-links, has at most 2M entries, its at most M smaller ids first; larger ids are live and link back; a dead entry is always a smaller id; live entries have the level |
| `HnswGraph.RunEntry` | internal/storage/hnsw_wrapper.go:482-493 | after any run there is an entry point exactly when there is a node; it is live and its level is MaxLevel, the greatest, at most 32 |
| `HnswInsert.InsertionLists` | internal/storage/hnsw_wrapper.go:170-204 | every insertion, level by level downwards: the level is searched on the graph as it was, from the end of the descent or from the nearest node found one level up, with width efConstruction; the new list is the first M found; levels above MaxLevel stay empty |
| `HnswInsert.NearestLinked` | internal/storage/hnsw_wrapper.go:180-188 | on every shared level the new list has min(M, found) entries, all found, and none is farther than a found node left out |
| `HnswInsert.OlderLists` | internal/storage/hnsw_wrapper.go:332-376 | on every level an older node that is listed appends the new id while it has fewer than 2M entries, otherwise keeps its first M live entries; an unlisted one is unchanged |
| `HnswInsert.CompleteIff` | internal/storage/hnsw_wrapper.go:142-204 | in every insert-only run any two nodes list each other on every level they share if and only if there are at most M+1 nodes and at most efConstruction+1 |
| `HnswInsert.DescentPath` | internal/storage/hnsw_wrapper.go:173-176 | the descent visits one node per level, each reachable on its level from the one before, no farther from the query, and without a nearer neighbour there |
| `HnswInsert.SmallDescent` | internal/storage/hnsw_wrapper.go:408-414 | with at most M+1 and efConstruction+1 inserted nodes it ends in the nearest of all nodes above its level |
| `HnswInsert.EntryMoves` | internal/storage/hnsw_wrapper.go:197-202 | the entry point becomes the new node exactly when that is above all others |
| `HnswExact.SmallRun` | internal/storage/hnsw_wrapper.go:142-204 | in an insert-only run of at most 2M+1 vectors every link is mutual and level 0 is connected (that the bound is exact is `HnswBound.ConnectedIff`) |
| `HnswExact.SoundSearch` | internal/storage/hnsw_wrapper.go:416-433 | on every index results are sorted, distinct, live, at their true distance, number at most k (one for k = 0), and are in the filter set if that is given and not empty |
| `HnswExact.SmallSearchExact` | internal/storage/hnsw_wrapper.go:385-434 | on an insert-only index of at most 2M+1 vectors, Search equals brute force over the filter set, or over all nodes if that is missing or empty: min(k, candidates) results and none left out strictly closer; for every k and filter as long as efSearch, k, or ten times k under a filter, is at least the number of vectors |
| `HnswExact.SearchWidth` | internal/storage/hnsw_wrapper.go:396-417 | the search is as wide as the index if and only if efSearch is, or k, or ten times k under a non-empty filter |
| `HnswUnlisted.StaysUnlisted` | internal/storage/hnsw_wrapper.go:179-195 | a node that no list mentions, on an index of level 0 nodes, is chosen by no later insertion, so it stays unmentioned |
| `HnswUnlisted.GrowUnlisted` | internal/storage/hnsw_wrapper.go:142-204 | a run that ends with such a node continues to any number of nodes and keeps it |
| `HnswBound.Overflow` | internal/storage/hnsw_wrapper.go:354-376 | for every M >= 1 and every efConstruction, a run of 2M+2 insertions after which node M+2 is in no list |
| `HnswBound.ConnectedIff` | internal/storage/hnsw_wrapper.go:142-204 | for every M >= 1, every efConstruction and every n: all insert-only runs that end with n nodes have a connected base layer if and only if n <= 2M+1 |
| `HnswBound.DeletedConnectedIff` | internal/storage/hnsw_wrapper.go:437-479 | with deletions allowed, if and only if n <= 1 |
| `HnswBound.DeletedLinks` | internal/storage/hnsw_wrapper.go:437-479 | a deleted id leaves, without disturbing the order, exactly the lists of the nodes it lists itself on that level, nothing else leaves any list, and the entry point moves only if it was deleted |
| `HnswBound.DeadLinkRun` | internal/storage/hnsw_wrapper.go:447-454 | for every M >= 1 and efConstruction a run after which a live node lists a dead one |
| `HnswBound.ExactIffReachable` | internal/storage/hnsw_wrapper.go:385-434 | on every index an unfiltered search for all vectors equals brute force if and only if the descended entry reaches every node of level 0 |
| `HnswBound.ExactIff` | internal/storage/hnsw_wrapper.go:385-434 | all such searches in all insert-only runs that end with n nodes equal brute force if and only if n <= 2M+1 |
| `HnswPersist.SortedIds` | internal/storage/hnsw_wrapper.go:530-535 | the ids in increasing order, each once, all of them |
| `HnswPersist.Table` | internal/storage/hnsw_wrapper.go:537-608 | the table written with wrapping 32-bit arithmetic holds the low 32 bits of the true offsets and counts |
| `HnswPersist.Save` | internal/storage/hnsw_wrapper.go:520-643 | the bytes written are header, table, vectors and lists of the index in increasing id order, and the index is clean |
| `HnswPersist.Load` | internal/storage/hnsw_wrapper.go:646-756 | on any bytes: refuses short, foreign or mismatched files and leaves the index alone, otherwise takes over exactly what the file holds; a missing file is no error |
| `HnswFile.LoadAfterSave` | internal/storage/hnsw_wrapper.go:520-756 | Load after Save gives back nodes, vectors, levels, lists, entry point and MaxLevel when every field is wide enough |
| `HnswFile.LoadIffSafe` | internal/storage/hnsw_wrapper.go:566-747 | and only then: any index comes back if and only if sizes, ids, list lengths and levels fit their fields, the level being a signed 32-bit number |
| `HnswFile.RunsAreSafe` | internal/storage/hnsw_wrapper.go:619-639 | every reachable index of fewer than 2^32 nodes fits the format, since lists have at most 2M entries and levels are at most 32 |
| `HnswFile.ReachableRoundTrip` | internal/storage/hnsw_wrapper.go:520-756 | so every reachable index of fewer than 2^32 nodes survives Save and Load |
| `HnswFile.OffsetsExact` | internal/storage/hnsw_wrapper.go:551-603 | in a file below 2^32 bytes each row's neighbour offset is the start of the neighbour section plus the blocks of all earlier nodes, and that node's own block stands there |
| `HnswFile.RowExact` | internal/storage/hnsw_wrapper.go:537-604 | in such a file the row's vector offset, counted from the vector section, leads to the node's own vector, and its neighbour count is the number of ids in the node's block |
| `HnswFile.HeadNumbers` | internal/storage/hnsw_wrapper.go:578-590 | the header holds dimension, metric byte and M at bytes 8, 12 and 32 |
| `HnswFile.MetricBytes` | internal/storage/hnsw_wrapper.go:496-518 | metric bytes 1 and 2 are cosine and inner product, every other is L2 |
| `HnswFile.OtherIndexRefuses` | internal/storage/hnsw_wrapper.go:670-686 | an index of another dimension or metric refuses the file |
| `HnswFile.ForeignFileRefused` | internal/storage/hnsw_wrapper.go:657-668 | so does every index a file shorter than 64 bytes or not beginning with HNSWV001 |
| `CollectionModel.AppendKeepsDir` | internal/storage/collection.go:307-317 | an append with a fresh greatest id keeps document map and id lists inverse to each other |
| `CollectionModel.DeleteKeepsDir` | internal/storage/collection.go:469-487 | deleting a key keeps them inverse and removes exactly the ids located under the key |
| `CollectionModel.NextIsFresh` | internal/storage/forward_index.go:97-108 | the next id is in neither the document map nor the graph and exceeds every graph id |
| `CollectionModel.NextIsLeast` | internal/storage/forward_index.go:97-108 | it is the least positive id above all ids of the document map |
| `CollectionModel.AppendTakes` | internal/storage/collection.go:290-320 | an append changes nothing exactly for a vector of a wrong dimension; otherwise the block gets the key's next index and is in the graph exactly if it has a vector |
| `CollectionModel.BatchKeeps` | internal/storage/collection.go:324-379 | a batch keeps the collection invariant although the graph is filled only at the end and may refuse vectors |
| `CollectionModel.RunKeeps` | internal/storage/collection.go:290-489 | every run of appends, failed ones included, batches and deletes keeps: the i-th id of a key maps to (key, i), ids increase, lengths agree, graph ids are among document-map ids, graph invariant |
| `Collection.Collection.constructor` | internal/storage/collection.go:138-197 | a new collection is empty |
| `Collection.Collection.GetNextVectorId` | internal/storage/forward_index.go:97-108 | one more than the greatest id, or 1 |
| `Collection.Collection.Record` | internal/storage/collection.go:307-319 | document map, postings, length and id list all gain the block, and the index returned is the old length |
| `Collection.Collection.AppendBlock` | internal/storage/collection.go:290-320 | fails exactly when the graph refuses the vector, leaving everything as it was; otherwise the state is the append step and the old length is returned |
| `Collection.Collection.RecordBatch` | internal/storage/collection.go:342-369 | the loop of a batch gives every block the next id and index and collects the vectors in order |
| `Collection.Collection.BatchAppendBlocks` | internal/storage/collection.go:324-379 | the batch step, and each result names the id and index at which its block is now located |
| `Collection.Collection.DeleteKey` | internal/storage/collection.go:460-489 | fails exactly for an unknown key; otherwise all its ids leave graph and document map, the postings stay |
| `Collection.Collection.KeyFilter` | internal/storage/collection.go:394-402 | the union of the id lists of the listed keys |
| `Collection.Collection.BuildFilter` | internal/storage/collection.go:386-408 | no set if and only if neither keys nor keywords are given; otherwise an id is in it if and only if it is listed under one of the keys, when there are keys, and in the keyword result, when there are keywords |
| `Collection.Collection.Search` | internal/storage/collection.go:382-431 | the graph's results for that filter, each turned into key, index and distance; an error for a wrong dimension, nothing without a live entry point; what the filter means is `CollectionSearch.FilterInRuns` |
| `Collection.NoOrphans` | internal/storage/collection.go:416-428 | in every reachable state no result is dropped: the i-th hit is the location of the i-th graph result, which is in the filter set if that is not empty |
| `CollectionSearch.FilterInRuns` | internal/storage/collection.go:386-408 | in every run an id is in the filter set if and only if it is live under one of the keys, when there are keys, and every keyword finds it by the documents ever posted under it, when there are keywords |
| `CollectionSearch.HitsPass` | internal/storage/collection.go:382-431 | in every run, if any id passes, every hit is a live block under one of the keys that every keyword finds, at the true distance of its vector |
| `CollectionSearch.FilterIgnored` | internal/storage/hnsw_wrapper.go:396-405 | if no id passes, the search is the unfiltered one |
| `CollectionSearch.AbsentKeyFindsOthers` | internal/storage/collection.go:394-414 | a run in which a search limited to a missing key returns the block of another |
| `CollectionSearch.GraphRun` | internal/storage/collection.go:290-379 | the graph of a collection without deletes is that of an insert-only run of the index |
| `CollectionSearch.HitsExact` | internal/storage/collection.go:382-431 | in a collection without deletes and with at most 2M+1 vectors, Search is brute force over the vectors under the keys that every keyword finds, if any passes and the search is wide enough |
| `Collection.Collection.KeywordSearch` | internal/storage/collection.go:434-457 | exactly the keys of the found ids that are still located |
| `Collection.Collection.GetBlockVectorId` | internal/storage/collection.go:502-527 | the first listed id whose location has the index |
| `Collection.BlockIdOf` | internal/storage/collection.go:502-527 | over any ordering of a key's ids that answer is the id at that position, and an error beyond the end |
| `Collection.Collection.RebuildMemoryIndexes` | internal/storage/collection.go:580-595 | whatever the map order, lists hold each id of a key once and lengths are the greatest index plus one |
| `CollectionRuns.RebuildRestores` | internal/storage/collection.go:580-595 | a rebuild restores the same lengths and the same id lists up to permutation |
| `Collection.RebuildKeepsAnswers` | internal/storage/collection.go:502-527 | GetBlockVectorID gives the same answer before and after a rebuild |
| `CollectionRebuild.RunKeeps` | internal/storage/collection.go:131-134 | every run of appends, batches, deletes and rebuilds, each working on the permuted lists a rebuild left, keeps the collection invariant up to the order of the lists |
| `CollectionRebuild.RunAgrees` | internal/storage/collection.go:580-595 | after any such run a key's list holds exactly the ids located under it, each once; its length is their number; locations are numbered in the order of the ids; graph ids are located |
| `CollectionRebuild.BlockIdInRuns` | internal/storage/collection.go:502-527 | in any such run GetBlockVectorID answers id exactly when id is located at that index of the key, and answers at all exactly below the length |
| `CollectionRebuild.SearchInRuns` | internal/storage/collection.go:416-428 | in any such run Search drops no result and the next id is new |
| `Repair.CheckConsistency` | internal/storage/repair.go:30-74 | orphans are exactly nodes minus document map and missing ids exactly document map minus nodes, each listed once |
| `Repair.DeletesKeepBasic` | internal/storage/hnsw_wrapper.go:437-493 | deletions from any state with a proper entry point and bounded lists keep both, and change no vector or level |
| `Repair.RepairOrphans` | internal/storage/repair.go:77-102 | leaves exactly the nodes that are in both, vectors and levels unchanged, a live entry point of the greatest level and lists bounded; the repaired graph is saved exactly when there was an orphan, otherwise nothing changes |
| `RecordLog.ReadsBackIffFits` | internal/storage/storage.go:237-246 | a record, whose lengths are written unchecked, parses back if and only if both lengths are below 2^32 |
| `RecordLog.RecordAt` | internal/storage/storage.go:603-657 | records tile the file: record i is parsed back at its own start and ends where record i+1 starts |
| `RecordLog.ScanFlat` | internal/storage/storage.go:617-657 | the scan of a file of complete records finds every record at its own offset, in order |
| `RecordLog.EncParts` | internal/storage/storage.go:139-166 | a record is key length, key, payload length and payload, the lengths in four big-endian bytes |
| `RecordLog.TornTail` | internal/storage/storage.go:603-657 | of a file cut off inside its last record the rebuild finds every complete record, and the torn one if and only if its header is whole; reading the torn one always fails |
| `RecordLog.RebuildIndex` | internal/storage/storage.go:603-659 | on any file, torn ones included, the loop builds the index of the scan's entries |
| `RecordLog.ReadRecordAt` | internal/storage/storage.go:475-540 | the buffered reader, on every path, at any offset of any file, decompresses what a parse without buffer finds, with the length position computed in 32 bits |
| `RecordLog.ReaderAgrees` | internal/storage/storage.go:475-540 | that equals the plain three-field parse, complete record or not, whenever the key length is below 2^32 - 4 |
| `RecordLog.ReaderWraps` | internal/storage/storage.go:494-517 | for longer keys the length is taken from the record's first bytes; on any file the reader is right exactly when that is the payload's length, or when both lengths reach beyond the file |
| `RecordLog.ReaderExact` | internal/storage/storage.go:475-540 | on a complete record the reader returns the payload if and only if the key is below 2^32 - 4 bytes or the four bytes at the wrapped position hold the payload length |
| `RecordLog.ReadWritten` | internal/storage/storage.go:237-246 | a record written with a short key reads back as its payload cut to its length modulo 2^32 |
| `RecordLog.ReaderRefusesHugeKey` | internal/storage/storage.go:505-512 | a complete record that the reader refuses |
| `BucketProtocol.RunConserves` | internal/storage/storage.go:139-297 | in every interleaving, per key, indexed plus pending offsets are the offsets of the records written, and the lock excludes other writers |
| `BucketProtocol.IndexMatchesScan` | internal/storage/storage.go:139-297 | in every interleaving the file is the records without gaps, and indexed plus pending offsets are, as multisets, what a rebuild finds |
| `BucketProtocol.QuiescentIndex` | internal/storage/storage.go:292-297 | when all calls have returned, the index holds the same keys and per key the same offsets as a rebuild, up to order |
| `BucketOrder.StepOrder` | internal/storage/storage.go:139-297 | a step keeps the offsets of a key in order exactly when it does not index an offset while another call holds a smaller one, and no step restores a lost order |
| `BucketOrder.OrderIff` | internal/storage/storage.go:290-297 | once all calls have returned, the offsets of a key are in the order a rebuild gives if and only if no call indexed its offset ahead of a smaller one still held by another |
| `BucketOrder.ApartIndexExact` | internal/storage/storage.go:139-297 | calls on one key that do not overlap each other leave its index exact, whatever calls on other keys do |
| `BucketOrder.SerialIndexExact` | internal/storage/storage.go:139-177 | when no calls overlap at all the index equals the rebuilt one, order included |
| `BucketOrder.OverlapReorders` | internal/storage/storage.go:290-297 | an overlapping run that ends with a key's offsets out of order |
| `Storage.Manager.constructor` | internal/storage/storage.go:43-72 | sixteen empty buckets |
| `Storage.Manager.Append` | internal/storage/storage.go:125-183 | succeeds exactly for key lengths 1 to 1024 and compressed sizes below the maximum of int32; one record is appended to the key's bucket and indexed at its start; a refusal changes nothing |
| `Storage.Manager.WriteBucket` | internal/storage/storage.go:257-297 | one bucket's share of a batch is appended in order and the index then equals that of the longer log |
| `Storage.Manager.BatchAppend` | internal/storage/storage.go:187-306 | every key of the batch gains exactly its compressed payload at the end, every other key nothing, whatever the map order |
| `Storage.BatchIndex` | internal/storage/storage.go:268-296 | with distinct keys the map order of the index update does not matter |
| `Storage.Manager.Get` | internal/storage/storage.go:308-321 | what reading at the i-th indexed offset of the key gives, whatever the log holds; an error beyond the end |
| `Storage.Manager.GetLength` | internal/storage/storage.go:323-328 | the number of payloads stored for the key |
| `Storage.Manager.GetAllValues` | internal/storage/storage.go:423-444 | all those readings in order; an error for an unknown key or if one fails |
| `Storage.ReadBack` | internal/storage/storage.go:308-321 | a payload below 2^32 bytes under a short key is read back whole and decompressed, whatever else the bucket holds, and nothing is read beyond the last |
| `Storage.AllReadBack` | internal/storage/storage.go:423-444 | with a lossless compressor all values of a key come back in order |
| `Storage.ReadIndexed` | internal/storage/storage.go:308-321 | the i-th indexed offset of a key leads to the i-th payload stored for it, cut to its length modulo 2^32 |
| `Storage.RebuildMatches` | internal/storage/storage.go:603-657 | the index in memory equals the one a rebuild of the file would give |
| `Levenshtein.LevenshteinDistance` | internal/storage/keyword_index.go:280-322 | the matrix computation gives the recursive prefix distance |
| `Levenshtein.Achievable` | internal/storage/keyword_index.go:313-317 | that many insertions, deletions and substitutions turn one string into the other |
| `Levenshtein.Minimal` | internal/storage/keyword_index.go:313-317 | and no fewer edits, made anywhere and in any order, do |
| `Levenshtein.Symmetric` | internal/storage/keyword_index.go:280-322 | the distance is symmetric |
| `Levenshtein.ZeroIffEqual` | internal/storage/keyword_index.go:280-322 | it is zero exactly on equal strings |
| `Levenshtein.Triangle` | internal/storage/keyword_index.go:280-322 | it satisfies the triangle inequality |
| `KeywordIndex.GenerateTrigrams` | internal/storage/keyword_index.go:29-42 | the windows of three characters in order; a shorter keyword is its own trigram |
| `KeywordIndex.InvertedIndex.constructor` | internal/storage/keyword_index.go:20-25 | a new index has no postings |
| `KeywordIndex.InvertedIndex.Add` | internal/storage/keyword_index.go:45-58 | the id is posted under every trigram and under "kw:" plus each keyword (once, by `KeywordCase.PostedOnce`) |
| `KeywordIndex.InvertedIndex.ScanKeys` | internal/storage/keyword_index.go:113-122 | whatever the map order, the ids of exactly the accepted keywords |
| `KeywordIndex.InvertedIndex.MeetTrigrams` | internal/storage/keyword_index.go:149-160 | the ids posted under all trigrams of the term |
| `KeywordIndex.InvertedIndex.Search` | internal/storage/keyword_index.go:209-222 | the intersection of the terms' candidates in the mode; no terms give no set; what the candidates are is `KeywordCase.ExactFindsGiven` and its companions |
| `KeywordIndex.Intersect` | internal/storage/bitset.go:83-108 | walking the smaller set gives the intersection |
| `KeywordIndex.FromSlice` | internal/storage/bitset.go:23-29 | the set of the slice's elements |
| `KeywordIndex.KwKeysApart` | internal/storage/keyword_index.go:52-56 | "kw:" plus the keyword is a keyword's only key with that prefix if and only if "kw:" is none of its trigrams |
| `KeywordIndex.SharedKey` | internal/storage/keyword_index.go:45-58 | "kw:" itself is posted for a keyword if and only if the keyword is empty or has that trigram, and so never for a valid one |
| `KeywordIndex.SearchAnswers` | internal/storage/keyword_index.go:76-222 | after any add-only history of any keywords every mode returns exactly the ids that every term finds, the shared key included |
| `KeywordIndex.SearchMeans` | internal/storage/keyword_index.go:76-206 | for every id that has the empty keyword and the trigram "kw:" both or neither, as with valid keywords, every mode returns it exactly when every term holds of it by its definition |
| `KeywordIndex.MeansIffPlain` | internal/storage/keyword_index.go:76-206 | that condition is exact: every mode and term means its definition for an id if and only if the id meets it |
| `KeywordIndex.EmptyTermFinds` | internal/storage/keyword_index.go:76-98 | a document with the keyword "kw:" is found by an exact search for the empty keyword |
| `KeywordIndex.PartialComplete` | internal/storage/keyword_index.go:135-170 | partial search misses no keyword containing a term of three or more characters |
| `KeywordIndex.PartialExactAtThree` | internal/storage/keyword_index.go:135-170 | for three characters it finds exactly the ids with a keyword containing the term |
| `KeywordIndex.PartialShort` | internal/storage/keyword_index.go:31-34 | below three characters it finds exactly the ids carrying the term as a whole keyword |
| `KeywordIndex.ExactIsStrongest` | internal/storage/keyword_index.go:76-206 | an exact match is found by every other mode |
| `KeywordIndex.CloseZeroIsExact` | internal/storage/keyword_index.go:173-206 | Levenshtein search at distance 0 equals exact search |
| `KeywordIndex.CloseGrows` | internal/storage/keyword_index.go:190-194 | a larger distance loses no result |
| `KeywordCase.SearchIgnoresCase` | internal/storage/keyword_index.go:76-206 | queries that differ at most in the case of ASCII letters have the same result, in every mode and on every index |
| `KeywordCase.AddIgnoresCase` | internal/storage/keyword_index.go:45-58 | keywords that differ at most in case are posted under the same keys |
| `KeywordCase.ExactFindsGiven` | internal/storage/keyword_index.go:76-98 | a non-empty exact term finds an id if and only if the id was given that keyword, in any case |
| `KeywordCase.PrefixFindsGiven` | internal/storage/keyword_index.go:100-132 | a prefix term finds an id if and only if the id was given a keyword that begins with it, in any case |
| `KeywordCase.CloseFindsGiven` | internal/storage/keyword_index.go:172-206 | a Levenshtein term finds an id if and only if the id was given a keyword within the distance, one with the trigram "kw:" counting as empty too |
| `KeywordCase.PostedOnce` | internal/storage/keyword_index.go:45-58 | no posting list names an id twice |
| `KeywordPartial.PartialExactIff` | internal/storage/keyword_index.go:134-170 | partial search finds exactly the ids with a keyword that contains the term, after every history, if and only if the term has three characters and is not "kw:" |
| `KeywordRuns.RunPostings` | internal/storage/collection.go:311-313 | in every run each live block is posted under all its keys; without deletes nothing else is posted |
| `KeywordRuns.ExactNeverMisses` | internal/storage/collection.go:434-457 | in every run, deletes and reused ids included, exact search returns every key that has a live block with all query keywords |
| `KeywordRuns.ExactSoundWithoutDeletes` | internal/storage/collection.go:434-457 | in a run without deletes it returns no other key, for every query of non-empty terms and whatever keywords the blocks have |
| `KeywordRuns.EmptyTermUnsound` | internal/storage/collection.go:311-313 | for an empty term that is false: a run without deletes in which a key is returned although no block has the empty keyword |
| `KeywordRuns.StaleAfterDelete` | internal/storage/collection.go:473-483 | a run with a delete after which a key is returned although no live block carries the keyword |
| `KeywordHistory.RunHasDocs` | internal/storage/collection.go:310-313 | every run has its list of documents posted: one per block taken in, none for a refused block or a delete |
| `KeywordHistory.RunPosted` | internal/storage/collection.go:473-483 | the postings after any run are those of all documents ever posted; deletes remove none |
| `KeywordHistory.SearchInRuns` | internal/storage/collection.go:434-457 | in every run, whatever keywords were posted, and in every mode a key is returned if and only if every term finds one of its live ids by the documents ever posted under that id |
| `KeywordHistory.SoundIff` | internal/storage/collection.go:434-489 | after any run, deletes included, exact search is sound for every query if and only if for each live id some live block of the same key has every keyword ever posted under that id |
| `EntryCodec.FlagsRoundTrip` | internal/types/vector_types.go:73-91 | flags come back with the data type cut to three bits, unchanged exactly when it is below 8 |
| `EntryCodec.EncodeKeywords` | internal/storage/entry.go:78-111 | the keyword block, or an error exactly for too many, invalid or too long keywords (spelled out by `EntryBytes.KeywordsEncodeIff` and `EntryBytes.KeywordAt`) |
| `EntryCodec.DecodeKeywords` | internal/storage/entry.go:114-140 | on any bytes the parse of the block, with missing lengths refused and short reads padded with zeros, as the reader does |
| `EntryCodec.KeywordsRoundTrip` | internal/storage/entry.go:78-140 | a block that encodes decodes to the keywords in lower case (letter by letter in `EntryBytes.DecodedKeywords`) |
| `EntryCodec.EncodeEntry` | internal/storage/entry.go:143-193 | fails exactly for bad keywords or a key over 65535 bytes; otherwise the layout with the checksum of the bytes whose checksum field is zero |
| `EntryCodec.DecodeEntry` | internal/storage/entry.go:220-266 | on arbitrary bytes it never slices out of range and gives the parsed entry or an error; it succeeds only if the stored checksum is that of the bytes with the checksum field cleared |
| `EntryBytes.LowerIffSame` | internal/storage/entry.go:72-74 | two strings are equal in lower case if and only if they differ at most by 65..90 against 97..122 at the same positions |
| `EntryBytes.EncodeIgnoresCase` | internal/storage/entry.go:78-111 | keywords that differ at most in case encode to the same bytes or are refused together |
| `EntryBytes.DecodedKeywords` | internal/storage/entry.go:89-140 | decoded keywords equal the encoded ones but for capitals, which come back small |
| `EntryBytes.KeywordsEncodeIff` | internal/storage/entry.go:58-111 | keywords encode if and only if each has 1 to 128 ASCII letters, digits, underscores or dashes and count and total size fit 16 bits |
| `EntryBytes.KeywordAt` | internal/storage/entry.go:78-111 | the count stands in the first two bytes and each keyword, in lower case, behind its length |
| `EntryBytes.CutKeyword` | internal/storage/entry.go:114-140 | a keyword cut off by the end of the block is filled up with zeros; nothing behind a length is an error |
| `EntryBytes.FlagBits` | internal/types/vector_types.go:81-91 | bits 0-2 hold the data type, bit 3 the compression, bit 4 the tombstone |
| `EntryBytes.EntryEncodesIff` | internal/storage/entry.go:143-157 | an entry encodes if and only if its keywords do and its key has at most 65535 bytes |
| `EntryBytes.EncodedBytes` | internal/storage/entry.go:143-193 | which header field, checksum and section stands at which byte of an encoded entry |
| `EntryBytes.DecodesIff` | internal/storage/entry.go:196-266 | any bytes decode if and only if the header is there, the checksum holds, the sections lie within the data and the keyword block parses |
| `EntryBytes.DecodedSections` | internal/storage/entry.go:236-266 | and then flags, key, keywords and data are those sections |
| `EntryBytes.DamageRefused` | internal/storage/entry.go:226-234 | an entry damaged outside its checksum field is refused by every checksum that tells it from the original |
| `EntryBytes.DamagedChecksumRefused` | internal/storage/entry.go:226-234 | an entry damaged in its checksum field alone is refused by every checksum |
| `EntryCodec.EntryRoundTrip` | internal/storage/entry.go:143-266 | every entry that encodes decodes to itself with lower-case keywords, for any checksum function |
| `EntryCodec.RoundTripIffFits` | internal/storage/entry.go:159-162 | that holds if and only if both data lengths are below 2^32 |
| `EntryCodec.ReEncode` | internal/storage/entry.go:143-193 | encoding the decoded entry gives identical bytes |
| `EntryCodec.CalculateTotalSize` | internal/storage/entry.go:269-276 | the length of the layout for every key, which is that of the encoding whenever the entry encodes; an error exactly for bad keywords |
| `EntryCodec.VectorIdRoundTrip` | internal/storage/forward_index.go:111-123 | a 64-bit id comes back from its eight bytes |
| `VectorStore.StorageKeyInjective` | internal/storage/vector_manager.go:122-124 | collection names without a colon make storage keys unambiguous |
| `VectorStore.LogTakesIff` | internal/storage/vector_manager.go:158-167 | the log takes an entry if and only if name, colon and key have at most 1024 bytes, the entry encodes, and its compressed size is below 2^31 - 1 |
| `VectorStore.StoredEntry` | internal/storage/vector_manager.go:147-156 | a stored entry has the key, data type 1 exactly for a block with a vector, neither flag, and the id in its secondary data |
| `VectorStore.GetBlockReturns` | internal/storage/vector_manager.go:251-285 | when records match a list of blocks and ids, GetBlock on a live key gives the i-th block's primary data and lower-case keywords with the vector now under its id, and an error beyond the end or for a key that is not live |
| `VectorBatch.BatchKeepsLast` | internal/storage/vector_manager.go:228-235 | of several blocks of a batch under one key the log gets the last that encodes |
| `VectorBatch.StoresAllIff` | internal/storage/vector_manager.go:211-236 | a batch puts every block in the log if and only if its keys are distinct and every block encodes |
| `VectorBatch.BatchRecord` | internal/storage/vector_manager.go:211-240 | the record a batch adds for a key is that of the one block it stores for the key, and it adds none if it stores none |
| `VectorBatch.BatchedPresent` | internal/storage/hnsw_wrapper.go:207-222 | a vector of a batch is in the graph afterwards, under its id, if and only if it has the right dimension |
| `VectorBatch.ManyColl` | internal/storage/collection.go:324-379 | any batch, repeated keys and refused vectors included, keeps the collection invariant and the match of blocks and vectors |
| `VectorRuns.RunKeeps` | internal/storage/vector_manager.go:122-248 | every run of appends, batches and deletes over several collections, refused and failed appends and repeated keys included, keeps per collection and key the records in step with all blocks ever stored, and the live ids, blocks and vectors with the last blocks taken |
| `VectorReads.BlocksEverRead` | internal/storage/vector_manager.go:366-371 | in every such run GetBlock(c, k, i) on a live key gives primary data and keywords of the i-th block ever stored for (c, k), deleted ones included, and nothing beyond; the vector of a block taken since the last delete is the one kept of it, that of any other is whatever its id now has; the key length is the number of blocks taken since |
| `VectorReads.LiveBlocksRead` | internal/storage/vector_manager.go:251-285 | a stored block taken since the last delete comes back as it was kept, at the index that counts all blocks stored before it |
| `VectorReads.LengthAgreesIff` | internal/storage/vector_manager.go:307-313 | GetBlock succeeds for exactly the indexes below the key length if and only if as many blocks were ever stored as are live, or none is live |
| `VectorReads.ReadsHistoryIff` | internal/storage/vector_manager.go:127-175 | as long as the key is not deleted, GetBlock(c, k, i) gives the i-th block taken for every i, and nothing beyond, if and only if every block taken was also stored |
| `VectorReads.DeletedBlockRead` | internal/storage/vector_manager.go:356-372 | append, delete, append: the key has length 1, index 0 gives the deleted block and index 1 the live one |
| `VectorReads.BlocksReadBack` | internal/storage/vector_manager.go:251-285 | as long as vectors fit, the key is not deleted and its blocks are stored, GetBlock(c, k, i) is the i-th block appended to (c, k) with its own vector, and nothing beyond, for any hash and any lossless compressor |
| `VectorManager.VectorManager.constructor` | internal/storage/vector_manager.go:22-60 | a manager without collections over a given log |
| `VectorManager.VectorManager.StoreBlock` | internal/storage/vector_manager.go:147-167 | succeeds exactly when the entry encodes and the log accepts key and size; then the block's record is added, otherwise the log is unchanged |
| `VectorManager.VectorManager.AppendToCollection` | internal/storage/vector_manager.go:137-145 | the collection's append step; the id found again under the new index is the new block's |
| `VectorManager.VectorManager.AppendBlock` | internal/storage/vector_manager.go:127-175 | the collection always makes its append step; success exactly when the vector is accepted and the log takes the entry; a failure leaves the log unchanged; whatever the outcome, with sizes that fit their fields the state is an append step of the whole store |
| `VectorManager.VectorManager.EncodeBatch` | internal/storage/vector_manager.go:211-236 | the map handed to the log, and a success mark exactly for the blocks that encode |
| `VectorManager.VectorManager.BatchAppendBlocks` | internal/storage/vector_manager.go:178-248 | the collection makes its batch step and the log gains the encoded entries by key, whatever keys repeat or vectors are refused; with sizes that fit their fields that is a batch step of the whole store |
| `VectorManager.VectorManager.DeleteKey` | internal/storage/vector_manager.go:356-372 | fails exactly for an unknown collection or key; the collection makes its delete step and the log stays as it is, which is a delete step of the whole store |
| `VectorManager.VectorManager.GetBlock` | internal/storage/vector_manager.go:251-285 | reading through log, codec and graph gives the specified block for every log, and an error for an unknown collection or key |

## Left out

- Write-ahead log: logging, replay and restart recovery; the appends are modelled after the log call.
- `Manager.Update`, `Manager.DeleteKey`, `SearchGlobal`, `GetKeys`, `Snapshot`, and the vector manager's `GetKey`, `GetVector` and stubs.
- Collection creation, deletion and listing, `meta.json`, gob persistence of document map, postings and bucket indexes, directories, sync and I/O errors; a write either happens whole or not at all.
- Failed preparation and partial writes inside `BatchAppend`.
- zstd, BLAKE3, CRC32: arbitrary functions as described above.
- Floating point: a distance is any function into the reals, so NaN and rounding are not modelled; vector components are 32-bit patterns.
- `randomLevel` probabilities: the level is given.
- Search width and result counts below zero: counts are naturals.
- Nodes are values in a map; aliasing of a node's slices is not modelled. Heaps are sequences.
- Wrap-around of 64-bit vector ids and of 32-bit block indexes: both are naturals. The theorems about the file, about blocks read back and about exact search of a collection ask for ids below 2^64.
- Non-ASCII keywords and queries: lower-casing and trigrams are by byte.
- `InvertedIndex.Delete`, which no modelled operation calls, and the bit set operations that searches do not use.
- The four keyword search methods share one loop over terms in the model; an unknown mode name is exact mode.
- VectorRuns.RunKeeps and the lemmas of `VectorReads`: runs have collection names without a colon, as the storage key requires, and stored entries whose sizes fit their fields (primary data, storage keys and payloads below 2^32 bytes, ids below 2^64); beyond that `EntryCodec.RoundTripIffFits` and `RecordLog.ReadsBackIffFits` say what one entry or record loses.
- Runs with rebuilds: `CollectionRebuild` is about the collection's indexes; the keyword theorems are stated for runs without a rebuild, which does not touch postings.
- Network, transaction, logger, server, protocol definitions and clients: request handling without state of its own.
