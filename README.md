# A verified model of the vector database core

This project is a Dafny model of the sequential core of a Go vector database and of its Python gRPC client.
It covers these parts:

- **HNSW index.** The node type and the index: a table of nodes, an entry point and per-layer degree caps. Insert chooses neighbours and prunes back-links (as the pruning is evidently meant to work: see "## Findings"); Search, KNNSearch, GetVector, Delete and Update are included, as are the sequential and buffered batch inserts.
- **NSG and DiskANN.** The NSG neighbour lists, and the DiskANN in-memory graph with its capacity bound.
- **Search package.** The LRU query cache, metadata filter evaluation and the filter builders, the tokenizer, the BM25 inverted index (add, replace, remove, search), hybrid rank fusion (RRF and weighted), and the insertion sort both searches use.
- **Tenants.** Quotas, usage counters and the per-second rate limit.
- **Server configuration.** Defaults, environment overrides, validation and the listen address.
- **gRPC handlers.** Validation, the efSearch default, the Delete and Update decisions, BatchInsert accounting, and the conversion of protobuf filters to filter trees, with list values boxed as the source passes them or spread as intended (see "## Findings").
- **REST handlers.** Path parsing, request building and response mapping.
- **Python client.** Request building, defaults, response mapping and the batch summary.
- **Quantizers.** The product quantizer and the ScaNN anisotropic quantizer: training structure, encode and decode, and their serialized byte layouts.
- **Logging.** Levels, field merging and the entry text.

Code that changes state in place is modelled as classes whose methods carry `modifies` clauses; this covers the caches, indexes, graphs, tenants, loggers and quantizers. Each such method is proved against a function on values. Pure code is modelled as functions and lemmas; this covers the filters, tokenizer, fusion scores, configuration, handlers and log levels.

Some inputs the model cannot compute become parameters:

- floating-point distances, k-means, BM25 term weights and the HNSW layer searches;
- the random level of a new node;
- the clock, the environment, the gRPC stub and the outcomes of calls into the indexes.

Distances and scores are reals. Integers are unbounded, and wrap-around is written out for `uint32(x)`, `1 << b` on a 64-bit int, and the int64 sums and differences of the tenant quota checks and vector counter.

## Model

| member | source | states |
|---|---|---|
| NeighborLists.FirstIndex | pkg/hnsw/node.go:81-82 | the position the removal loop stops at holds the neighbour, and no earlier position does |
| NeighborLists.AppendNew | pkg/hnsw/node.go:61-68 | the list afterwards holds exactly the old ids plus the new one, the old list is a prefix of it, it grows by at most one, and a duplicate-free list stays duplicate-free |
| NeighborLists.SwapRemoveCount | pkg/hnsw/node.go:80-88 | removal takes out exactly one copy of the id as a multiset, shortens the list by one when the id is present, and leaves it unchanged when absent |
| NeighborLists.SwapRemoveNoDup | pkg/hnsw/node.go:80-88 | on a duplicate-free list the id is gone afterwards and no duplicate appears |
| NeighborLists.SwapRemoveKeeps | pkg/hnsw/node.go:80-88 | removal never adds an id, keeps every other id, never lengthens the list, and keeps it duplicate-free |
| NeighborLists.Contains | pkg/hnsw/node.go:62-66 | the membership loop finds the id exactly when it is in the list |
| NeighborLists.RemoveBySwap | pkg/hnsw/node.go:81-87 | the search loop followed by swap-with-last and truncation computes SwapRemove |
| HnswNode.Vertex.Neighbors | pkg/hnsw/node.go:92-104 | a layer outside 0..level reads as the empty list |
| HnswNode.Vertex.AddNeighbor | pkg/hnsw/node.go:53-69 | on a layer in range the list becomes AppendNew of the old one; every other layer and the id, vector and level are unchanged; an out-of-range layer changes nothing |
| HnswNode.Vertex.RemoveNeighbor | pkg/hnsw/node.go:72-89 | on a layer in range the list becomes SwapRemove of the old one; other layers unchanged; an out-of-range layer changes nothing |
| HnswNode.Vertex.SetNeighbors | pkg/hnsw/node.go:107-118 | on a layer in range the list becomes the given one; other layers unchanged; an out-of-range layer changes nothing |
| HnswNode.NewVertex | pkg/hnsw/node.go:22-35 | a new node has the given id, vector and level and an empty list on each layer 0..level |
| HnswNode.Node.constructor | pkg/hnsw/node.go:22-35 | the node object starts as NewVertex |
| HnswNode.Node.AddNeighbor | pkg/hnsw/node.go:53-69 | the node's value afterwards is Vertex.AddNeighbor of its old value |
| HnswNode.Node.RemoveNeighbor | pkg/hnsw/node.go:72-89 | the node's value afterwards is Vertex.RemoveNeighbor of its old value |
| HnswNode.Node.GetNeighbors | pkg/hnsw/node.go:92-104 | returns a copy of the list at the layer, empty outside 0..level |
| HnswNode.Node.SetNeighbors | pkg/hnsw/node.go:107-118 | the node's value afterwards is Vertex.SetNeighbors of its old value |
| HnswNode.Node.NeighborCount | pkg/hnsw/node.go:121-130 | the length of the list at the layer, 0 outside 0..level |
| HnswNode.Node.HasNeighbor | pkg/hnsw/node.go:133-147 | true exactly when the layer is in range and its list holds the id |
| HnswNode.Node.GetAllNeighbors | pkg/hnsw/node.go:151-163 | the result has exactly the non-empty layers in range as keys, each mapped to its list |
| NsgNode.Node.constructor | pkg/nsg/node.go:21-27 | a new node has the given id and vector and no neighbours |
| NsgNode.Node.AddNeighbor | pkg/nsg/node.go:40-52 | the list becomes AppendNew of the old one |
| NsgNode.Node.RemoveNeighbor | pkg/nsg/node.go:55-68 | the list becomes SwapRemove of the old one |
| NsgNode.Node.GetNeighbors | pkg/nsg/node.go:71-79 | returns a copy of the list |
| NsgNode.Node.SetNeighbors | pkg/nsg/node.go:82-89 | the list becomes the given one |
| NsgNode.Node.NeighborCount | pkg/nsg/node.go:92-97 | the length of the list |
| NsgNode.Node.HasNeighbor | pkg/nsg/node.go:100-110 | true exactly when the list holds the id |
| HnswSelect.SelectNeighbors | pkg/hnsw/insert.go:196-212 | when there are at most M candidates every candidate id is returned in order, otherwise exactly the ids of the first M candidates |
| HnswSelect.ArgMin | pkg/hnsw/insert.go:248-256 | the index the strict `<` scan finds holds a smallest distance, and every earlier index is strictly farther |
| HnswSelect.FirstClosest | pkg/hnsw/insert.go:248-256 | the inner scan loop returns exactly that first closest index |
| HnswSelect.SelectClosest | pkg/hnsw/insert.go:244-262 | the outer selection loop produces exactly the ids of the repeated closest-first selection |
| HnswSelect.PruneSelectSize | pkg/hnsw/insert.go:247-262 | the selection keeps min(M, n) records, and kept plus left-over records are exactly the input as a multiset |
| HnswSelect.PruneSelectClosest | pkg/hnsw/insert.go:247-262 | every kept record is at least as close as every record left out |
| HnswSelect.PruneSelectIds | pkg/hnsw/insert.go:247-262 | every kept id is an input id, and duplicate-free input ids give duplicate-free kept ids |
| HnswSelect.EntriesAsWritten | pkg/hnsw/insert.go:232-239 | one record per neighbour: the neighbour with its distance when its node is found, the zero record (id 0, distance 0) when it is not |
| HnswSelect.Entries | pkg/hnsw/insert.go:232-239 | the records hold exactly the neighbours whose node is found, each with its true distance, without duplicates when the list has none |
| HnswSelect.PruneKeepsNeighbors | pkg/hnsw/insert.go:215-266 | pruning leaves a short list alone, cuts a long one to at most M ids, introduces no id that was not a neighbour, and keeps the list duplicate-free |
| HnswSelect.PruneKeepsClosest | pkg/hnsw/insert.go:241-262 | among the resolved neighbours the kept ones are the M closest: none left out is strictly closer than one kept |
| HnswSelect.PruneAsWrittenPhantom | pkg/hnsw/insert.go:232-239 | with neighbours [5, 7] of which 7 cannot be found, the code as written keeps id 0, which was never a neighbour |
| HnswUnlink.UnlinkEach | pkg/hnsw/search.go:212-218 | dropping the deleted id from each listed neighbour keeps the node table's keys, every node's id, vector, level and number of layers |
| HnswUnlink.UnlinkLayers | pkg/hnsw/search.go:211-219 | the loop over all layers of the deleted node keeps the table's keys and every node's shape |
| HnswUnlink.RemoveShrinks | pkg/hnsw/node.go:72-89 | one removal only takes copies of the id off one list: nothing arrives, nothing else leaves, duplicate-freedom is kept |
| HnswUnlink.UnlinkEachFrame | pkg/hnsw/search.go:212-218 | a node not named on the layer's list is left exactly as it was |
| HnswUnlink.UnlinkEachShrinks | pkg/hnsw/search.go:212-218 | every node only loses copies of the deleted id |
| HnswUnlink.UnlinkEachRemoves | pkg/hnsw/search.go:212-218 | every named node that exists no longer lists the deleted id on that layer, given duplicate-free lists |
| HnswUnlink.UnlinkLayersFrame | pkg/hnsw/search.go:211-219 | a node named on none of the deleted node's lists is left exactly as it was |
| HnswUnlink.UnlinkLayersShrinks | pkg/hnsw/search.go:211-219 | over all layers every node only loses copies of the deleted id |
| HnswUnlink.UnlinkLayersRemoves | pkg/hnsw/search.go:211-219 | after all layers, a node the deleted node listed on layer l no longer lists the deleted id on l |
| HnswIndex.DefaultConfig | pkg/hnsw/index.go:42-48 | the default configuration has M = 16 and efConstruction = 200 |
| HnswIndex.CountLayers | pkg/hnsw/index.go:151-153 | the inner loop adds one to the count of each layer 0..level and leaves every other layer's count as it was |
| HnswIndex.CountPerLayer | pkg/hnsw/index.go:149-154 | after the loop over the node table, layer l is present exactly when some node reaches it, and its count is the number of nodes whose level is at least l |
| HnswIndex.OnlyAddsUpdate | pkg/hnsw/insert.go:96-105 | replacing one node by one of the same shape whose lists gain at most the new id keeps "existing lists gain at most the new id" |
| HnswIndex.OnlyAddsFresh | pkg/hnsw/insert.go:113-115 | a node joining under a fresh key leaves every existing node as it was |
| HnswIndex.Index.IndexOkUnlinked | pkg/hnsw/search.go:210-219 | Delete's unlinking keeps the index invariant: no key, level, entry point or top layer changes |
| HnswIndex.Index.IndexOkRemove | pkg/hnsw/search.go:221-240 | removing the node, with a highest remaining node as new entry point when it was the entry point, keeps the index invariant with one node fewer |
| HnswIndex.Index.constructor | pkg/hnsw/index.go:51-81 | a zero M or efConstruction takes the default 16 or 200, M0 is 2M, the index is empty with no entry point and top layer -1 |
| HnswIndex.Index.Size | pkg/hnsw/index.go:98-102 | the size is the number of nodes in the table |
| HnswIndex.Index.EntryPoint | pkg/hnsw/index.go:126-130 | there is no entry point exactly when the index is empty; otherwise it is a stored node on the top layer, and no node is higher |
| HnswIndex.Index.GetNode | pkg/hnsw/index.go:119-123 | a node is returned exactly when the id is in the table, and it is that id's node |
| HnswIndex.Index.GetStats | pkg/hnsw/index.go:144-165 | size, dimension, top layer, M, M0 and efConstruction are reported as stored; layers 0..maxLayer are reported, each with the number of nodes at least that high |
| HnswIndex.Index.PruneNeighbors | pkg/hnsw/insert.go:215-266 | the neighbour's list is replaced by its corrected pruning, where the node being inserted counts as resolvable, and nothing else in the table changes |
| HnswIndex.Index.PrunedNeighbour | pkg/hnsw/insert.go:99-103 | with the corrected pruning, where the new node counts as resolvable: adding the new id to a neighbour's list and pruning it keeps the neighbour's shape, its lists within the caps and duplicate-free, and admits no id but the new one |
| HnswIndex.Index.Link | pkg/hnsw/insert.go:96-105 | one linking step: the new node lists the neighbour, the neighbour lists the new node and is pruned, the table keeps its keys and the invariant |
| HnswIndex.Index.LinkLayer | pkg/hnsw/insert.go:93-105 | on one layer the new node ends up listing exactly the selected neighbours that exist, and its other layers are untouched |
| HnswIndex.Index.LinkLayers | pkg/hnsw/insert.go:83-111 | on every layer up to the new node's level the node lists exactly the selected candidates that exist, with lists within the caps |
| HnswIndex.Index.Attach | pkg/hnsw/insert.go:113-124 | the node joins the table, the size grows by one, and it becomes the entry point when the table had none or its level is above the top layer |
| HnswIndex.Index.Reserve | pkg/hnsw/insert.go:17-28 | the first vector fixes the dimension, and the new node takes the next id, which is not yet in the table |
| HnswIndex.Index.AddFirst | pkg/hnsw/insert.go:36-44 | into an empty index, the node is the only node, the entry point and the top layer |
| HnswIndex.Index.AddLinked | pkg/hnsw/insert.go:46-127 | into a non-empty index, the node is linked on each layer up to its level, joins the table, and becomes the entry point when its level is above the top layer |
| HnswIndex.Index.Insert | pkg/hnsw/insert.go:10-127 | an empty vector or one of the wrong dimension is refused and changes nothing; otherwise the node gets the next id, is linked with the selected candidates that exist, existing lists gain at most its id, and the entry point moves when it reaches above the top layer |
| HnswIndex.InsertPruneAsWritten | pkg/hnsw/insert.go:96-115 | as written, a neighbour pruned before the new node is in the table drops its back-link to the new node and gains id 0; the corrected pruning keeps the back-link |
| HnswIndex.Index.Search | pkg/hnsw/search.go:25-104 | the four error cases, with their messages in the order they are checked; otherwise the first min(k, n) candidates of the bottom-layer search run with ef = max(efSearch, k) |
| HnswIndex.Index.KNNSearch | pkg/hnsw/search.go:175-181 | Search with efSearch = max(2k, 50) |
| HnswIndex.Index.GetVector | pkg/hnsw/search.go:184-197 | the stored vector, of the index's dimension, or a not-found error |
| HnswIndex.Index.HighestOther | pkg/hnsw/search.go:224-232 | a node other than the deleted one on the highest level among them, with that level; none and -1 exactly when no other node exists |
| HnswIndex.Index.UnlinkLayer | pkg/hnsw/search.go:212-218 | each node on the deleted node's list at one layer drops the deleted id there, as the fold UnlinkEach says |
| HnswIndex.Index.UnlinkAll | pkg/hnsw/search.go:211-219 | over all the deleted node's layers, as the fold UnlinkLayers says |
| HnswIndex.Index.Detach | pkg/hnsw/search.go:221-240 | the node leaves the table, the size drops by one, and a deleted entry point is replaced by a highest remaining node |
| HnswIndex.Index.Delete | pkg/hnsw/search.go:201-243 | a missing id is an error that changes nothing; otherwise the unlinking fold runs, the node leaves the table, and the entry point and top layer change only when the deleted node was the entry point |
| HnswIndex.Index.Update | pkg/hnsw/search.go:247-269 | a missing id is an error that changes nothing; otherwise the old node is deleted and the new vector inserted under a fresh id, succeeding exactly when its dimension matches, with the insert's error wrapped on failure; the other nodes first lose the old id from the lists it named and then gain at most the new id, the new node is linked to the selected candidates that remain, and an entry point other than the old node moves only when the new level is above the top layer |
| HnswBatch.AcceptedFixed | pkg/hnsw/insert.go:11-24 | once the index has a dimension, Insert accepts exactly the vectors of that length |
| HnswBatch.ReportsValues | pkg/hnsw/batch.go:121-124 | the progress callback sees 1, 2, ..., n, one report per item |
| HnswBatch.ReportsAppend | pkg/hnsw/batch.go:121-124 | the reports of a + b items are those of the first a followed by those of the next b |
| HnswBatch.AcceptedAppend | pkg/hnsw/batch.go:111-119 | accepting a concatenation is accepting the first part, then the second from the dimension the first leaves |
| HnswBatch.DimAfterAppend | pkg/hnsw/insert.go:17-24 | the dimension after a concatenation is the dimension after the second part started from the one the first leaves |
| HnswBatch.CountTrueAppend | pkg/hnsw/batch.go:115-118 | success counts add up over a concatenation |
| HnswBatch.ExpectedIdsAppend | pkg/hnsw/batch.go:111-119 | the ids of a concatenation: the second part is numbered on from the counter the first part leaves |
| HnswBatch.ExpectedIdsIncreasing | pkg/hnsw/batch.go:117 | accepted items receive strictly increasing, hence distinct, ids in input order |
| HnswBatch.InsertItem | pkg/hnsw/insert.go:10-28 | Insert seen from the batch: it succeeds exactly when the vector is acceptable, then takes the next id and fixes the dimension; a refusal reports the insert error and changes neither |
| HnswBatch.SeqProgressStep | pkg/hnsw/batch.go:111-124 | one item's outcome extends every accumulator of the sequential batch by exactly that item |
| HnswBatch.BatchInsertSequential | pkg/hnsw/batch.go:100-128 | every item is processed once, as a success or a failure; the successes are the accepted items, each keeps the id it was given at its own position, one error per refusal is reported with its index, and the callback sees 1..n |
| HnswBatch.BatchErrorsCount | pkg/hnsw/batch.go:113-116 | the sequential batch reports exactly one error per refused item |
| HnswBatch.BufferSize | pkg/hnsw/batch.go:262-264 | a positive buffer size is kept, otherwise 1000 is used |
| HnswBatch.ShiftReports | pkg/hnsw/batch.go:276-280 | a chunk starting at start reports start + 1, ..., start + n through the wrapped callback |
| HnswBatch.BufProgressStep | pkg/hnsw/batch.go:267-291 | merging one chunk's result extends the buffered batch's totals, ids and reports to the chunk's end |
| HnswBatch.CountsChunk | pkg/hnsw/batch.go:285-286 | counts and dimension over [0, end) continue those over [0, start) with the chunk's own |
| HnswBatch.IdsChunk | pkg/hnsw/batch.go:289-290 | the ids over [0, end) are those over [0, start) followed by the chunk's, numbered from the counter the chunk saw |
| HnswBatch.ReportsChunk | pkg/hnsw/batch.go:276-280 | the reports over [0, end) are those over [0, start) followed by the chunk's shifted by start |
| HnswBatch.InsertChunk | pkg/hnsw/batch.go:268-290 | one chunk, inserted and merged, carries the buffered batch's progress from start to end |
| HnswBatch.BatchInsertWithBuffer | pkg/hnsw/batch.go:251-294 | chunked processing gives the same counts, ids, dimension and progress reports as the sequential batch over the whole input, with one error per failure |
| DiskAnnMemory.AddBounded | pkg/diskann/memory_graph.go:36-60 | the graph never exceeds its capacity; an id is admitted exactly when it was present or there was room, it then holds the given vector and neighbours, and every other id is unchanged |
| DiskAnnMemory.Add | pkg/diskann/memory_graph.go:36-60 | the id is stored afterwards exactly when it was present or there was room, then with the given vector and neighbours and no code; no other id appears and every other node is kept |
| DiskAnnMemory.OverwriteWhenFull | pkg/diskann/memory_graph.go:43-45 | an id already present is overwritten even when the graph is full, and no id is added |
| DiskAnnMemory.RelinkOnlyNeighbors | pkg/diskann/memory_graph.go:96-104 | updating neighbours keeps the ids, replaces only that node's neighbour list when it exists, and leaves every other node as it was |
| DiskAnnMemory.Relink | pkg/diskann/memory_graph.go:96-104 | the ids are kept, an existing node gets the new neighbour list and keeps the rest of itself, and every other node is unchanged |
| DiskAnnMemory.AddWellFiled | pkg/diskann/memory_graph.go:53-57 | after adding, every node is still filed under its own id |
| DiskAnnMemory.RelinkWellFiled | pkg/diskann/memory_graph.go:100-103 | after updating neighbours, every node is still filed under its own id |
| DiskAnnMemory.MemoryGraph.constructor | pkg/diskann/memory_graph.go:27-33 | a new graph is empty, keeps its capacity and degree, and has entry point 0 |
| DiskAnnMemory.MemoryGraph.AddNode | pkg/diskann/memory_graph.go:36-60 | the node table becomes the bounded add of the node |
| DiskAnnMemory.MemoryGraph.GetNode | pkg/diskann/memory_graph.go:63-69 | a node is found exactly when the id is stored, and it is the stored node |
| DiskAnnMemory.MemoryGraph.SetEntryPoint | pkg/diskann/memory_graph.go:72-77 | the entry point becomes the given id |
| DiskAnnMemory.MemoryGraph.UpdateNeighbors | pkg/diskann/memory_graph.go:96-104 | the node table becomes the relinked table |
| DiskAnnMemory.MemoryGraph.GetAllNodes | pkg/diskann/memory_graph.go:116-125 | every stored id exactly once, as many as Size reports, each one Contains accepts |
| GrpcHandlers.ValidateInsert | pkg/api/grpc/handlers.go:610-618 | an insert is valid exactly with a namespace and a non-empty vector; otherwise the first missing one is named |
| GrpcHandlers.ValidateSearch | pkg/api/grpc/handlers.go:620-631 | a search is valid exactly with a namespace, a non-empty query and k > 0, and each failure has its own message in that order |
| GrpcHandlers.ValidateHybrid | pkg/api/grpc/handlers.go:633-647 | a hybrid search also needs a non-empty query text, checked before k |
| GrpcHandlers.HybridExtendsSearch | pkg/api/grpc/handlers.go:620-647 | a hybrid request is valid exactly when its search part is valid and it has a text, and with a text the two validations agree |
| GrpcHandlers.EfSearch | pkg/api/grpc/handlers.go:114-118 | a non-zero requested efSearch is used, zero takes the configured default |
| GrpcHandlers.Insert | pkg/api/grpc/handlers.go:19-87 | success exactly when validation, the namespace lookup and the index insert all succeed; then the id is returned in decimal, the metadata is stored under it, and a non-empty text is indexed; a failure has a non-OK code and an error and changes nothing |
| GrpcHandlers.InsertIdParses | pkg/api/grpc/handlers.go:84 | the decimal id of a successful insert parses back to the id the index assigned |
| GrpcHandlers.Delete | pkg/api/grpc/handlers.go:221-292 | the response succeeds exactly when the code is OK and exactly when it carries no error; a failure leaves the store alone, deletes nothing and removes nothing from the text index |
| GrpcHandlers.DeleteOutcomes | pkg/api/grpc/handlers.go:221-292 | success exactly for a decimal id the index deletes, with a count of 1, that id removed from the text index and only its metadata dropped; a non-decimal id is InvalidArgument, a filter selector Unimplemented, and a failure changes nothing, removes nothing from the text index and has a count of 0 |
| GrpcHandlers.Update | pkg/api/grpc/handlers.go:295-381 | the response succeeds exactly when the code is OK and exactly when it carries no error; a failure leaves the store alone and has no effect; a success needs a decimal id, and every effect concerns that id |
| GrpcHandlers.UpdateVectorPresence | pkg/api/grpc/handlers.go:321-334 | a successful update sends the vector to the index exactly when it is non-empty |
| GrpcHandlers.UpdateMetadataPresence | pkg/api/grpc/handlers.go:336-347 | a successful update stores the metadata exactly when it is non-empty and the namespace has a store, and touches no other namespace |
| GrpcHandlers.UpdateTextPresence | pkg/api/grpc/handlers.go:349-374 | a successful update re-indexes the text exactly when it is present and non-empty, with the metadata as stored by then |
| GrpcHandlers.UpdateFailureChangesNothing | pkg/api/grpc/handlers.go:295-381 | a failed update changes no store and has no effect, and a refused vector is an Internal error |
| GrpcHandlers.ErrorText | pkg/api/grpc/handlers.go:404-410 | a failure's text is the response's error, else the returned error, else "unknown error" |
| GrpcHandlers.Tally | pkg/api/grpc/handlers.go:390-415 | the counts are the lengths of the id and error lists, and together at most the number of entries |
| GrpcHandlers.TallyAccounts | pkg/api/grpc/handlers.go:390-415 | every message counts once, as inserted or failed; the inserted ids are those of the successful messages in stream order, with one error text per failure in order |
| GrpcHandlers.FirstRecvError | pkg/api/grpc/handlers.go:390-398 | the position of the first receive error, every earlier entry being a message, or the stream's length when there is none |
| GrpcHandlers.BatchInsert | pkg/api/grpc/handlers.go:384-428 | a receive error ends the call with "stream error: " and its text; otherwise the response is the tally of all messages |
| GrpcHandlers.ComparisonValue | pkg/api/grpc/handlers.go:671-676 | the value is the parsed number when the text parses as a float, otherwise the text itself |
| GrpcHandlers.ComparisonToFilter | pkg/api/grpc/handlers.go:670-694 | eq, ne, gt, lt, gte and lte each give their comparison of the field with the parsed value, any other name is an error naming it |
| GrpcHandlers.RangeToFilter | pkg/api/grpc/handlers.go:721-728 | no condition is an error, one is returned alone, more are combined by And, and the result matches exactly when every condition does, under either equality |
| GrpcHandlers.BoundMeaning | pkg/api/grpc/handlers.go:700-719 | a bound that parses contributes a condition comparing the field with it; one that does not parse contributes nothing |
| GrpcHandlers.RangeMeaning | pkg/api/grpc/handlers.go:696-729 | a range converts exactly when some bound parses, and then matches exactly a present field within every parsed bound |
| GrpcHandlers.ListToFilterAsWritten | pkg/api/grpc/handlers.go:731-745 | as written, "in" and "not_in" convert and other names fail, but the list handed over holds one element, the values slice itself |
| GrpcHandlers.ListAsWrittenNeverMatches | pkg/api/grpc/handlers.go:738-741 | as written, "in" never matches a string field and "not_in" always matches |
| GrpcHandlers.ListAsWrittenCounterexample | pkg/api/grpc/handlers.go:738-739 | "color" in ["red"] misses a red colour as written and matches it as intended |
| GrpcHandlers.Strings | pkg/api/grpc/handlers.go:732-735 | each proto value becomes the string value at the same position |
| GrpcHandlers.ListToFilter | pkg/api/grpc/handlers.go:731-745 | with the values spread into the list, "in" matches exactly a present field whose value is listed under the corrected equality, and under the equality as written exactly a present field that is listed or is a numeric zero facing a non-empty list; "not_in" matches exactly the rest under either; other names are an error naming them |
| GrpcHandlers.ListMembership | pkg/search/filter.go:112-130 | against a list of strings, the list filter's equality test is plain membership |
| GrpcHandlers.ListMembershipAsWritten | pkg/search/filter.go:112-130 | against a list of strings, the list filter's equality test as written holds for a listed string, and for the int 0 or the float 0 whenever the list is not empty |
| GrpcHandlers.EqualsString | pkg/search/filter.go:237-261 | as written, a value equals a string exactly when it is that string, the int 0 or the float 0 |
| GrpcHandlers.ToFilter | pkg/api/grpc/handlers.go:651-668 | each proto kind goes to its converter: a comparison to ComparisonToFilter, a range to RangeToFilter of its conditions, a list to the boxed conversion the source makes (ListToFilterAsWritten) or, with `Spread`, the corrected ListToFilter; an unset filter is "unknown filter type", an exists filter matches exactly a present field, and a radius filter matches no modelled metadata |
| GrpcHandlers.ToFilterListCounterexample | pkg/api/grpc/handlers.go:657-658 | the source's conversion of "color" in ["red"] misses a red colour under either equality, and the spread conversion matches it |
| GrpcHandlers.ToFilters | pkg/api/grpc/handlers.go:755-764 | the children convert in order; the composite fails exactly when some child fails |
| GrpcHandlers.CompositeMeaning | pkg/api/grpc/handlers.go:755-778 | a composite converts exactly when every child converts and the operator is and, or, or not over one child; it then matches, for "and", exactly when every child does, for "or" exactly when some child does, and for "not" exactly when its child does not; "not" over another number of children is its own error; all of this for either list conversion |
| RestHandlers.TrimPrefix | pkg/api/rest/handlers.go:50-51 | the prefix is removed exactly when the text starts with it, otherwise the text is unchanged |
| RestHandlers.IndexOf | pkg/api/rest/handlers.go:161 | the position of the first "/" in the text, or its length when there is none |
| RestHandlers.SplitOnce | pkg/api/rest/handlers.go:161-166 | splitting in at most two parts gives the whole text when it has no "/", otherwise the text before and after the first "/", which rejoin to it |
| RestHandlers.StatsNamespace | pkg/api/rest/handlers.go:50-56 | the namespace is what follows "/v1/stats/", none when nothing follows, none for the bare "/v1/stats", never an empty name, and for "/v1/stats" followed by anything but "/" what follows |
| RestHandlers.StatsPaths | pkg/api/rest/handlers.go:50-56 | "/v1/stats" and "/v1/stats/" ask for every namespace, "/v1/stats/" followed by a non-empty name asks for that namespace |
| RestHandlers.VectorTarget | pkg/api/rest/handlers.go:160-166 | a vector path is refused with the format message exactly when nothing past the prefix contains "/" |
| RestHandlers.VectorTargetRoundTrip | pkg/api/rest/handlers.go:160-169 | a path built from a namespace without "/" and any id yields that namespace and id |
| RestHandlers.CheckedReply | pkg/api/rest/handlers.go:80-96 | a transport error becomes a 500 with "<what> failed: " and its text, an unsuccessful response a 500 with its error or "<what> failed", and success a JSON reply with 201 or 200 |
| RestHandlers.Insert | pkg/api/rest/handlers.go:68-97 | a verb other than POST is a 405 and an undecodable body a 400 with "Invalid request body: "; the reply is JSON exactly when the call succeeds with a successful response, and then it is a 201 carrying that response |
| RestHandlers.InsertReplies | pkg/api/rest/handlers.go:68-97 | Insert replies 201 exactly for a POST whose body decodes and whose call succeeds with a successful response; an unsuccessful response gives its error, or "Insert failed" when it has none |
| RestHandlers.SearchReply | pkg/api/rest/handlers.go:112-123 | Search and HybridSearch reply 200 exactly when the call succeeds and the response error is absent or empty |
| RestHandlers.DeleteRequest | pkg/api/rest/handlers.go:155-180 | DELETE takes the namespace and id from the path and fails exactly when the path does not split in two, POST takes the body, any other verb is refused |
| RestHandlers.Delete | pkg/api/rest/handlers.go:154-198 | a verb other than DELETE and POST is a 405, a DELETE path without two parts a 400 with the format message, an undecodable POST body a 400; the reply is JSON exactly when the request is built and the call succeeds with a successful response, and then it is a 200 carrying that response |
| RestHandlers.DeleteByPath | pkg/api/rest/handlers.go:160-169 | DELETE /v1/vectors/{namespace}/{id} sends exactly that namespace and id |
| RestHandlers.DeleteShortPath | pkg/api/rest/handlers.go:163-166 | a DELETE path without a second part is a 400 and the service is not called |
| RestHandlers.UpdateRequest | pkg/api/rest/handlers.go:202-225 | Update is accepted exactly for PUT or PATCH with a well-formed path and a decodable body, the path being checked first, and the path's namespace and id replace the body's |
| RestHandlers.Update | pkg/api/rest/handlers.go:201-244 | a verb other than PUT and PATCH is a 405, a path without two parts a 400 with the format message, then an undecodable body a 400; the reply is JSON exactly when the request is built and the call succeeds with a successful response, and then it is a 200 carrying that response |
| RestHandlers.UpdateOverridesBody | pkg/api/rest/handlers.go:223-225 | whatever namespace and id the body names, the request sent carries the URL's and the rest of the body unchanged |
| RestHandlers.ParseIntQuery | pkg/api/rest/handlers.go:363-375 | a missing, empty or non-integer parameter gives the default, otherwise its integer value |
| RestHandlers.ParseIntQueryRoundTrip | pkg/api/rest/handlers.go:363-375 | any 64-bit integer written in decimal is read back, whatever the default |
| PyClient.InsertRequestOf | clients/python/vector_db/client.py:115-121 | the insert request carries the namespace, vector, text and id as given, and the metadata or an empty map when none is given |
| PyClient.Insert | clients/python/vector_db/client.py:123-128 | an RpcError the stub raises passes through unchanged; otherwise insert returns the server's id exactly when the response reports success, and raises "Insert failed: " with the server's error when it does not |
| PyClient.SearchRequestOf | clients/python/vector_db/client.py:130-164 | the search request carries the namespace and query, with k 10, ef_search 50 and the cosine metric unless given |
| PyClient.FilterNeverSent | clients/python/vector_db/client.py:158-166 | the filter argument never reaches the server: any two filters give the same request, and the defaults are 10, 50 and "cosine" |
| PyClient.ToResult | clients/python/vector_db/client.py:173-182 | a search result keeps id and distance, turns an empty vector, metadata or text into None, and has no scores |
| PyClient.ToHybridResult | clients/python/vector_db/client.py:235-246 | a hybrid result is the plain result with both scores as the server sent them |
| PyClient.Results | clients/python/vector_db/client.py:170-182 | a response with a non-empty error raises "<what> failed: " and its error; otherwise one result per server result, at the same position |
| PyClient.SearchKeepsOrder | clients/python/vector_db/client.py:168-182 | results come only from a response the stub returned, one per server result, each keeping the id and distance of the server's result at its position |
| PyClient.Search | clients/python/vector_db/client.py:130-183 | an RpcError the stub raises passes through unchanged; otherwise the response's error raises "Search failed: " and the results are converted one by one without scores |
| PyClient.HybridRequestOf | clients/python/vector_db/client.py:184-228 | the hybrid request forwards the fusion method and both weights unchanged, with defaults "rrf", 0.7 and 0.3, and RRF's k fixed at 60 |
| PyClient.HybridScoresKept | clients/python/vector_db/client.py:230-246 | results come only from a response the stub returned, one per server result, carrying both scores as sent, a score of 0 included |
| PyClient.HybridSearch | clients/python/vector_db/client.py:184-247 | an RpcError the stub raises passes through unchanged; otherwise the response's error raises "Hybrid search failed: " and the results are converted one by one with both scores |
| PyClient.BatchRequests | clients/python/vector_db/client.py:267-273 | batch_insert streams exactly one insert request per (vector, metadata) pair, in input order, all in the given namespace |
| PyClient.BatchRequestsVectors | clients/python/vector_db/client.py:267-273 | the streamed requests' vectors are the input vectors in order, with no text and no id |
| PyClient.BatchInsert | clients/python/vector_db/client.py:275-283 | an RpcError the stub raises passes through unchanged; otherwise the summary holds the server's counts, ids, errors and time unchanged |
| PyClient.UpdateRequestOf | clients/python/vector_db/client.py:302-308 | a missing vector is sent empty and missing metadata as an empty map, so the server keeps both; the text passes through |
| PyClient.Update | clients/python/vector_db/client.py:310-315 | an RpcError the stub raises passes through unchanged; otherwise update returns true exactly on success, and raises "Update failed: " with the server's error when it fails |
| PyClient.Delete | clients/python/vector_db/client.py:317-338 | an RpcError the stub raises passes through unchanged; otherwise delete returns the deleted count exactly on success, and raises "Delete failed: " with the server's error when it fails |
| PyClient.VectorDBClient.constructor | clients/python/vector_db/client.py:57-79 | a TLS client opens a secure channel, with the certificate file when one is named, otherwise an insecure one |
| PyClient.VectorDBClient.Close | clients/python/vector_db/client.py:81-83 | the channel is closed |
| PyClient.VectorDBClient.Exit | clients/python/vector_db/client.py:85-89 | leaving the with-block closes the channel |
| SearchCache.Without | pkg/search/cache.go:170-174 | taking a key out of the recency list keeps every other key, shortens a duplicate-free list holding it by one, and leaves a list without it unchanged |
| SearchCache.ToFront | pkg/search/cache.go:73-76 | moving a key to the front puts it first, keeps exactly the other keys, and keeps the list duplicate-free and of the same length when the key was present |
| SearchCache.HitRate | pkg/search/cache.go:143-159 | the hit rate lies in [0, 1], is 0 before any lookup, and times the number of lookups gives the hits |
| SearchCache.LRUCache.constructor | pkg/search/cache.go:42-49 | a new cache is empty with zero counters and the given capacity and time-to-live |
| SearchCache.LRUCache.Get | pkg/search/cache.go:53-77 | an absent key counts a miss and changes nothing else; an expired one is removed and counts a miss; a live one is returned, moves to the most recent place and counts a hit |
| SearchCache.LRUCache.RemoveKey | pkg/search/cache.go:170-174 | the key leaves both the map and the recency list |
| SearchCache.LRUCache.Put | pkg/search/cache.go:80-112 | an existing key takes the new value, moves to the front, and the size is unchanged; a new key goes in front, and when that overflows the capacity the least recently used key is evicted |
| SearchCache.LRUCache.EvictOldest | pkg/search/cache.go:162-167 | the last key of the recency list leaves the list and the map, and an empty list is left alone |
| SearchCache.LRUCache.Invalidate | pkg/search/cache.go:115-122 | exactly that key is removed |
| SearchCache.LRUCache.Clear | pkg/search/cache.go:125-133 | the cache is emptied and both counters are zero |
| SearchCache.LRUCache.Size | pkg/search/cache.go:136-140 | the size is the number of stored keys, within the capacity |
| SearchCache.LRUCache.Stats | pkg/search/cache.go:143-159 | the statistics report the counters, the size and their hit rate |
| SearchCache.QueryCache.constructor | pkg/search/cache.go:190-194 | a query cache wraps a fresh empty cache of the given capacity and time-to-live |
| SearchCache.QueryCache.GetHybridResults | pkg/search/cache.go:243-257 | hybrid results are returned exactly for a live entry of that type; a missing key counts a miss and changes nothing else, an expired entry counts a miss and is dropped from the entries and the recency order, a live hybrid entry counts a hit and moves to the front, and a live entry of another type counts a hit and is then dropped from both |
| SearchCache.QueryCache.GetTextResults | pkg/search/cache.go:265-278 | full-text results are returned exactly for a live entry of that type; a missing key counts a miss and changes nothing else, an expired entry counts a miss and is dropped from the entries and the recency order, a live full-text entry counts a hit and moves to the front, and a live entry of another type counts a hit and is then dropped from both |
| SearchCache.QueryCache.PutHybridResults | pkg/search/cache.go:260-262 | the LRU Put of the hybrid results: an existing key is updated and moves to the front; a new key goes to the front, and past the capacity the least recent key is evicted; the counters are kept |
| SearchCache.QueryCache.PutTextResults | pkg/search/cache.go:281-283 | the LRU Put of the full-text results, with the same effect on entries, order and counters |
| SearchCache.QueryCache.Clear | pkg/search/cache.go:286-298 | Clear and InvalidateAll empty the cache and zero its counters |
| SearchFilter.ToFloat | pkg/search/filter.go:309-330 | a non-numeric value converts to 0 |
| SearchFilter.Trunc | pkg/search/filter.go:258 | Go's float-to-int conversion truncates toward zero |
| SearchFilter.EqualsAsWrittenMismatch | pkg/search/filter.go:252-261 | as written, the int 0 equals any string and the int 5 equals 5.7, but not the other way round |
| SearchFilter.EqualsEquivalence | pkg/search/filter.go:237-280 | equality as intended is reflexive, symmetric and transitive |
| SearchFilter.EqualsAgrees | pkg/search/filter.go:237-280 | the intended equality agrees with the code wherever both sides are ints, the left is a float64 facing a number, or neither is a number |
| SearchFilter.Compare | pkg/search/filter.go:283-306 | compare returns only -1, 0 or 1, and nil is below every other value |
| SearchFilter.CompareOrder | pkg/search/filter.go:295-305 | compare is antisymmetric and agrees with the numeric order on non-nil values |
| SearchFilter.MatchWith | pkg/search/filter.go:43-232 | under either equality, a comparison or a range fails on a missing field, a list filter on a missing field holds exactly when negated, Exists holds exactly when presence is what it asks for, and a radius filter matches no modelled metadata |
| SearchFilter.MatchComparison | pkg/search/filter.go:49-75 | Ne is the negation of the equality, Gte holds exactly when compare is at least 0, Lte when it is at most 0, and an unknown operator fails |
| SearchFilter.MatchAsWrittenMismatch | pkg/search/filter.go:50-51 | the matcher as written accepts Eq(n, 5.7) on n = 5 and In(n, ["a"]) on n = 0, which the corrected matcher refuses |
| SearchFilter.MissingFieldFails | pkg/search/filter.go:44-47 | a comparison or a range on a missing field fails for every operator, Ne included |
| SearchFilter.GteLte | pkg/search/filter.go:62-68 | Gte holds exactly when compare is at least 0, Lte when it is at most 0, and Gte is Gt or equal |
| SearchFilter.RangeBounds | pkg/search/filter.go:86-102 | a range is inclusive at both bounds and a nil bound does not constrain |
| SearchFilter.InNotIn | pkg/search/filter.go:112-130 | under either equality: on a missing field In fails and NotIn holds; otherwise NotIn is the negation of In, and In is membership by that equality |
| SearchFilter.AndOr | pkg/search/filter.go:192-206 | And over nothing holds and Or over nothing fails, one failing child decides And, one passing child decides Or, and And is the dual of Or |
| SearchFilter.NegateAll | pkg/search/filter.go:490-495 | each filter wrapped in Not, at its own position |
| SearchFilter.NotFirst | pkg/search/filter.go:208-212 | Not with no child holds, otherwise it negates its first child and ignores the rest |
| SearchFilter.ExistsComplement | pkg/search/filter.go:226-232 | Exists holds exactly when the field is present, and NotExists is its complement |
| SearchFilter.EqFilter | pkg/search/filter.go:359-365 | Eq matches exactly a present field equal to the value, under the equality as written and under the corrected one |
| SearchFilter.NeFilter | pkg/search/filter.go:368-374 | Ne matches exactly a present field not equal to the value, under either equality |
| SearchFilter.GtFilter | pkg/search/filter.go:377-383 | Gt matches exactly a present field comparing above the value |
| SearchFilter.LtFilter | pkg/search/filter.go:386-392 | Lt matches exactly a present field comparing below the value |
| SearchFilter.GteFilter | pkg/search/filter.go:395-401 | Gte matches exactly a present field not comparing below the value |
| SearchFilter.LteFilter | pkg/search/filter.go:404-410 | Lte matches exactly a present field not comparing above the value |
| SearchFilter.RangeFilter | pkg/search/filter.go:413-419 | Range matches exactly a present field within both non-nil bounds |
| SearchFilter.InFilter | pkg/search/filter.go:422-428 | In matches exactly a present field equal to some listed value, under either equality |
| SearchFilter.NotInFilter | pkg/search/filter.go:431-437 | NotIn matches exactly a missing field or one equal to no listed value, under either equality |
| SearchFilter.GeoRadiusFilter | pkg/search/filter.go:440-446 | a radius filter matches no modelled metadata, none of whose values is a point |
| SearchFilter.ExistsFilter | pkg/search/filter.go:458-463 | Exists matches exactly when the field is present |
| SearchFilter.NotExistsFilter | pkg/search/filter.go:466-471 | NotExists matches exactly when the field is absent |
| SearchFilter.AndFilter | pkg/search/filter.go:474-479 | And matches exactly when every child does |
| SearchFilter.OrFilter | pkg/search/filter.go:482-487 | Or matches exactly when some child does |
| SearchFilter.NotFilter | pkg/search/filter.go:490-495 | Not matches exactly when its child does not |
| SearchFilter.FilterBuilder.constructor | pkg/search/filter.go:504-506 | a new builder has no filter and no error |
| SearchFilter.FilterBuilder.Equals | pkg/search/filter.go:509-512 | the builder's filter becomes the Eq filter and its error is kept |
| SearchFilter.FilterBuilder.GreaterThan | pkg/search/filter.go:515-518 | the builder's filter becomes the Gt filter and its error is kept |
| SearchFilter.FilterBuilder.Build | pkg/search/filter.go:521-529 | a recorded error comes first, then the no-conditions error, otherwise the filter |
| SearchTokenize.LowerChar | pkg/search/fulltext.go:63 | lower-casing one character changes only A-Z and keeps it a word character or a separator |
| SearchTokenize.LowerAll | pkg/search/fulltext.go:63 | the lower-cased text has the same length and is lower-cased position by position |
| SearchTokenize.ByteLen | pkg/search/fulltext.go:70 | a word's UTF-8 byte length is at least its number of characters |
| SearchTokenize.WordLen | pkg/search/fulltext.go:63-65 | the leading run of letters and digits ends at the text's end or at a separator |
| SearchTokenize.TokenShape | pkg/search/fulltext.go:61-76 | every token is at least two bytes long, made of letters and digits only, and has no upper-case ASCII letter |
| SearchTokenize.FieldsShape | pkg/search/fulltext.go:63-65 | every field is a non-empty run of letters and digits |
| SearchTokenize.KeepLongShape | pkg/search/fulltext.go:67-73 | the kept words are input words at least two bytes long, and no more of them than there were |
| SearchTokenize.KeepLong | pkg/search/fulltext.go:67-73 | a word is kept exactly when it is an input word of two bytes or more |
| SearchTokenize.Tokenize | pkg/search/fulltext.go:61-76 | the tokens are exactly the fields of the lower-cased text that are two bytes or longer |
| SearchTokenize.FieldsFrom | pkg/search/fulltext.go:63-65 | every field is made of characters of its input |
| SearchTokenize.WordLenStops | pkg/search/fulltext.go:63-65 | a run of word characters stops at the first separator |
| SearchTokenize.FieldsSplit | pkg/search/fulltext.go:63-65 | splitting text joined by a separator gives the fields of each part, in order |
| SearchTokenize.KeepLongAppend | pkg/search/fulltext.go:67-73 | the length filter distributes over concatenation |
| SearchTokenize.LowerAllSplit | pkg/search/fulltext.go:63 | lower-casing distributes over concatenation |
| SearchTokenize.TokenizeSplit | pkg/search/fulltext.go:61-76 | tokenizing text joined by a separator gives the tokens of each part, in order |
| SearchTokenize.NoWordsNoTokens | pkg/search/fulltext.go:61-76 | text without letters or digits has no tokens |
| SearchTokenize.NoWordsNoFields | pkg/search/fulltext.go:63-65 | text without letters or digits has no fields |
| SearchTokenize.Word | pkg/search/fulltext.go:61-76 | a lower-case ASCII word is its own only token when it has two letters or more, and has none otherwise |
| SearchTokenize.WordLenAll | pkg/search/fulltext.go:63-65 | a text made only of word characters is one run |
| SearchTokenize.AsciiByteLen | pkg/search/fulltext.go:70 | an ASCII word's byte length is its number of characters |
| SearchFullText.Freqs | pkg/search/fulltext.go:96-100 | the term-frequency map holds exactly the document's tokens, each with its number of occurrences |
| SearchFullText.AddLoopStep | pkg/search/fulltext.go:103-108 | one step of the posting loop adds the document with that term's frequency to that term's postings |
| SearchFullText.RemoveLoopStep | pkg/search/fulltext.go:149-156 | one step of the removal loop drops the document from that term's postings |
| SearchFullText.RemoveAbsent | pkg/search/fulltext.go:150 | a term without postings is left alone by the removal |
| SearchFullText.RemoveEmptied | pkg/search/fulltext.go:152-154 | a term whose postings become empty leaves the index |
| SearchFullText.RemoveKept | pkg/search/fulltext.go:151 | a term with other documents keeps its postings minus the removed document |
| SearchFullText.SumOverRemove | pkg/search/fulltext.go:171-174 | the total document length does not depend on the order the documents are summed in |
| SearchFullText.AddScoresNone | pkg/search/fulltext.go:280 | before the posting loop no score has been added |
| SearchFullText.AddScoresStep | pkg/search/fulltext.go:280-295 | one posting credits the document with the term's contribution exactly when it passes the filter |
| SearchFullText.ScoreMapKeys | pkg/search/fulltext.go:267-296 | a document is scored exactly when some query token lists it and it passes the filter |
| SearchFullText.ListedIffContains | pkg/search/fulltext.go:97-108 | a term lists a document exactly when the document contains it |
| SearchFullText.AddDocInverted | pkg/search/fulltext.go:96-108 | adding a new document to the index is the index of the documents plus that one |
| SearchFullText.AddDocTerms | pkg/search/fulltext.go:103-108 | after an addition the terms are those of the old index and of the new document |
| SearchFullText.TermsAdd | pkg/search/fulltext.go:103-108 | the terms of a larger collection are the old terms and the new document's |
| SearchFullText.AddDocPostings | pkg/search/fulltext.go:103-108 | a term gains the new document with its frequency exactly when the document contains it |
| SearchFullText.RemoveDocInverted | pkg/search/fulltext.go:141-156 | removing a document from the index is the index of the remaining documents, emptied terms gone |
| SearchFullText.TermsRemove | pkg/search/fulltext.go:149-156 | a term stays after a removal exactly when some other document contains it |
| SearchFullText.RemoveDocPostings | pkg/search/fulltext.go:149-156 | a remaining term's postings are those of the remaining documents |
| SearchFullText.PostingsWithout | pkg/search/fulltext.go:151 | the postings without a document are the old postings minus it |
| SearchFullText.IndexedPostings | pkg/search/fulltext.go:97-108 | after indexing, each term of the document lists it with the term's frequency, and no other term lists it |
| SearchFullText.RemoveKeeps | pkg/search/fulltext.go:141-162 | the state after removeDocumentLocked is consistent with the remaining documents: postings, lengths, count and average |
| SearchFullText.AddKeeps | pkg/search/fulltext.go:91-111 | the state after storing a new document is consistent with the documents plus that one |
| SearchFullText.StoredRemove | pkg/search/fulltext.go:158-160 | dropping the document, its length and one from the count keeps them in step |
| SearchFullText.StoredAdd | pkg/search/fulltext.go:92-94 | storing the document, its length and one more in the count keeps them in step |
| SearchFullText.TopKRanked | pkg/search/fulltext.go:308-314 | sorting every scored result and keeping the first k ranks them |
| SearchFullText.RankedFrom | pkg/search/fulltext.go:308-314 | a sorted selection that outscores every result it leaves out ranks the results |
| SearchFullText.DistinctIds | pkg/search/fulltext.go:299-306 | distinct results, each determined by its document, have distinct ids |
| SearchFullText.FullTextIndex.constructor | pkg/search/fulltext.go:42-50 | a new index is empty, with k1 = 1.5 and b = 0.75 |
| SearchFullText.FullTextIndex.SetParameters | pkg/search/fulltext.go:53-58 | k1 and b take the given values |
| SearchFullText.FullTextIndex.RemoveDocument | pkg/search/fulltext.go:141-162 | the document and everything derived from it leave the index, which stays consistent |
| SearchFullText.FullTextIndex.Index | pkg/search/fulltext.go:79-114 | the document is stored under its id, an older one of the same id replaced first, so re-indexing leaves the count unchanged and a new id adds one |
| SearchFullText.FullTextIndex.AddDocument | pkg/search/fulltext.go:91-111 | a new document is stored and counted, and the index stays consistent |
| SearchFullText.FullTextIndex.BatchIndex | pkg/search/fulltext.go:117-124 | every document is indexed in turn, later ones replacing earlier ones of the same id |
| SearchFullText.FullTextIndex.Remove | pkg/search/fulltext.go:127-138 | the document goes, and an absent id changes nothing |
| SearchFullText.FullTextIndex.GetDocument | pkg/search/fulltext.go:318-322 | the stored document under the id, if any |
| SearchFullText.FullTextIndex.Size | pkg/search/fulltext.go:325-329 | the number of stored documents |
| SearchFullText.FullTextIndex.AccumulateScores | pkg/search/fulltext.go:270-296 | the term loop computes the score map of the query tokens |
| SearchFullText.FullTextIndex.AddTerm | pkg/search/fulltext.go:280-295 | the posting loop for one term adds its contributions |
| SearchFullText.FullTextIndex.CreditDocument | pkg/search/fulltext.go:282-294 | one posting credits a document that passes the filter |
| SearchFullText.FullTextIndex.ToResults | pkg/search/fulltext.go:299-306 | one result per scored document, no two alike |
| SearchFullText.FullTextIndex.SearchWithFilter | pkg/search/fulltext.go:253-315 | nothing for an empty index or a query without tokens; otherwise the documents scored by the query, sorted by non-increasing score, cut to k, and no document left out scores higher than one kept |
| Ranking.Enumerate | pkg/search/hybrid.go:128-135 | ranging over a set gives a duplicate-free list of exactly its elements |
| Ranking.TopK | pkg/search/hybrid.go:186-191 | the sort then the truncation to k |
| Ranking.TopKSelects | pkg/search/hybrid.go:186-191 | the first k of the sorted list are sorted, number min(k, n), come from the list, and score at least as high as everything left out |
| Ranking.PrefixSelects | pkg/search/fulltext.go:310-312 | a prefix of a sorted list is sorted and outscores the rest |
| Ranking.TopKDistinct | pkg/search/hybrid.go:186-191 | with distinct items, anything missing from the top k scores no higher than each of them |
| Ranking.SubDistinct | pkg/search/hybrid.go:186-191 | a part of a duplicate-free list is duplicate-free, and what it lacks is in the rest |
| Ranking.DistinctMultiset | pkg/search/hybrid.go:128-135 | a duplicate-free list holds each element once |
| Sorting.InsertDesc | pkg/search/fulltext.go:335-341 | one insertion step lengthens the sorted prefix by one |
| Sorting.SortDesc | pkg/search/fulltext.go:332-343 | the sort keeps the length |
| Sorting.InsertDescPermutes | pkg/search/fulltext.go:335-341 | one insertion step adds exactly the key to the prefix, as a multiset |
| Sorting.InsertDescSorted | pkg/search/fulltext.go:337-340 | inserting into a non-increasing prefix keeps it non-increasing |
| Sorting.SortDescSortedPermutation | pkg/search/fulltext.go:332-343 | the sort returns a non-increasing permutation of its input |
| Sorting.InsertAt | pkg/search/fulltext.go:335-341 | one pass of the outer loop turns the prefix into its insertion of the key and leaves the rest of the array alone |
| Sorting.ShiftedIsInsert | pkg/search/fulltext.go:337-341 | the state the inner shifting loop leaves is the insertion of the key |
| Sorting.SortInPlace | pkg/search/fulltext.go:332-343 | the in-place insertion sort leaves the array holding the sort of its old contents |
| SearchHybrid.AssignedKeys | pkg/search/hybrid.go:117-125 | a map filled by assigning each pair in turn has exactly the pairs' ids as keys |
| SearchHybrid.AssignedLast | pkg/search/hybrid.go:117-125 | the last assignment to an id decides its value |
| SearchHybrid.AssignedFrom | pkg/search/hybrid.go:117-125 | every value of the map was assigned to its id by some pair |
| SearchHybrid.TextIds | pkg/search/hybrid.go:123-125 | the ids of the text results, in order |
| SearchHybrid.RankPairs | pkg/search/hybrid.go:118-120 | each listed id paired with its 1-based rank |
| SearchHybrid.RanksKeys | pkg/search/hybrid.go:117-125 | an id has a rank exactly when it is listed |
| SearchHybrid.RankOfLast | pkg/search/hybrid.go:118-120 | a repeated id keeps the rank of its last occurrence |
| SearchHybrid.RanksRange | pkg/search/hybrid.go:118-120 | a rank lies between 1 and the length of the list and points back at its id |
| SearchHybrid.RRFBounds | pkg/search/hybrid.go:140-150 | with non-negative weights and k, an RRF score lies between 0 and the score of being first in both lists |
| SearchHybrid.ShareBound | pkg/search/hybrid.go:144 | one list's RRF share is largest at rank 1 |
| SearchHybrid.FirstDistanceAt | pkg/search/hybrid.go:156-161 | the reported vector score is the distance at the id's first occurrence, and 0 when it has none |
| SearchHybrid.FirstScoreAt | pkg/search/hybrid.go:163-168 | the reported text score is the score at the id's first occurrence, and 0 when it has none |
| SearchHybrid.MaxDistance | pkg/search/hybrid.go:201-206 | the scan finds the largest distance, or 0 when none is positive |
| SearchHybrid.MaxScore | pkg/search/hybrid.go:219-224 | the scan finds the largest text score, or 0 when none is positive |
| SearchHybrid.VectorNormBounds | pkg/search/hybrid.go:208-216 | a normalised distance lies in [0, 1], the farthest result scoring 0 and a zero distance 1 |
| SearchHybrid.DivUnit | pkg/search/hybrid.go:212 | a value no larger than a positive maximum divides into [0, 1] |
| SearchHybrid.DivSelf | pkg/search/hybrid.go:229 | the maximum divided by itself is 1 |
| SearchHybrid.TextNormBounds | pkg/search/hybrid.go:226-233 | a normalised text score lies in [0, 1], the best result scoring 1 |
| SearchHybrid.VectorPairs | pkg/search/hybrid.go:208-216 | each vector result paired with its normalised score |
| SearchHybrid.TextPairs | pkg/search/hybrid.go:226-233 | each text result paired with its normalised score |
| SearchHybrid.VectorScoreRange | pkg/search/hybrid.go:199-216 | with non-negative distances every normalised vector score lies in [0, 1] |
| SearchHybrid.TextScoreRange | pkg/search/hybrid.go:218-233 | with non-negative text scores every normalised text score lies in [0, 1] |
| SearchHybrid.WeightedBounds | pkg/search/hybrid.go:248 | with non-negative weights, distances and scores a combined score lies in [0, alpha + beta] |
| SearchHybrid.Combine | pkg/search/hybrid.go:248 | a weighted sum of two unit values lies in [0, alpha + beta] |
| SearchHybrid.SelectedAll | pkg/search/hybrid.go:186-191 | with no more candidates than topK every candidate is returned |
| SearchHybrid.DistinctIdCount | pkg/search/hybrid.go:137-183 | results with distinct ids number as many as their ids |
| SearchHybrid.SubsetSize | pkg/search/hybrid.go:128-134 | a subset as large as its superset is that superset |
| SearchHybrid.SubsetCard | pkg/search/hybrid.go:128-134 | a subset is no larger than its superset |
| SearchHybrid.RecordsSelected | pkg/search/hybrid.go:137-191 | sorting one record per candidate and keeping the first topK gives the fusion's answer |
| SearchHybrid.RecordsOfCandidates | pkg/search/hybrid.go:139-183 | the loop over candidates makes one record per candidate, none twice |
| SearchHybrid.SelectedFrom | pkg/search/hybrid.go:185-193 | a sorted top-k of the candidates' records, outscoring every record left out, is the fusion's answer |
| SearchHybrid.VectorOnlySorted | pkg/search/hybrid.go:309-333 | vector results in order of increasing distance give results in order of decreasing fused score |
| SearchHybrid.TextOnlySorted | pkg/search/hybrid.go:336-351 | text results sorted by score give results sorted by fused score, with the same ids and scores in the same order |
| SearchHybrid.KeptIff | pkg/search/hybrid.go:96-104 | a vector result is kept exactly when its document is stored and passes the filter, and none is added |
| SearchHybrid.WeightedKeys | pkg/search/hybrid.go:235-242 | the ids scored by either list are the candidates |
| SearchHybrid.HybridSearch.constructor | pkg/search/hybrid.go:30-39 | a new hybrid search uses RRF with k = 60 and alpha = beta = 0.5 |
| SearchHybrid.HybridSearch.SetRRFParameter | pkg/search/hybrid.go:42-44 | k takes the given value |
| SearchHybrid.HybridSearch.SetWeights | pkg/search/hybrid.go:50-53 | alpha and beta take the given values |
| SearchHybrid.HybridSearch.SetFusionMethod | pkg/search/hybrid.go:56-58 | the fusion method takes the given value |
| SearchHybrid.HybridSearch.Search | pkg/search/hybrid.go:65-82 | a failed vector search gives the text-only results for k; otherwise the vector results fused with the text results for 2k by the chosen method |
| SearchHybrid.HybridSearch.SearchWithFilter | pkg/search/hybrid.go:85-111 | the vector results, none when the search failed, whose documents are stored and pass the filter, fused with the filtered text results for 2k |
| SearchHybrid.HybridSearch.ReciprocalRankFusion | pkg/search/hybrid.go:115-194 | one result per id of either list, scored by reciprocal rank, sorted by non-increasing score and cut to topK so that nothing left out scores higher |
| SearchHybrid.HybridSearch.WeightedCombination | pkg/search/hybrid.go:198-292 | one result per id of either list, scored by the weighted normalised scores, sorted and cut to topK so that nothing left out scores higher |
| SearchHybrid.HybridSearch.VectorOnlySearch | pkg/search/hybrid.go:309-333 | nothing for a failed vector search, otherwise one result per vector result, in order |
| SearchHybrid.HybridSearch.TextOnlySearch | pkg/search/hybrid.go:336-351 | one result per full-text result for k, in order |
| Settings.Default | pkg/config/config.go:54-82 | the defaults: port 50051, M 16, efConstruction 200, efSearch 50, 768 dimensions and a cache of 1000 entries |
| Settings.Validate | pkg/config/config.go:160-196 | the checks run in source order with their messages, and a configuration passes exactly when every rule holds |
| Settings.DefaultValid | pkg/config/config.go:54-82 | the defaults pass validation |
| Settings.PortFirst | pkg/config/config.go:162-164 | a port outside 1..65535 is the error reported, whatever else is wrong |
| Settings.CapacityOnlyWhenEnabled | pkg/config/config.go:186-188 | the cache capacity matters only when the cache is enabled |
| Settings.TlsFilesOnlyWhenEnabled | pkg/config/config.go:168-172 | the certificate and key files matter only when TLS is enabled |
| Settings.LoadFromEnv | pkg/config/config.go:85-157 | the configuration is the defaults with each environment override applied in turn |
| Settings.OverrideString | pkg/config/config.go:89-91 | a non-empty variable replaces a text setting, an empty or missing one keeps it |
| Settings.OverrideInt | pkg/config/config.go:92-96 | a variable that strconv.Atoi accepts replaces an integer setting, anything else keeps it |
| Settings.OverrideDuration | pkg/config/config.go:102-106 | a variable the duration parser accepts replaces a duration setting, anything else keeps it |
| Settings.EmptyEnvIsDefault | pkg/config/config.go:85-157 | with nothing set in the environment the defaults are loaded |
| Settings.IntOverride | pkg/config/config.go:92-137 | an integer variable Atoi rejects keeps its default, and one it accepts becomes the port |
| Settings.FixedSettings | pkg/config/config.go:107-111 | shutdown timeout, efSearch and the namespace limit keep their defaults, and TLS is on exactly when VECTOR_ENABLE_TLS is "true" |
| Settings.AddressSplits | pkg/config/config.go:199-201 | the address is the host, a colon, then a decimal that Atoi reads back as the port |
| Strconv.NatToString | pkg/tenant/manager.go:309 | %d of a non-negative integer: at least one digit and no leading zero |
| Strconv.IntToString | pkg/config/config.go:163 | %d of any integer: a minus sign exactly for a negative one |
| Strconv.DigitsOfNat | pkg/tenant/manager.go:309 | the printed digits denote the number |
| Strconv.ParseUint | pkg/api/grpc/handlers.go:313 | strconv.ParseUint base 10, 64 bits: accepts exactly one or more digits whose value fits in 64 bits, and returns that value |
| Strconv.ParseUintRoundTrip | pkg/api/grpc/handlers.go:313 | every 64-bit unsigned number printed in decimal parses back to itself |
| Strconv.AtoiRoundTrip | pkg/config/config.go:93 | every 64-bit signed number printed in decimal parses back to itself |
| Strconv.AtoiAccepts | pkg/config/config.go:93 | what Atoi accepts is an optional sign then digits, in the signed 64-bit range |
| Strconv.Atoi | pkg/config/config.go:93 | strconv.Atoi: empty text or text with a non-digit after the sign is "invalid syntax"; digits with an optional "-" give their value, negated after "-", when it fits in a signed 64-bit integer and "value out of range" otherwise; every accepted value fits in 64 bits |
| Tenancy.VectorQuota | pkg/tenant/manager.go:143-153 | adding vectors fails exactly when a vector limit is set and the int64 sum of the count in use and the request is above it; an in-range sum is compared exactly |
| Tenancy.StorageQuota | pkg/tenant/manager.go:156-166 | adding bytes fails exactly when a storage limit is set and the int64 sum of the bytes in use and the request is above it; an in-range sum is compared exactly |
| Tenancy.VectorQuotaWraps | pkg/tenant/manager.go:147 | one vector in use plus a request of 2^63 - 1 wraps below a limit of ten and passes |
| Tenancy.DimensionQuota | pkg/tenant/manager.go:169-179 | a dimension fails exactly when a dimension limit is set and it is above it |
| Tenancy.OverQuota | pkg/tenant/manager.go:265-278 | a tenant is over quota exactly when its usage strictly exceeds a set vector or storage limit |
| Tenancy.WithinQuotaAddsNothing | pkg/tenant/manager.go:143-166 | a tenant whose int64 usage is within its limits passes the checks for adding nothing |
| Tenancy.UnlimitedNeverRefuses | pkg/tenant/manager.go:143-179 | the unlimited quota, every limit -1, never refuses and is never exceeded |
| Tenancy.RateStepBounded | pkg/tenant/manager.go:182-206 | with a limit, a query is refused exactly while the window is open and full; a refusal changes nothing, the count never passes the limit, and only the rate fields change |
| Tenancy.RateRunWithinWindow | pkg/tenant/manager.go:182-206 | within one one-second window at most the limit of queries pass in all |
| Tenancy.Tenant.constructor | pkg/tenant/manager.go:63-78 | a new tenant is active, with zero usage, empty metadata and the id tenant_namespace_time |
| Tenancy.Tenant.CheckRateLimit | pkg/tenant/manager.go:182-206 | one rate step on the usage, at the given time |
| Tenancy.Tenant.CheckVectorQuota | pkg/tenant/manager.go:143-153 | refused exactly when a vector limit is set and the int64 sum of the count and the request is above it; without overflow, exactly when the plain sum is above it |
| Tenancy.Tenant.CheckStorageQuota | pkg/tenant/manager.go:156-166 | refused exactly when a storage limit is set and the int64 sum of the bytes in use and the request is above it; without overflow, exactly when the plain sum is above it |
| Tenancy.Tenant.CheckDimensionQuota | pkg/tenant/manager.go:169-179 | refused exactly when a dimension limit is set and the dimension is above it |
| Tenancy.Tenant.IsOverQuota | pkg/tenant/manager.go:265-278 | over quota exactly when the vector count or the storage is above its set limit; the dimension limit plays no part |
| Tenancy.Tenant.GetMetadata | pkg/tenant/manager.go:290-296 | a value is found exactly for a key that was set, and it is the stored value |
| Tenancy.Tenant.IncrementVectorCount | pkg/tenant/manager.go:209-215 | the vector count becomes the int64 sum of the count and the increment, and nothing else in the usage changes |
| Tenancy.Tenant.DecrementVectorCount | pkg/tenant/manager.go:218-227 | the vector count becomes the int64 difference, stopped at zero, and nothing else in the usage changes |
| Tenancy.Tenant.UpdateStorageBytes | pkg/tenant/manager.go:230-236 | the storage usage takes the given value |
| Tenancy.Tenant.SetDimensions | pkg/tenant/manager.go:239-244 | the dimensions usage takes the given value and the update time is kept |
| Tenancy.Tenant.UsagePercentage | pkg/tenant/manager.go:247-262 | a percentage exactly for each set limit, between 0 and 100 while usage is within it |
| Tenancy.Tenant.SetActive | pkg/tenant/manager.go:281-287 | the active flag takes the given value |
| Tenancy.Tenant.SetMetadata | pkg/tenant/manager.go:299-305 | the key then reads back the value and every other key is unchanged |
| Tenancy.Clamp | pkg/tenant/manager.go:222-225 | subtraction stopped at zero |
| Tenancy.Wrap64 | pkg/tenant/manager.go:147 | int64 arithmetic: the result lies in the int64 range, an in-range value is kept, and one just above it wraps to the negatives |
| Tenancy.Percent | pkg/tenant/manager.go:254 | used over limit times 100 lies in [0, 100] while usage is within the limit |
| Tenancy.PercentBounds | pkg/tenant/manager.go:254 | used over limit lies in [0, 1] while usage is within the limit |
| Tenancy.Manager.constructor | pkg/tenant/manager.go:48-52 | a new manager has no tenants |
| Tenancy.Manager.CreateTenant | pkg/tenant/manager.go:55-82 | a namespace in use is an error that changes nothing; otherwise a fresh active tenant with zero usage is filed under it |
| Tenancy.Manager.GetTenant | pkg/tenant/manager.go:85-95 | the tenant of the namespace, or the not-found error |
| Tenancy.Manager.DeleteTenant | pkg/tenant/manager.go:98-108 | exactly that namespace goes, or the not-found error changes nothing |
| Tenancy.Manager.ListTenants | pkg/tenant/manager.go:111-121 | every tenant exactly once |
| Tenancy.Manager.UpdateQuota | pkg/tenant/manager.go:124-140 | an existing tenant's quota is replaced and its usage, active flag and metadata kept, the table of tenants is unchanged, or the not-found error |
| CodebookIO.U32 | internal/quantization/product.go:318 | Go's uint32 conversion keeps a value that fits in 32 bits |
| CodebookIO.Shl1 | internal/quantization/product.go:307 | Go's 1 << b on a 64-bit int is 2^b for b below 63 and 0 from 64 on |
| CodebookIO.Bytes | internal/quantization/product.go:330 | PutUint32 writes four bytes |
| CodebookIO.WordRoundTrip | internal/quantization/product.go:367 | Uint32 of the four bytes PutUint32 writes is the word written |
| CodebookIO.Words | internal/quantization/product.go:326-334 | words laid out one after another take four bytes each |
| CodebookIO.WordAtWords | internal/quantization/product.go:367 | the i-th word of a laid-out sequence reads back as that word |
| CodebookIO.Sizes | internal/quantization/product.go:311 | each codebook occupies n centroids times its width in words |
| CodebookIO.Rows | internal/quantization/product.go:327-333 | the serializer writes the first n centroids of a codebook, each cut to its width |
| CodebookIO.Trim | internal/quantization/product.go:358-372 | what reading the section back gives: one codebook per subvector |
| CodebookIO.TrimExact | internal/quantization/product.go:358-372 | codebooks of exactly the announced shape read back unchanged |
| CodebookIO.LayoutLength | internal/quantization/product.go:311 | the codebook section holds the codebook sizes added up |
| CodebookIO.LayoutIndex | internal/quantization/product.go:326-334 | word j of centroid c of subvector s sits after the codebooks before s and the centroids before c |
| CodebookIO.PutUint32 | internal/quantization/product.go:330 | the four bytes of the word are written at the offset and the bytes before it kept |
| CodebookIO.WriteWords | internal/quantization/product.go:328-332 | the words are written from the offset on and the offset after them returned |
| CodebookIO.WriteCodebook | internal/quantization/product.go:327-333 | the first n centroids of one codebook are written, w words each |
| CodebookIO.WriteCodebooks | internal/quantization/product.go:325-334 | the whole codebook section is written, subvector by subvector, code by code, dimension by dimension |
| CodebookIO.RowAt | internal/quantization/product.go:362-370 | a row read from the data has its full width, zeros where the data ran out |
| CodebookIO.CodebookAt | internal/quantization/product.go:360-371 | a codebook read from the data has n centroids |
| CodebookIO.CodebooksAt | internal/quantization/product.go:358-372 | one codebook per subvector is read |
| CodebookIO.ReadWords | internal/quantization/product.go:363-370 | the read checks for four bytes before each word and fails exactly when the row runs past the data |
| CodebookIO.ReadCodebook | internal/quantization/product.go:360-371 | reading a codebook fails exactly when its centroids run past the data |
| CodebookIO.CodebookStopped | internal/quantization/product.go:364-366 | once the data runs out inside a centroid, the later centroids are not reached |
| CodebookIO.ReadCodebooks | internal/quantization/product.go:358-372 | reading the section fails exactly when it runs past the data, "unexpected end of data" |
| CodebookIO.CodebooksStopped | internal/quantization/product.go:364-366 | once the data runs out inside a codebook, the later codebooks are not reached |
| CodebookIO.CodebooksRoundTrip | internal/quantization/product.go:305-375 | reading back a written codebook section gives every codebook, trimmed to its shape, without running out |
| CodebookIO.CodebookRoundTrip | internal/quantization/product.go:305-375 | reading back a written section gives each codebook, trimmed to its shape |
| CodebookIO.CentroidRoundTrip | internal/quantization/product.go:305-375 | reading back a written section gives each centroid cut to its width |
| CodebookOps.SubvectorFits | internal/quantization/product.go:85-86 | a subvector ends within the trained dimensions |
| CodebookOps.Slices | internal/quantization/product.go:88-93 | the training subvectors of each vector |
| CodebookOps.ExtractSubvectors | internal/quantization/product.go:88-93 | each training vector's dimensions [start, start + width) copied into a row of its own |
| CodebookOps.LearnCodebooks | internal/quantization/product.go:80-102 | k-means on each subvector in turn stores its codebook; the first failure stops with that subvector's number and leaves it and the later codebooks unchanged |
| CodebookOps.ScanMinimal | internal/quantization/product.go:121-139 | the scan ends on the first least distance, and on code 0 when no distance is below MaxFloat32 |
| CodebookOps.Distances | internal/quantization/product.go:124-134 | one distance per centroid |
| CodebookOps.NearestCode | internal/quantization/product.go:120-139 | the nearest centroid is found by the scan, ties keeping the earlier code |
| CodebookOps.EncodeSubvectors | internal/quantization/product.go:115-142 | one code per subvector, each the nearest centroid of that subvector |
| CodebookOps.Zeros | internal/quantization/product.go:153 | a new vector is all zeros |
| CodebookOps.Overlay | internal/quantization/product.go:163 | Go's copy keeps the destination's length |
| CodebookOps.Segment | internal/quantization/product.go:156-163 | the dimensions a code decodes to have the subvector's width |
| CodebookOps.Segments | internal/quantization/product.go:155-164 | one segment per subvector, each of its width |
| CodebookOps.Decoded | internal/quantization/product.go:153-166 | a decoded vector has the full dimension |
| CodebookOps.DecodedAt | internal/quantization/product.go:155-164 | word j of subvector s is the centroid's word for its code, 0 for a missing code or a short centroid |
| CodebookOps.DecodedTail | internal/quantization/product.go:153 | the dimensions after the last subvector decode to 0 |
| CodebookOps.PlaceNext | internal/quantization/product.go:155-164 | one pass of Decode's loop places the next subvector |
| CodebookOps.PlaceSegments | internal/quantization/product.go:153-166 | Decode's loop yields the decoded vector |
| CodebookOps.CompressionRatio | internal/quantization/product.go:284-290 | the ratio exists exactly when there are subvectors, and times their number it is four bytes per original dimension |
| ProductQuantization.SumConst | internal/quantization/product.go:85-86 | subvectors of one width add up to that many widths |
| ProductQuantization.Uniform | internal/quantization/product.go:85-86 | the product quantizer's m subvectors are d wide each and subvector s starts at s d |
| ProductQuantization.UniformSizes | internal/quantization/product.go:311 | the codebook section of m codebooks of n centroids of d words has m n d words |
| ProductQuantization.LayoutBytes | internal/quantization/product.go:311 | Serialize's codebook size is four bytes per word the loop writes |
| ProductQuantization.CodebookBytesSerialized | internal/quantization/product.go:293-302 | the codebook bytes GetMemoryUsage reports are the serialized codebook section's |
| ProductQuantization.SerializeRoundTrip | internal/quantization/product.go:305-375 | Deserialize of Serialize's bytes gives back m, b and d, does not run out, and reads each codebook trimmed to its shape |
| ProductQuantization.ProductQuantizer.constructor | internal/quantization/product.go:37-44 | a new quantizer has m empty codebooks and no subvector width yet |
| ProductQuantization.ProductQuantizer.Train | internal/quantization/product.go:57-109 | no training data and a dimension not divisible by m are the two errors and change nothing; otherwise the width is dimension / m and one codebook of 1 << b codes is learnt per subvector |
| ProductQuantization.ProductQuantizer.Encode | internal/quantization/product.go:112-145 | code s is the nearest centroid of codebook s to subvector s, ties going to the lower code |
| ProductQuantization.ProductQuantizer.Decode | internal/quantization/product.go:148-167 | nothing for a code count other than m; otherwise m d dimensions with each valid code's centroid in its subvector and zeros elsewhere |
| ProductQuantization.ProductQuantizer.Serialize | internal/quantization/product.go:305-337 | the three header words then every codebook word by word, 12 bytes plus the codebook bytes in all |
| ProductQuantization.ProductQuantizer.MemoryUsage | internal/quantization/product.go:293-301 | the codebook bytes are four per word of the codebook section Serialize writes (for b below 63), and a vector takes one byte per subvector |
| ProductQuantization.ProductQuantizer.Deserialize | internal/quantization/product.go:340-375 | fewer than 12 bytes is "data too short" and changes nothing; otherwise m, b and d come from the header and the codebooks after it, and the read fails exactly when the data ends too soon |
| ProductQuantization.SaveAndLoad | internal/quantization/product.go:305-375 | loading one quantizer's saved bytes into another gives it the same m, b, d and codebooks, exactly when the codebooks have their announced shape |
| Scann.SplitDims | pkg/scann/anisotropic.go:62-71 | one width per subvector |
| Scann.SplitPrefix | pkg/scann/anisotropic.go:62-71 | the first k widths add up to k (dim / m) plus the number of them that got one of the dim % m extra dimensions |
| Scann.SplitDimsSum | pkg/scann/anisotropic.go:62-71 | the split uses every dimension once, and the widths never grow and differ by at most one |
| Scann.DimWords | pkg/scann/anisotropic.go:257-260 | one header word per subvector width |
| Scann.Packed | pkg/scann/anisotropic.go:152-162 | what the as-written loop has copied fits in the subvector widths |
| Scann.PackedStep | pkg/scann/anisotropic.go:153-161 | an invalid code adds nothing and a valid one adds its segment |
| Scann.PackedNext | pkg/scann/anisotropic.go:152-162 | one pass of the as-written loop: an invalid code leaves the vector and the offset alone, a valid one copies its centroid at the offset and moves it by the width |
| Scann.PackSegments | pkg/scann/anisotropic.go:149-164 | the as-written Decode loop yields the as-written decoding |
| Scann.DecodeOffsetCounterexample | pkg/scann/anisotropic.go:152-162 | with codes [5, 0] over codebooks [[7]] and [[9]], the source decodes [9, 0] where the intended decoding is [0, 9] |
| Scann.AnisotropicQuantizer.constructor | pkg/scann/anisotropic.go:36-43 | a new quantizer has the given dim, m and b and no widths or codebooks |
| Scann.AnisotropicQuantizer.Train | pkg/scann/anisotropic.go:46-108 | no training data and a first vector of another dimension are the errors and change nothing; otherwise the dimensions are split and a codebook of 1 << b codes is learnt per subvector |
| Scann.AnisotropicQuantizer.SplitSubvectors | pkg/scann/anisotropic.go:62-71 | the widths are dim / m, one more for each of the first dim % m |
| Scann.AnisotropicQuantizer.Dims | pkg/scann/anisotropic.go:118-119 | the widths the loops use are the first m stored widths, all of them when there are exactly m |
| Scann.AnisotropicQuantizer.TrainedDimsCover | pkg/scann/anisotropic.go:62-71 | after the split the widths in use add up to dim, so Encode's slices stay inside the vector |
| Scann.AnisotropicQuantizer.BytesPerVector | pkg/scann/anisotropic.go:228-230 | one byte per subvector, the number of widths Encode uses |
| Scann.AnisotropicQuantizer.Encode | pkg/scann/anisotropic.go:111-141 | nothing for a vector of another dimension; otherwise one code per subvector, the nearest centroid with ties to the lower code |
| Scann.AnisotropicQuantizer.DecodeAsWritten | pkg/scann/anisotropic.go:144-165 | nothing for a code count other than m; otherwise the as-written decoding, whose offset an invalid code does not move |
| Scann.AnisotropicQuantizer.Decode | pkg/scann/anisotropic.go:144-165 | nothing for a code count other than m; otherwise each valid code's centroid at its own subvector's dimensions and zeros elsewhere |
| Scann.AnisotropicQuantizer.Serialize | pkg/scann/anisotropic.go:233-274 | dim, m and b, the m widths, then the codebooks, in a buffer of exactly their size |
| Scann.AnisotropicQuantizer.DeserializeAsWritten | pkg/scann/anisotropic.go:277-319 | fewer than 12 bytes is "data too short"; otherwise the header and widths are read, then the codebooks, failing exactly when they run past the data; the widths are read unchecked |
| Scann.AnisotropicQuantizer.Deserialize | pkg/scann/anisotropic.go:277-319 | as the source, but data ending inside the widths is reported as "unexpected end of data" and leaves the codebooks alone |
| Scann.HeaderRoundTrip | pkg/scann/anisotropic.go:249-260 | the header and widths Serialize writes read back |
| Scann.SerializeRoundTrip | pkg/scann/anisotropic.go:233-319 | Deserialize of Serialize's bytes gives back dim, m, b and the widths, does not run out, and reads each codebook trimmed to its shape |
| Scann.SaveAndLoad | pkg/scann/anisotropic.go:233-319 | loading one quantizer's saved bytes into another gives it the same header, widths and codebooks as read back, the codebooks themselves when they have their announced shape |
| Scann.ShortWidthsRejected | pkg/scann/anisotropic.go:294-299 | twelve header bytes announcing one subvector and nothing more are rejected as ending early |
| Observability.LevelString | pkg/observability/logging.go:24-39 | a name other than "UNKNOWN" exactly for the five levels |
| Observability.Lower | pkg/observability/logging.go:284-293 | lower case keeps the length |
| Observability.ParseLogLevel | pkg/observability/logging.go:282-298 | parsing always gives one of the five levels |
| Observability.LevelStringInjective | pkg/observability/logging.go:24-39 | the five names are distinct |
| Observability.ParseRoundTrip | pkg/observability/logging.go:282-298 | parsing a level's name, upper or lower case, gives the level back, and "WARNING" in either case parses as WARN |
| Observability.ParseUnknown | pkg/observability/logging.go:294-296 | anything else parses as INFO |
| Observability.MergeAllLookup | pkg/observability/logging.go:129-137 | the merged fields hold exactly the keys some map has, each with its value from the latest map that has it |
| Observability.MergeInto | pkg/observability/logging.go:133-136 | copying a map entry by entry overlays it on the destination |
| Observability.MergeOverrides | pkg/observability/logging.go:69-84 | an overlay has both maps' keys, the new map's values where it has the key and the old ones elsewhere |
| Observability.FieldsTextAppend | pkg/observability/logging.go:150-155 | the fields text of two runs of keys is one text then the other |
| Observability.FieldsTextAt | pkg/observability/logging.go:152-154 | every field appears once as " key=value" at its place in the order |
| Observability.EntryShape | pkg/observability/logging.go:146-157 | an entry begins with "[time] LEVEL: msg" and ends with a newline, and without fields it is just that |
| Observability.Sink.constructor | pkg/observability/logging.go:44 | a new writer has received nothing |
| Observability.Sink.Write | pkg/observability/logging.go:160 | the entry is appended to what the writer received |
| Observability.Logger.constructor | pkg/observability/logging.go:50-61 | a new logger has the given level and writer, no fields and RFC 3339 times |
| Observability.Logger.Derived | pkg/observability/logging.go:78-83 | a derived logger has exactly the given level, writer, fields and time format |
| Observability.Logger.WithFields | pkg/observability/logging.go:69-84 | a new logger on the same writer and level whose fields are this one's overlaid by the extra ones |
| Observability.Logger.WithField | pkg/observability/logging.go:87-89 | a new logger with one field added or replaced |
| Observability.Logger.SetLevel | pkg/observability/logging.go:92-94 | the level changes and the fields stay |
| Observability.Logger.Log | pkg/observability/logging.go:123-161 | a message below the level writes nothing; otherwise exactly one entry with the message, its level's name and every field |
| Observability.CollectFields | pkg/observability/logging.go:129-143 | the logger's fields, each extra map over them in turn, then "file" when the caller is known |
| Observability.FormatEntry | pkg/observability/logging.go:146-157 | the entry text, one field at a time in the given order |
| Observability.LogAccess | pkg/observability/logging.go:313-326 | method, path, status and duration, overlaid by the extra fields, logged at INFO as "Access" |

## Left out

- HnswIndex.Index.PruneNeighbors: does not model the pruning as written: its contract and the members it relies on state the corrected pruning, in which the new node is resolvable while its neighbours are pruned; as written (pkg/hnsw/insert.go:96-115) an over-full neighbour can lose its back-link to the new node and gain id 0, which these contracts exclude (see "## Findings").
- HnswIndex.Index.PrunedNeighbour: does not model the pruning as written: its contract and the members it relies on state the corrected pruning, in which the new node is resolvable while its neighbours are pruned; as written (pkg/hnsw/insert.go:96-115) an over-full neighbour can lose its back-link to the new node and gain id 0, which these contracts exclude (see "## Findings").
- HnswIndex.Index.Link: does not model the pruning as written: its contract and the members it relies on state the corrected pruning, in which the new node is resolvable while its neighbours are pruned; as written (pkg/hnsw/insert.go:96-115) an over-full neighbour can lose its back-link to the new node and gain id 0, which these contracts exclude (see "## Findings").
- HnswIndex.Index.LinkLayer: does not model the pruning as written: its contract and the members it relies on state the corrected pruning, in which the new node is resolvable while its neighbours are pruned; as written (pkg/hnsw/insert.go:96-115) an over-full neighbour can lose its back-link to the new node and gain id 0, which these contracts exclude (see "## Findings").
- HnswIndex.Index.LinkLayers: does not model the pruning as written: its contract and the members it relies on state the corrected pruning, in which the new node is resolvable while its neighbours are pruned; as written (pkg/hnsw/insert.go:96-115) an over-full neighbour can lose its back-link to the new node and gain id 0, which these contracts exclude (see "## Findings").
- HnswIndex.Index.AddLinked: does not model the pruning as written: its contract and the members it relies on state the corrected pruning, in which the new node is resolvable while its neighbours are pruned; as written (pkg/hnsw/insert.go:96-115) an over-full neighbour can lose its back-link to the new node and gain id 0, which these contracts exclude (see "## Findings").
- HnswIndex.Index.Insert: does not model the pruning as written: its contract and the members it relies on state the corrected pruning, in which the new node is resolvable while its neighbours are pruned; as written (pkg/hnsw/insert.go:96-115) an over-full neighbour can lose its back-link to the new node and gain id 0, which these contracts exclude (see "## Findings").
- HnswIndex.Index.Update: does not model the pruning as written: its contract and the members it relies on state the corrected pruning, in which the new node is resolvable while its neighbours are pruned; as written (pkg/hnsw/insert.go:96-115) an over-full neighbour can lose its back-link to the new node and gain id 0, which these contracts exclude (see "## Findings").
- Floating point: float32/float64 arithmetic is modelled over reals. NaN, infinities and rounding are not modelled. Go's division by zero (an infinity) becomes 0 in the RRF share and a missing value in the compression ratios.
- Distance functions, k-means++, BM25 term weights and the HNSW heap searches (searchLayer, searchLayerForQuery) enter as function parameters. The model proves what the code does with their results, not their numeric behaviour.
- randomLevel (pkg/hnsw/index.go:86-95) is random; a new node's level is a parameter of Insert.
- Concurrency and locking are not modelled: mutexes, atomics, the BatchInsert, BatchDelete and BatchUpdate worker pools of pkg/hnsw/batch.go, and GetBatchStats. BatchInsertWithBuffer inserts each chunk with the sequential batch, which gives the same results without concurrency.
- HNSW aliasing: the index table holds node values, not shared node objects. Aliasing between the table, the entry point and references the caller holds is not captured. HnswNode.Node models node.go's object on its own.
- Full-text aliasing: the full-text index stores the caller's *Document pointers (pkg/search/fulltext.go:25, :92) and re-tokenises the stored document's Text on removal (pkg/search/fulltext.go:141). A caller that changes a document's Text after indexing it leaves stale postings behind. The model stores document values, so SearchFullText.RemoveKeeps, SearchFullText.AddKeeps and SearchFullText.IndexedPostings hold only for callers that never change an indexed document.
- HnswIndex.Index.Update: the "failed to delete old vector" branch needs a concurrent deletion to be reachable, so it is not modelled.
- The SHA-256 cache keys (pkg/search/cache.go:197-240) and CachedHybridSearch depend on hashing. QueryCache's Stats and Size only delegate to the LRU cache methods of the same name, which are modelled.
- GeoRadius filters need haversine distances. A Geo filter matches no modelled value.
- The tokenizer classifies ASCII exactly and treats every non-ASCII character as a letter; Unicode tables are not modelled.
- Go's zero time.Time (a tenant's LastQueryTime before any query) is modelled as time 0.
- Metadata and log field values are the Go dynamic types the matcher distinguishes, or the text `%v` prints for them.
- Go's map iteration order is unspecified. Where the source ranges over a map to build a list or text, the model takes the order as a parameter or a choice.
- The proto conversions resultToProto and applyFilter, and the gRPC Search, HybridSearch, GetStats and HealthCheck handlers, are left out beyond their validation and the efSearch default. What they return is computed by the indexes, which are parameters here.
- REST HealthCheck, BatchInsert and the documentation handler only forward to the gRPC service; JSON decoding is a parameter.
- The Python client's get_stats and health_check return the stub's response fields unchanged.
- PyClient: the Go server in this repository answers every failed call with a non-OK gRPC status, which the stub raises as an RpcError. The "<what> failed: " branches of the client are then reachable only with another server; they are modelled as written.
- The distance-table and distance functions of both quantizers (ComputeDistanceTable, AsymmetricDistance, SymmetricDistance) are float arithmetic over codebooks. The configuration getters and setters only read or write a field. The anisotropic quantizer's rotation is never enabled.
- Memory exhaustion and Go panics are outside the model. A panic (slicing past a vector's end, make with a negative size) is excluded by a precondition.
- Observability.Logger.Log: Debug, Info, Warn, Error, Fatal and their f-variants are one-line wrappers around log. The os.Exit of Fatal, LogOperation and the package-level default logger are not modelled, nor is the log.Printf warning ParseLogLevel prints for an unknown name.
- ProductQuantization.ProductQuantizer.Deserialize: requires that a header with b = 63 announce no subvectors. Go's 1 << 63 is negative, and make panics on it then.
- ProductQuantization.ProductQuantizer.Serialize: the length equation is stated for b < 63 only, since 1 << 64 and above is 0 in Go.
- Scann.AnisotropicQuantizer.Train: requires every training vector to have at least dim dimensions, since the source's slicing panics otherwise.
- Scann.AnisotropicQuantizer.Encode, Scann.AnisotropicQuantizer.DecodeAsWritten and Scann.AnisotropicQuantizer.Decode: require the subvector widths to add up to at most dim, which Train guarantees. Other widths may make the source panic.
- Scann.AnisotropicQuantizer.DeserializeAsWritten: requires the data to hold the announced widths, since the source's unchecked read panics otherwise. See the findings below.

## Findings

| source | as written | input that shows it | evidently intended | confidence | as-written member | corrected member |
|---|---|---|---|---|---|---|
| pkg/hnsw/insert.go:232-239 | pruneNeighbors leaves the zero record {id 0, dist 0} for a neighbour whose node is not found, then sorts it first | neighbours [5, 7], node 7 absent, M = 1: the pruned list is [0] | skip unresolved neighbours, so only real neighbours are kept | not executed | HnswSelect.PruneAsWrittenPhantom | HnswSelect.PruneKeepsNeighbors |
| pkg/hnsw/insert.go:96-115 | Insert prunes each over-full neighbour before it stores the new node (line 115), so the new node is one of the unresolved neighbours | neighbour at [0.0] listing 5 at [1.0] and the new node 7 at [0.5], cap 1: the list becomes [0] | prune after the new node is stored, so the back-link is kept: [7] | not executed | HnswIndex.InsertPruneAsWritten | HnswIndex.Index.PrunedNeighbour |
| pkg/search/filter.go:252-261 | equals compares an int with int(toFloat64(b)), so a string (0.0) or a fraction (truncated) can equal an int, depending on the argument order | IntV(0) vs "abc" is equal; 5 vs 5.7 is equal, but 5.7 vs 5 is not | numeric values compare as numbers in either order, and a number never equals a string | not executed | SearchFilter.EqualsAsWrittenMismatch | SearchFilter.EqualsEquivalence |
| pkg/api/grpc/handlers.go:738-741 | search.In(field, values) passes the []interface{} as one variadic element, so the list holds one boxed slice | "color" in ["red"] against color = "red" does not match | search.In(field, values...) | not executed | GrpcHandlers.ToFilterListCounterexample | GrpcHandlers.ListMembership |
| pkg/scann/anisotropic.go:152-162 | Decode advances its offset only after a valid code, so the centroids after an invalid code land one subvector early | dims [1, 1], codebooks [[7]] and [[9]], codes [5, 0]: gives [9, 0] | each centroid at its own subvector's offset: [0, 9] | not executed | Scann.DecodeOffsetCounterexample | CodebookOps.DecodedAt |
| pkg/scann/anisotropic.go:294-299 | Deserialize reads the subvector widths without checking that the data holds them | the 12 bytes of the words [0, 1, 0]: one subvector announced and no width follows | report "unexpected end of data", as the codebook reads do | not executed | Scann.AnisotropicQuantizer.DeserializeAsWritten | Scann.ShortWidthsRejected |
