# Verified model of the code-graph, retrieval, LSP-framing and image-size code

This project models four parts of the repository and proves what they are for.

- **Code graph** (`crates/codegraph/src/lib.rs`, `packages/code-graph/src/knowledge-graph.ts`,
  `packages/code-graph/src/repo-map.ts`). `Graph.dfy` defines walks, reachability and distance once, for any
  node type, and every graph result is stated in those terms. `find_cycles` is the iterative Tarjan run over its
  own vectors (`FindCycles.dfy`); every step refines a step on an abstract state whose invariant is in
  `Tarjan.dfy`. `Bfs.dfy` and `Impact.dfy` hold `callers`, `callees` and `blast_radius`. `KnowledgeGraph.dfy` is the
  class with its two edge indices and its traversals; their invariants are in `LazyBfs.dfy`, `PathSearch.dfy` and
  `CycleSearch.dfy`. `CyclesAgree.dfy` connects the two cycle detectors. `PageRank.dfy`, `NativeRank.dfy` and
  `RepoMap.dfy` are the power iteration with dangling mass, over reals, in its Rust and its JavaScript form;
  `Vectors.dfy` and `Reals.dfy` hold the algebra they need.
- **Retrieval** (`crates/retrieval/src`). `Splitter.dfy` is `split_fixed` with both of its paths, `Tokenizer.dfy` and
  `Bm25.dfy` the inverted index and its query, `Incremental.dfy` the file tracker and the incremental index
  (with `Paths.dfy` and `Sorting.dfy` for the order of paths),
  `SharedCounts.dfy` and `Bits.dfy` the two ways of counting overlaps. `Unicode.dfy` holds the encodings by which
  texts are measured.
- **LSP framing** (`packages/code-graph/src/lsp-client.ts`): `Lsp.dfy`, the reading loop over the byte buffer and the
  writer, for the base protocol of the Language Server Protocol 3.17.
- **Image sizes** (`packages/computer-use/src/actionParser.ts`): `Resize.dfy` is the function, `ResizeBudget.dfy` what
  its results are worth.

Where the programs change state, the model is a class or a loop over the same fields and arrays, proved against a
specification that does not mention how it is computed.

Six promises turn out to hold only under a condition. For each, the exact condition is proved, and an input that breaks
the promise:

- `blast_radius` splits the nodes within `max_depth` unless `max_depth` is 0 while some node that is not modified calls
  a modified one (`Impact.SplitsWithinDepth`, `Impact.DepthZeroReportsCaller`).
- `split_fixed` never exceeds its size unless the size is 1, or is 2 with an overlap (`Splitter.SizeBoundExactly`), and
  its windows always start further on unless the size is 2 with an overlap (`Splitter.AdvanceExactly`,
  `Splitter.WideTextStalls`).
- `findPath` gives whole paths in every case if and only if no edge leads from the blank id to another, because its walk
  back stops at a falsy parent (`PathSearch.CutPathsLead`, `PathSearch.BlankOnTheWay`).
- The scores of `computePageRank` sum to 1, as its comment says, if and only if no node id occurs twice and, on the
  native path, no out-weight lies strictly between 0 and 1e-9 (`RepoMap.ScoresSumToOne`, `RepoMap.DuplicateIdLoses`).
  The two paths agree under that last condition (`RepoMap.PathsAgree`, `RepoMap.TinyCallParts`). The native ranks of any
  graph sum to 1 if and only if, besides, no weight leaves the graph (`NativeRank.NativeMass`,
  `NativeRank.LeavingWeightLoses`, `NativeRank.TinyWeightLoses`). With a damping of 0 or no iteration nothing is lost.
- The incremental index equals a build from scratch over the current files if and only if the contents it has carried
  over (the old one of every file that changed without changing its hash) have, in path order, the same token counts and
  byte lengths as the current ones (`Incremental.FreshExactly`, which `Incremental.IncrementalIndex.Reindex` and
  `Incremental.ReindexAll` promise). So no collision means a right index; a collision of "a" with "b" makes it wrong
  (`Incremental.CollisionBreaksIndex`), one of "." with "," does not (`Incremental.CollisionWithoutHarm`).
- `smartResizeForV15` keeps its pixel budget with the default limits; with other limits it does if and only if finitely
  many multiples of the factor are safe (`ResizeBudget.BudgetExactly`, `ResizeBudget.NarrowLimitsBreak`), and it keeps
  both sides positive if and only if, for a ratio of at least 1, the upper limit is at least the ratio times the factor
  squared (`ResizeBudget.PositiveExactly`).

## Model

| member | source | states |
|---|---|---|
| FindCycles.FindCycles | crates/codegraph/src/lib.rs:206-297 | the lists are exactly the mutual-reachability classes that contain a cycle, each node once and led to by an edge from an earlier one of its list, every node on a cycle in one of them, and no list reaches a later one (reverse topological order) |
| FindCycles.StackTree | crates/codegraph/src/lib.rs:278-289 | the popped nodes, in stack order, are each led to by an edge from an earlier one |
| FindCycles.Adjacency | crates/codegraph/src/lib.rs:207-214 | the adjacency lists hold exactly the edges that start below n; ends beyond n are kept and skipped later |
| FindCycles.Run.OpenNode | crates/codegraph/src/lib.rs:233-242 | first visit: next index, lowlink, node stack, frame, and nothing else changes |
| FindCycles.Run.LookAtEdge | crates/codegraph/src/lib.rs:248-268 | one turn on an edge: out of range, unvisited, on the stack or done, with the whole new state |
| FindCycles.Run.ReturnFromFrame | crates/codegraph/src/lib.rs:269-291 | one return: the lowlink passes to the parent frame and a root closes its component |
| FindCycles.Run.PopUntil | crates/codegraph/src/lib.rs:278-284 | u is on the stack, the pop loop stops at it, clears exactly the popped flags and yields the popped nodes in stack order, u first |
| FindCycles.FrameWaits | crates/codegraph/src/lib.rs:277-285 | at every moment of the run the node of the innermost frame is on the node stack, so the pop loop has where to stop |
| FindCycles.Run.Step | crates/codegraph/src/lib.rs:244-293 | every turn keeps the invariant and lowers (unvisited nodes, edges left and open frames) |
| FindCycles.Run.Explore | crates/codegraph/src/lib.rs:229-293 | the inner loop ends with no frame, with every earlier visit kept and the start node visited |
| FindCycles.CycleTest | crates/codegraph/src/lib.rs:286-287 | the size and self-loop test is true exactly of the classes whose nodes lie on a cycle |
| FindCycles.AppendClass | crates/codegraph/src/lib.rs:277-291 | appending the popped class to the report keeps it complete, exact and reverse topological |
| FindCycles.GoodInRange | crates/codegraph/src/lib.rs:225-293 | every index used is in range and the 32-bit counter never passes the number of nodes |
| FindCycles.LookMeasure | crates/codegraph/src/lib.rs:248-268 | looking at an edge lowers the measure unless it visits a new node |
| FindCycles.OpenRootGood | crates/codegraph/src/lib.rs:229-242 | the node stack is empty between roots, and entering a root keeps the invariant |
| FindCycles.EndGood | crates/codegraph/src/lib.rs:296 | once every node is visited and no frame is open, the report is what is promised |
| Tarjan.EnterChild | crates/codegraph/src/lib.rs:253-265 | entering an unvisited successor keeps the invariant on indices, lowlinks, stack and frames |
| Tarjan.LookBack | crates/codegraph/src/lib.rs:266-268 | lowering a lowlink to the index of a waiting node keeps the invariant |
| Tarjan.ReturnInv | crates/codegraph/src/lib.rs:269-275 | a frame that returns without closing a component keeps the invariant |
| Tarjan.RootCloses | crates/codegraph/src/lib.rs:277 | the outermost frame always closes a component |
| Tarjan.ComponentIsClass | crates/codegraph/src/lib.rs:277-285 | when the lowlink equals the index, the waiting nodes from u on are a whole mutual-reachability class |
| Tarjan.EmitInv | crates/codegraph/src/lib.rs:277-285 | popping a component keeps the invariant, among it that no edge leaves the popped nodes |
| Impact.ForwardLists | crates/codegraph/src/lib.rs:120-125 | the map from node to successors holds exactly the edges |
| Impact.ReverseLists | crates/codegraph/src/lib.rs:84-89 | the map from node to predecessors holds exactly the reversed edges |
| Bfs.Traverse | crates/codegraph/src/lib.rs:91-113 | the search lists exactly the other nodes within the bound, each once, nearest first |
| Bfs.Cover | crates/codegraph/src/lib.rs:99-111 | once every known node below a level is expanded, levels are distances up to that level |
| Impact.Callers | crates/codegraph/src/lib.rs:82-114 | exactly the nodes other than the target from which it is at most max_depth away, each once, nearest first |
| Impact.Callees | crates/codegraph/src/lib.rs:118-150 | exactly the nodes other than the source at most max_depth away from it, each once, nearest first |
| Impact.WithinReverse | crates/codegraph/src/lib.rs:82-150 | callers are callees of the reversed graph: distances agree both ways |
| Impact.CallersOfAll | crates/codegraph/src/lib.rs:162-176 | the impacted set is the non-modified nodes within the depth of some modified node |
| Impact.ComputeBlastRadius | crates/codegraph/src/lib.rs:153-201 | both lists ascending and exact: distance 1, and within the bound but not 1; total and score from them |
| Impact.SplitsWithinDepth | crates/codegraph/src/lib.rs:162-186 | the two lists split the nodes within max_depth if and only if max_depth >= 1 or every caller of a modified node is modified |
| Impact.DepthZeroReportsCaller | crates/codegraph/src/lib.rs:162-168 | the input that breaks the split: one call of a modified node, with a depth of 0 |
| PageRank.PowerIteration | crates/codegraph/src/lib.rs:45-75 | the loop on the two buffers yields the k-th iterate of the uniform vector |
| PageRank.OneStep | crates/codegraph/src/lib.rs:51-73 | one pass over dangling nodes and edges is one step of the specification |
| PageRank.StepFormula | crates/codegraph/src/lib.rs:50-73 | what a step gives a node, beyond the sum of d * rank * weight / divisor over its incoming edges, is the same for all nodes: an n-th of 1 - d and of the damped rank of the nodes without out-weight |
| PageRank.StepContracts | packages/code-graph/src/repo-map.ts:131-156 | with non-negative weights, one step brings any two rank vectors, of any sign, closer by the damping factor, in L1 distance |
| PageRank.IterateContracts | packages/code-graph/src/repo-map.ts:135-156 | after k steps they are at most d^k times their first distance apart |
| PageRank.FixedPointApproached | packages/code-graph/src/repo-map.ts:131-156 | the iterates approach any fixed point, of any sign, at that rate |
| PageRank.FixedPointUnique | packages/code-graph/src/repo-map.ts:131-156 | below a damping of 1 there is at most one fixed point among all vectors |
| PageRank.IterateFloor | packages/code-graph/src/repo-map.ts:133-137 | every entry of every iterate is at least (1-d)/n |
| PageRank.MassExactly | crates/codegraph/src/lib.rs:45-75 | an iterate sums to exactly 1 if and only if every node with out-weight sends away all it divides by, or the damping or the number of steps is 0 |
| PageRank.MassIsLost | crates/codegraph/src/lib.rs:60-68 | otherwise the sum is below 1 from the first step on |
| NativeRank.Pagerank | crates/codegraph/src/lib.rs:34-77 | the Rust function returns the iterate of its net: out-weights of all edges that start below n, terms of those with both ends below n, divisor of at least 1e-9 |
| NativeRank.NativeMass | crates/codegraph/src/lib.rs:38-76 | with non-negative weights, for every damping from 0 to 1 and any number of iterations, the result has the floor, sums to at most 1, and to 1 if and only if the edges are lossless or nothing is passed on |
| NativeRank.LeavingWeightLoses | crates/codegraph/src/lib.rs:60-68 | an edge out of the graph: the sum is below 1 |
| NativeRank.TinyWeightLoses | crates/codegraph/src/lib.rs:64-66 | an edge of half the smallest divisor: the sum is below 1 |
| NativeRank.LosslessConserves | crates/codegraph/src/lib.rs:38-68 | the net conserves mass if and only if no positive weight leaves the graph and no out-weight lies between 0 and 1e-9 |
| RepoMap.CollectEdges | packages/code-graph/src/repo-map.ts:111-128 | exactly the edges of ranking kinds between two different known nodes, in order, with a positive weight each |
| RepoMap.RankedExactly | packages/code-graph/src/repo-map.ts:111-128 | those edges are, in order, the call, reference, import, extends and implements edges between two different known nodes, by index, with the weight of each if positive and 1 otherwise |
| RepoMap.JsPath | packages/code-graph/src/repo-map.ts:117-156 | the JavaScript loop yields the iterate of the net that divides by the out-weight itself |
| RepoMap.ScoresById | packages/code-graph/src/repo-map.ts:158-159 | every id gets the rank of the last node with that id |
| RepoMap.ComputePageRank | packages/code-graph/src/repo-map.ts:70-160 | the scored ids are those of the nodes, each with its rank on the chosen path; for a damping from 0 to 1 the scores in the map add up to 1 under exactly the condition of ScoresSumToOne |
| RepoMap.JsMass | packages/code-graph/src/repo-map.ts:111-156 | on every graph the JavaScript ranks sum to exactly 1 and are at least (1-d)/n |
| RepoMap.PathsAgree | packages/code-graph/src/repo-map.ts:81-156 | the native and the JavaScript path give the same ranks if and only if no out-weight lies between 0 and 1e-9, or nothing is passed on |
| RepoMap.TinyCallParts | packages/code-graph/src/repo-map.ts:81-156 | the input that sets them apart: one call of weight 5e-10 |
| RepoMap.ScoresSumToOne | packages/code-graph/src/repo-map.ts:65-69 | for every damping from 0 to 1, on either path, the scores by id sum to 1 if and only if the node ids are distinct and, on the native path, no out-weight lies between 0 and 1e-9 (or nothing is passed on) |
| RepoMap.DuplicateIdLoses | packages/code-graph/src/repo-map.ts:106-107 | two nodes with one id: for every damping from 0 to 1, on both paths, the scores do not sum to 1 |
| KnowledgeGraph.KnowledgeGraph.AddNode | packages/code-graph/src/knowledge-graph.ts:33-41 | the node is put in place of the one with its id or at the end; the indices still agree with the edge list |
| KnowledgeGraph.PutNode | packages/code-graph/src/knowledge-graph.ts:33-34 | a node with a known id takes the place of the one with that id and no other moves; any other node goes to the end |
| KnowledgeGraph.KnowledgeGraph.AddEdge | packages/code-graph/src/knowledge-graph.ts:55-66 | the edge is appended; the indices still agree with the edge list |
| KnowledgeGraph.KnowledgeGraph.RebuildAdjacency | packages/code-graph/src/knowledge-graph.ts:679-701 | the indices are exactly the positions of the edges by end, whatever they were before |
| KnowledgeGraph.KnowledgeGraph.RemoveFile | packages/code-graph/src/knowledge-graph.ts:118-141 | exactly the nodes of the file go, with exactly the edges that touch them, and the indices agree again |
| KnowledgeGraph.DroppedEdges | packages/code-graph/src/knowledge-graph.ts:127-130 | the edges that stay are exactly those that touch no removed id, in their old order |
| KnowledgeGraph.DroppedNodes | packages/code-graph/src/knowledge-graph.ts:135-140 | the nodes that stay are exactly the others, in their old order |
| KnowledgeGraph.KnowledgeGraph.Clear | packages/code-graph/src/knowledge-graph.ts:638-643 | the graph is empty |
| KnowledgeGraph.DropFrom | packages/code-graph/src/knowledge-graph.ts:127-141 | after a removal a removed node has no outgoing edges, and any other keeps, in order, those to nodes that stay |
| KnowledgeGraph.DropTo | packages/code-graph/src/knowledge-graph.ts:127-141 | the same for incoming edges |
| KnowledgeGraph.KnowledgeGraph.GetEdgesFrom | packages/code-graph/src/knowledge-graph.ts:175-179 | reading through the index gives the order-preserving filter of the edge list |
| KnowledgeGraph.FilteredEdges | packages/code-graph/src/knowledge-graph.ts:175-186 | that filter consists of exactly the edges that leave, or enter, the node, in the order of increasing positions |
| KnowledgeGraph.KnowledgeGraph.GetEdgesTo | packages/code-graph/src/knowledge-graph.ts:182-186 | the same for incoming edges |
| KnowledgeGraph.AtPositions | packages/code-graph/src/knowledge-graph.ts:175-186 | the edges at the indexed positions are the filtered edge list |
| KnowledgeGraph.KnowledgeGraph.FromJSON | packages/code-graph/src/knowledge-graph.ts:630-635 | a new graph holding the data, with indices that agree |
| KnowledgeGraph.KnowledgeGraph.Reload | packages/code-graph/src/knowledge-graph.ts:622-635 | writing out and reading back gives the same nodes and edges in the same order, so every query answers alike |
| KnowledgeGraph.KnowledgeGraph.Bfs | packages/code-graph/src/knowledge-graph.ts:486-511 | exactly the existing nodes within maxDepth, each once, nearest first, although nodes are marked when dequeued |
| LazyBfs.Complete | packages/code-graph/src/knowledge-graph.ts:491-508 | a search that marks at dequeue visits exactly the nodes within the bound, nearest first |
| KnowledgeGraph.BfsAnswer | packages/code-graph/src/knowledge-graph.ts:497-510 | leaving out ids without a node keeps the answer exact and in order |
| KnowledgeGraph.KnowledgeGraph.FindPath | packages/code-graph/src/knowledge-graph.ts:541-576 | there is an answer if and only if the distance is at most maxDepth; it is a shortest path cut after the last blank id, and a whole shortest path if no edge leads from the blank id to another |
| PathSearch.HuntEnds | packages/code-graph/src/knowledge-graph.ts:547-551 | when the target is dequeued, its parent links form a path along edges that no walk undercuts |
| PathSearch.HuntFails | packages/code-graph/src/knowledge-graph.ts:575 | an empty queue means that the distance exceeds maxDepth |
| PathSearch.Rebuild | packages/code-graph/src/knowledge-graph.ts:552-560 | the walk back yields the tree path, cut after the last blank id before its end |
| PathSearch.CutPathsLead | packages/code-graph/src/knowledge-graph.ts:554-556 | the cut keeps every shortest path of a graph leading from its start to its end, and in full, if and only if no edge leads from the blank id to another; along an edge that does, every answer is cut |
| PathSearch.CutLeadsAstray | packages/code-graph/src/knowledge-graph.ts:554-556 | a shortest path, once cut, leads from its start to its end if and only if no id before its end is blank |
| PathSearch.BlankOnTheWay | packages/code-graph/src/knowledge-graph.ts:554-556 | the input that breaks it: from a by way of the blank id to b, the answer is b alone |
| PathSearch.AfterBlankExactly | packages/code-graph/src/knowledge-graph.ts:554-556 | the cut path is the whole path if and only if no id before its end is blank, and shorter otherwise |
| KnowledgeGraph.KnowledgeGraph.DetectCycles | packages/code-graph/src/knowledge-graph.ts:582-617 | every list is a simple cycle along edges; without the edges that close the lists no node leads to a cycle, so every component with a reachable cycle has a list; an edge that closes a list closes one for each time it was added; there is no list if and only if no cycle is reachable from a node |
| KnowledgeGraph.CycleRun.Visit | packages/code-graph/src/knowledge-graph.ts:588-610 | a visit keeps the invariant and restores the stack; for a node on the stack it adds exactly one list, closed by the edge followed, and otherwise it leaves the counts of the nodes visited before as they are |
| KnowledgeGraph.CycleRun.FollowAll | packages/code-graph/src/knowledge-graph.ts:603-606 | after all edges from the top of the stack, each target is finished or closes a list, one for each edge back into the stack |
| CycleSearch.CloseCycle | packages/code-graph/src/knowledge-graph.ts:589-596 | the part of the stack from the met node on is a simple cycle with its closing edge |
| CycleSearch.Leave | packages/code-graph/src/knowledge-graph.ts:608-609 | leaving a node keeps the order of done nodes topological for all edges but those that close a list |
| CycleSearch.Verdict | packages/code-graph/src/knowledge-graph.ts:612-616 | after all nodes were visited, the closing edges cut every reachable cycle, every component with one has a list, and the result is empty if and only if there is none |
| CycleSearch.CycleReported | packages/code-graph/src/knowledge-graph.ts:589-596 | a cycle that the closing edges cut shares its component with a reported list |
| CyclesAgree.CycleImage | packages/code-graph/src/knowledge-graph.ts:582-617 | numbering the nodes keeps exactly the nodes on cycles |
| CyclesAgree.FlatImage | crates/codegraph/src/lib.rs:206-214 | the edges that find_cycles sees in the flat arrays of a graph are exactly its edges, by node index |
| CyclesAgree.DetectorsAgree | crates/codegraph/src/lib.rs:206-297 | of two reports on a graph and on its numbering, one is empty if and only if the other is |
| CyclesAgree.RunBoth | packages/code-graph/src/knowledge-graph.ts:582-617 | both detectors on one graph whose edge ends are nodes: detectCycles is empty if and only if find_cycles is |
| Splitter.SplitFixed | crates/retrieval/src/splitters.rs:185-258 | on any text, both paths give the chunks of one window specification: ids, texts and byte offsets |
| Splitter.OverlapExactly | crates/retrieval/src/splitters.rs:189-244 | by the size and overlap that are passed: consecutive windows share at most the overlap and at most half the size, and one character more would exceed one of them |
| Splitter.AsciiOverlap | crates/retrieval/src/splitters.rs:194-212 | in ASCII text every window but the last has exactly the size, and the next one starts min(overlap, size / 2) before its end |
| Splitter.MeasuresAreEncodings | crates/retrieval/src/splitters.rs:220-246 | byte offsets count the UTF-8 bytes, and units the UTF-16 code units, of the text before |
| Splitter.SplitAscii | crates/retrieval/src/splitters.rs:194-212 | byte slicing on ASCII text gives the chunks of that specification |
| Splitter.SplitStream | crates/retrieval/src/splitters.rs:214-257 | the streaming path gives the chunks of that specification on any text |
| Splitter.CloseWindow | crates/retrieval/src/splitters.rs:222-244 | closing a window appends exactly its chunk and rewinds to the right start, units and window |
| Splitter.Rewind | crates/retrieval/src/splitters.rs:230-241 | the rewind keeps the longest tail of at most overlap units |
| Splitter.SamePaths | crates/retrieval/src/splitters.rs:193-257 | two chunk lists that satisfy the specification are equal, so the fast path equals the streaming path on ASCII text |
| Splitter.AllSpansCover | crates/retrieval/src/splitters.rs:189-257 | windows cover the text from 0 to its end; ends strictly increase; each starts inside the one before, shares as many characters as the clamped overlap holds, and could not take one character more |
| Splitter.SplitRebuilds | crates/retrieval/src/splitters.rs:214-257 | dropping from each chunk what the one before it has rebuilds the text, by the reported byte offsets alone |
| Splitter.SizeBoundExactly | crates/retrieval/src/splitters.rs:221-244 | no chunk of any text exceeds the size if and only if the size is not 1, nor 2 with an overlap |
| Splitter.AdvanceExactly | crates/retrieval/src/splitters.rs:229-244 | starts strictly increase on every text if and only if the size is not 2 or there is no overlap |
| Splitter.WideTextStalls | crates/retrieval/src/splitters.rs:222-244 | the input that breaks both for size 2: a narrow and then a wide character |
| Tokenizer.Tokenize | crates/retrieval/src/lib.rs:243-270 | the loop yields the token list that the three rows below determine |
| Tokenizer.SeparatorSplits | crates/retrieval/src/lib.rs:261-263 | a character that is neither CJK nor alphanumeric separates: the tokens are those of the text before and those of the text after |
| Tokenizer.CjkStandsAlone | crates/retrieval/src/lib.rs:253-257 | a CJK character is a token of its own between those of the text before and those of the text after |
| Tokenizer.WordIsToken | crates/retrieval/src/lib.rs:258-267 | a text of alphanumeric characters is one token, its lower-case form, and none if that is empty |
| Tokenizer.TokensKeepText | crates/retrieval/src/lib.rs:243-270 | the tokens put together are the lower-cased text without what is neither a letter, a digit nor CJK, and none is empty |
| Bm25.CountsAreOccurrences | crates/retrieval/src/lib.rs:57-61 | the counts of a chunk are the multiplicities of its tokens |
| Bm25.FromTokenCounts | crates/retrieval/src/lib.rs:74-117 | each term has its document frequency and its postings in chunk order; lengths, average, size and parameters are right |
| Bm25.Build | crates/retrieval/src/lib.rs:53-66 | the index is that of the texts |
| Bm25.IndexUnique | crates/retrieval/src/lib.rs:91-116 | the chunks, lengths and parameters determine the index |
| Bm25.IndexDetermines | crates/retrieval/src/lib.rs:91-116 | the index determines the token counts and the lengths of all chunks |
| Bm25.PostingsComplete | crates/retrieval/src/lib.rs:94-105 | a term has a posting for exactly the chunks that contain it |
| Bm25.PostingsOrdered | crates/retrieval/src/lib.rs:94-105 | postings are in chunk order |
| Bm25.PostingsAreFrequency | crates/retrieval/src/lib.rs:100-104 | the stored df is the number of chunks that contain the term |
| Bm25.Query | crates/retrieval/src/lib.rs:120-142 | the result lists exactly the chunks that share a token with the query, each once, with the score of a full scan, best first |
| Bm25.PartFormula | crates/retrieval/src/lib.rs:126-136 | what a term adds to a chunk, written out from the corpus: ln((n + 1) / (df + 0.5)) * tf * (k1 + 1) / (tf + k1 * (1 - b + b * len * n / total)) |
| Bm25.ScanAdds | crates/retrieval/src/lib.rs:122-137 | the score for two lists of terms is the sum of the two scores, and for one term its part |
| Bm25.RarerCountsMore | crates/retrieval/src/lib.rs:126-127 | for an increasing ln a term that fewer chunks have adds strictly more |
| Bm25.OftenerCountsMore | crates/retrieval/src/lib.rs:133-136 | a term that the chunk has more often adds strictly more, if k1 > 0 |
| Bm25.LongerCountsLess | crates/retrieval/src/lib.rs:132-136 | in a longer chunk a term adds strictly less, if k1 > 0 and b > 0 |
| Bm25.ScanPositive | crates/retrieval/src/lib.rs:126-138 | a matching chunk has a positive score, because no document frequency exceeds the number of chunks; any other has 0 |
| Sorting.SortedUnique | crates/retrieval/src/incremental.rs:270-271 | a sorted list of a set of paths is unique, so map iteration order does not matter |
| Paths.LessExactly | crates/retrieval/src/incremental.rs:259-271 | one path comes before another if it is a proper prefix or has the smaller character where they first differ |
| Incremental.PiecesOfContent | crates/retrieval/src/incremental.rs:28-33 | the counted chunks are those that the splitting yields; put together they are the content; each but the last has exactly 300 characters |
| Incremental.PiecesInOrder | crates/retrieval/src/incremental.rs:269-282 | the chunks of several files follow one another in the order of the paths |
| Incremental.FileTracker.Plan | crates/retrieval/src/incremental.rs:95-142 | the four sorted lists classify the paths by presence and hash; chunks to re-index, reused and in total are their sums |
| Incremental.FileTracker.Commit | crates/retrieval/src/incremental.rs:145-157 | the tracker holds exactly the fingerprints of the current files |
| Incremental.TokenizeFile | crates/retrieval/src/incremental.rs:214-225 | the counts and byte lengths of a file's pieces |
| Incremental.Gather | crates/retrieval/src/incremental.rs:269-288 | the cached chunks in path order are those of the contents, and no path is missing |
| Incremental.GatheredIsFresh | crates/retrieval/src/incremental.rs:290 | an index of the cached chunks is the one built from scratch over all pieces in path order |
| Incremental.IncrementalIndex.Reindex | crates/retrieval/src/incremental.rs:228-301 | after every call the index is the one built from scratch over what it stands for, which is the current files unless a hash collides, and it is right for the current files if and only if those have the same chunks; parameters within 2 EPSILON of the sanitised request; retokenised equals planned; as long as no hash has collided, the planned total is the number of chunks held |
| Incremental.SaneK1 | crates/retrieval/src/incremental.rs:235 | a finite positive k1 is taken over, any other leaves the old one |
| Incremental.SaneB | crates/retrieval/src/incremental.rs:236 | a finite b from 0 to 1 is taken over, any other leaves the old one |
| Incremental.IncrementalIndex.Rebuild | crates/retrieval/src/incremental.rs:248-291 | cache, index and tracker are brought to the new contents together |
| Incremental.NoopKeeps | crates/retrieval/src/incremental.rs:247 | a plan without changes may be skipped: what the index stands for stays the same |
| Incremental.PlanTotals | crates/retrieval/src/incremental.rs:99-130 | the planned total is the number of chunks that the index will hold, if the tracker counted the contents the index stands for |
| Incremental.FreshExactly | crates/retrieval/src/incremental.rs:228-301 | an index that is right for the contents it was built from is right for others on the same paths if and only if these have the same token counts and byte lengths in path order |
| Incremental.CollisionExactly | crates/retrieval/src/incremental.rs:106-118 | for one file and any hash that does not tell its two contents apart: the index is right if and only if the contents have the same chunks |
| Incremental.CollisionBreaksIndex | crates/retrieval/src/incremental.rs:106-118 | the input that breaks it, under every such hash: "a" changed to "b" leaves an index that is not the one built from scratch |
| Incremental.CollisionWithoutHarm | crates/retrieval/src/incremental.rs:106-118 | under every such hash, "." changed to "," leaves the right index |
| Incremental.RunStaysCurrent | crates/retrieval/src/incremental.rs:228-301 | without a collision between successive contents, what a run leaves is the last files |
| Incremental.ReindexAll | crates/retrieval/src/incremental.rs:228-301 | any run of calls on a new index: it stands for what the run leaves, it is right for the last files if and only if that has the same chunks, and so always without a collision |
| SharedCounts.ComputeSharedCounts | crates/retrieval/src/importance.rs:17-106 | whichever branch is picked, each entry gets the brute-force count of entries of other groups that share more than 30% of its tokens; zeros on a length mismatch |
| SharedCounts.Exceeds | crates/retrieval/src/importance.rs:74 | the integer test is the quotient test: shared / size > 0.3 |
| SharedCounts.BitsetBranch | crates/retrieval/src/importance.rs:49-79 | the bitset branch gives the brute-force counts |
| SharedCounts.PostingsBranch | crates/retrieval/src/importance.rs:80-104 | the postings branch gives the brute-force counts |
| SharedCounts.Postings | crates/retrieval/src/importance.rs:31-40 | the postings of a token list the entries that have it, and the maximum bounds all tokens |
| SharedCounts.CommonOnesAreShared | crates/retrieval/src/importance.rs:70-73 | the ones common to two bitsets are as many as the common tokens |
| SharedCounts.CommonIsShared | crates/retrieval/src/importance.rs:88-95 | the accumulated count is the size of the intersection of the token sets |
| Bits.BitOfSet | crates/retrieval/src/importance.rs:55 | setting one bit of a word sets that bit and no other |
| Bits.BitOfAnd | crates/retrieval/src/importance.rs:72 | the bits of a word-wise and are the common bits |
| Bits.Members | crates/retrieval/src/importance.rs:71-73 | a bitset holds as many numbers as its words have ones |
| Lsp.LspClient.WriteMessage | packages/code-graph/src/lsp-client.ts:267-272 | one frame is appended to the output if the input of the server is writable, and nothing otherwise |
| Lsp.FrameBytes | packages/code-graph/src/lsp-client.ts:269-271 | a frame is the text "Content-Length: ", the length in decimal, a blank line, and the message |
| Lsp.DigitsLead | packages/code-graph/src/lsp-client.ts:270 | the decimal form has no leading zero |
| Lsp.LspClient.HandleStdout | packages/code-graph/src/lsp-client.ts:274-309 | after any sequence of calls, delivered bodies and buffer are those of parsing all bytes received at once, and nothing deliverable is left |
| Lsp.LspClient.TakeTurn | packages/code-graph/src/lsp-client.ts:277-300 | one turn waits, drops a malformed header block or delivers a body, and leaves exactly the rest |
| Lsp.NextTurn | packages/code-graph/src/lsp-client.ts:278-300 | every turn that does not wait consumes at least four bytes, so the loop ends |
| Lsp.TurnExtends | packages/code-graph/src/lsp-client.ts:278-300 | a turn that is decided stays the same whatever bytes follow |
| Lsp.ParseChunks | packages/code-graph/src/lsp-client.ts:274-309 | feeding a and then b delivers the same bodies and leaves the same buffer as feeding a + b, malformed blocks included |
| Lsp.FeedIsParse | packages/code-graph/src/lsp-client.ts:274-309 | the same for any list of chunks |
| Lsp.ParseBlocks | packages/code-graph/src/lsp-client.ts:280-300 | a stream of well-formed frames and malformed header blocks delivers exactly the bodies of the frames, in order |
| Lsp.WrittenLength | packages/code-graph/src/lsp-client.ts:270-288 | the length read from a written header is the length of the body in bytes |
| Lsp.LengthExactly | packages/code-graph/src/lsp-client.ts:280-288 | the length of any header block is the number of the first position where the pattern matches, given by the bytes alone: the name in any case, white space, and a maximal run of digits; none if and only if no position matches |
| Lsp.SpaceIsWhite | packages/code-graph/src/lsp-client.ts:281 | the white space of the pattern is exactly the UTF-8 form of the code points that the pattern class stands for |
| Lsp.LinesBefore | packages/code-graph/src/lsp-client.ts:280-288 | header lines without a match, put in front of a written header, leave its length as it is |
| Lsp.ExtraLines | packages/code-graph/src/lsp-client.ts:278-300 | a message with such further header lines is delivered |
| Lsp.DigitsRoundTrip | packages/code-graph/src/lsp-client.ts:270-288 | parsing the printed decimal number gives the number back |
| Lsp.DigitsByPlace | packages/code-graph/src/lsp-client.ts:288 | digits are read by place: those before k others count ten to the k times |
| Lsp.Conversation | packages/code-graph/src/lsp-client.ts:267-309 | written messages, cut anywhere, arrive complete and in order and leave an empty buffer |
| Lsp.IndexIsFirst | packages/code-graph/src/lsp-client.ts:278 | the search returns the first occurrence, and nothing only if there is none |
| Resize.RoundByFactor | packages/computer-use/src/actionParser.ts:8-10 | the nearest multiple of the factor, the greater of two equally near |
| Resize.FloorByFactor | packages/computer-use/src/actionParser.ts:12-14 | the greatest multiple that is not above |
| Resize.CeilByFactor | packages/computer-use/src/actionParser.ts:16-18 | the least multiple that is not below |
| Resize.SmartResizeForV15 | packages/computer-use/src/actionParser.ts:24-55 | nothing if and only if the screen is too long; otherwise the rounded screen if it is within the budget, and else the screen of the same shape with exactly the broken limit's pixels, rounded to the inside of that limit |
| ResizeBudget.OneLimitKept | packages/computer-use/src/actionParser.ts:44-52 | for all limits: shrinking never leaves more pixels than the upper limit, growing never fewer than the lower one, and the branch between is within both |
| ResizeBudget.BudgetExactly | packages/computer-use/src/actionParser.ts:41-54 | for all limits: every accepted screen gets two positive multiples within the budget if and only if the multiples that the two branches reach, which are given in closed form, are safe, or the ratio is below 1 and none is accepted |
| ResizeBudget.PositiveExactly | packages/computer-use/src/actionParser.ts:44-47 | for all limits: no accepted screen loses a side if and only if the upper limit is at least the ratio times the factor squared, or the ratio is below 1 and none is accepted |
| ResizeBudget.ResizeWithinBudget | packages/computer-use/src/actionParser.ts:41-54 | in all three branches two positive multiples of the factor within the budget, for limits with room to spare |
| ResizeBudget.DefaultBudget | packages/computer-use/src/actionParser.ts:3-6 | with the default limits: multiples of 28 with 3136 to 1003520 pixels |
| ResizeBudget.NarrowLimitsBreak | packages/computer-use/src/actionParser.ts:44-47 | an input that breaks the budget: a square of 100 by 100 for exactly 1000 pixels becomes 28 by 28 |

## Left out

- Floating point: `f32`, `f64` and JavaScript numbers are reals; rounding, signed zeros and overflow are not modelled. In `SharedCounts` the test `shared / size > 0.3` is that of exact quotients.
- Integer widths: `u32`, `usize` and `i32` are unbounded, except that `FindCycles.FindCycles` takes at most 2^31 - 1 nodes and proves that its 32-bit index stays below that. A content length is parsed exactly, without the loss of precision beyond 2^53.
- CsrGraph.Csr.Valid: the `to` array is at least as long as the `from` array; the Rust code would stop with an index error otherwise.
- Bm25.Query: for an index built from texts with `k1 >= 0` and `0 <= b <= 1`; with other parameters the formula may divide by zero, and with inconsistent lengths the Rust code falls back to a length of 0.
- Bm25.FromTokenCounts: takes two lists of the same length; the Rust code asserts it.
- PageRank.StepContracts: for non-negative weights, and any damping from 0 on; the results on mass are for a damping from 0 to 1.
- SharedCounts.ComputeSharedCounts: for token lists without repetitions, as its documentation asks. The shift `1 << (t & 31)` is repeated doubling, and the cost estimates are computed but nothing is proved of them, since either branch gives the same answer.
- KnowledgeGraph.KnowledgeGraph.DetectCycles: not every simple cycle is listed, because the depth-first search lists one for each edge back into its stack; which edges those are depends on the order of nodes and edges and is stated only by what they cut.
- Resize.SmartResizeForV15: the square root is a parameter with its defining property; sides are non-negative and not both 0, for which the quotient of the sides is undefined.
- Hash maps: their iteration order is an arbitrary choice; among equal scores the order of `Bm25.Query` is therefore free. The insertion-ordered map of the knowledge graph is a sequence of nodes with distinct ids.
- Parameters: the content hash is any function (collisions are stated, not assumed away), the logarithm any function that is positive above 1, the tables for letters, digits and lower case any tables.
- Node fields other than the id and the file path are one value; edges carry kind, ends and weight.
- JSON printing and parsing, message dispatch, pending requests, timers and processes of the LSP client; the handler is a list of delivered bodies.
- `elapsed_us`, `preview`, `reindex_ratio` and the vector, fusion and hybrid search of the retrieval crate, which would only add easy members.
- `dfs` of the knowledge graph: its depth bound with a shared visited set misses nodes, so only soundness could be stated.
- `split_markdown` and `split_code`: the offsets of the latter ignore the newline between chunks.
- Rendering and token budgets of the repo map, name resolution and the content index of the code graph.
- Tree-sitter walkers, native bindings, SARIF output, document extraction, storage, sandboxing and the user interface.
