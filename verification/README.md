# kiro-learn collector: verification model

This project models the local collector of kiro-learn in Dafny and proves how its parts behave together.
The collector buffers events, extracts candidate memories, clusters and reconciles them against stored records,
keeps a vector index cache, and answers hybrid searches. Network, model and database calls are inputs: every theorem
is about all their answers, including failures.

The modules, by concern:

- Reconciliation: `DisjointSets`, `Clustering`, `MergeDecision`, `Commits`, `Reconciler`, `StaleDeletion`,
  `UncitedCandidate`, `CircuitBreaker`, `Storage`.
- Retrieval: `Cosine`, `Rrf`, `Search`, `RankingCut`, `VectorCache`, with `Ordering` for stable sorting and best-k selections.
- Buffering: `BufferStore`, `Compaction`, `Watcher`.
- Scheduling and runs: `ExtractionStage`, `Ingestion`.
- Text: `Text`, `PrivacyScrub`, `XmlText`, `JudgeXml`, `TruncateBody`.

Code that changes state is modelled by classes and loops with the same fields, each method proved against a specification
function or a ghost history; the promises are then lemmas about those. Asynchronous code is modelled by its steps, one method
per stretch between awaits, and a `RunSchedule` method runs any sequence of them.

Five results are about where a promise stops:

- The two-stage ranking of a search page equals the full ranking exactly when the shortlist cut is clear
  (`Search.TwoStageExact`). Rankings that share fewer ids than the page holds always leave a clear cut
  (`RankingCut.FewSharedClearCut`); a search that leaves none is in `RankingCut.ReachableBlur`.
- A buffer cleared and refilled behind a pending compaction swap loses entries unless nothing was refilled
  (`BufferStore.RefillSurvives`); over runs that do not clear a project nothing leaves its buffer unread
  (`Compaction.NothingLeavesUnread`).
- The reported deletions of a reconciliation are the rows that went exactly when every cited neighbour was still stored
  at its commit (`Reconciler.RunBalances`), which a second writer can prevent (`StaleDeletion.ReportedNotRemoved`);
  evidence is kept either way (`Reconciler.RunConserves`).
- After a run exactly those events are evident that were before or that a kept or cited candidate vouches for
  (`Reconciler.RunEvidence`); a candidate its merging judge does not cite is lost (`UncitedCandidate.CandidateIsLost`).
- A run reports to the watcher exactly when it does not throw, and only then can a later extraction be fired for its
  project (`Ingestion.IngestionPipeline.DoRun`, `Ingestion.ThrowingRun`).

Check everything with `dafny verify dfyconfig.toml`.

## Model

| member | source | states |
|---|---|---|
| DisjointSets.LogarithmicDepth | src/collector/ingestion/clustering.ts:125-147 | walking from any node to its root crosses at most log2(n) links: 2 to the depth never exceeds the number of nodes |
| DisjointSets.CompressionKeepsForest | src/collector/ingestion/clustering.ts:140-145 | redirecting any part of one class to its root keeps ranks strictly rising along links and leaves every class as it was |
| DisjointSets.LinkKeepsForest | src/collector/ingestion/clustering.ts:153-162 | linking one root below another by the rank rule keeps ranks rising and leaves at least 2^r members under every root of rank r |
| DisjointSets.UnionFind.constructor | src/collector/ingestion/clustering.ts:125-127 | n singleton classes, each its own root at rank 0 |
| DisjointSets.UnionFind.Find | src/collector/ingestion/clustering.ts:129-147 | returns the representative of the class, in at most log2(n) links, and rewrites exactly the links on the walked path; the partition is untouched |
| DisjointSets.UnionFind.Union | src/collector/ingestion/clustering.ts:149-163 | afterwards two nodes share a class exactly when they did before or one was with each argument |
| Clustering.IntraBatchCluster | src/collector/ingestion/clustering.ts:113-220 | clusters partition all indices, members ascend, clusters are ordered by smallest member; two candidates share one exactly when a chain of similar pairs joins them; a candidate without embedding is a singleton with null centroid; every centroid is the normalised mean or null |
| Clustering.LinkSimilar | src/collector/ingestion/clustering.ts:171-185 | after the pair scan the classes are exactly the components of the pairs at or above the threshold |
| Clustering.GroupByRoot | src/collector/ingestion/clustering.ts:194-205 | each root maps to its ascending members, roots listed by first appearance |
| Clustering.LinkedIsConnected | src/collector/ingestion/clustering.ts:171-185 | components of the scanned pairs are the chains of similar candidates |
| Clustering.IsolatedCluster | src/collector/ingestion/clustering.ts:165-177 | a candidate without embedding ends alone |
| Clustering.ComputeCentroid | src/collector/ingestion/clustering.ts:250-280 | null exactly when a member has no embedding, otherwise the unit vector along the sum of the embeddings, zero when that is zero |
| Clustering.IdenticalMembersCentroid | src/collector/ingestion/clustering.ts:224-280 | members sharing one embedding have its direction as centroid |
| Clustering.CentroidPointsAlong | src/collector/ingestion/clustering.ts:250-280 | the centroid has norm 1 and, stretched by some positive factor, has the dot product of the summed embeddings with every vector; it is zero exactly when those sums are all zero |
| Clustering.CentroidUnique | src/collector/ingestion/clustering.ts:250-280 | only one vector does: the centroid is fixed by the sum of the embeddings |
| Clustering.CentroidIgnoresOrder | src/collector/ingestion/clustering.ts:250-280 | the order of the members does not matter |
| Clustering.CloseOnesShare | src/collector/ingestion/clustering.ts:171-185 | two candidates whose cosine is at or above the threshold share a cluster |
| Clustering.DistantOnesPart | src/collector/ingestion/clustering.ts:171-185 | a candidate below the threshold with every other is alone |
| Cosine.CauchySchwarz | src/collector/embedding/cosine.ts:117-134 | the squared dot product is at most the product of the squared norms, for any equal length |
| Cosine.Cosine | src/collector/embedding/cosine.ts:117-134 | the loop computes the quotient of dot product and norms, 0 when a norm is 0 |
| Cosine.CosineInRange | src/collector/embedding/cosine.ts:89-134 | cosine lies in [-1, 1] |
| Cosine.CosineSymmetric | src/collector/embedding/cosine.ts:89-134 | the operands can be exchanged |
| Cosine.CosineScale | src/collector/embedding/cosine.ts:70-134 | stretching an operand by a positive factor changes nothing |
| Cosine.DotBasis | src/collector/embedding/cosine.ts:117-134 | the dot product with a unit vector is the coordinate |
| Cosine.Normalize | src/collector/embedding/cosine.ts:159-173 | a fresh array with the normalised components, the input unchanged |
| Cosine.NormalizedNorm | src/collector/embedding/cosine.ts:136-173 | a normalised vector has norm 1 unless the input was zero, which stays zero |
| Cosine.CosineNormalized | src/collector/embedding/cosine.ts:136-173 | scoring against the normalised vector equals scoring against the raw one |
| Cosine.TopKByCosine | src/collector/embedding/cosine.ts:230-248 | the best k non-zero entries in falling similarity; nothing left out beats anything kept |
| Cosine.ScoredMeaning | src/collector/embedding/cosine.ts:230-248 | scored is every entry with a non-zero vector, with its cosine to the query |
| Cosine.ScoredNormalized | src/collector/embedding/cosine.ts:176-248 | pre-normalising a whole index changes no score and no ranking |
| Storage.SqliteStorage.WithTransaction | src/collector/storage/sqlite/index.ts:539-618 | all or nothing: on an open store whose batch runs and meets no fault the tables are the batch applied in order, otherwise exactly what they were |
| Storage.SqliteStorage.PutMemoryRecord | src/collector/storage/sqlite/index.ts:185-225 | row and full-text row land together; a known id or a closed store changes nothing |
| Storage.SqliteStorage.DeleteOneRecord | src/collector/storage/sqlite/index.ts:512-516 | the three-step cascade; a no-op on an unknown id |
| Storage.SqliteStorage.Close | src/collector/storage/sqlite/index.ts:397-401 | the store refuses work afterwards |
| Storage.RunKeepsIndexed | src/collector/storage/sqlite/index.ts:185-225 | every batch keeps exactly one full-text row per stored record, carrying its text |
| Storage.TextIsIndexed | src/collector/storage/sqlite/index.ts:185-225 | a stored record is found in the full-text index under its id with its own title, summary and facts |
| Storage.SpacedJoins | src/collector/storage/sqlite/index.ts:185-225 | facts are indexed as one text, one space between two facts |
| Storage.DeletedAllRows | src/collector/storage/sqlite/index.ts:512-537 | deleting a list removes exactly those rows |
| CircuitBreaker.RecordSuccess | src/collector/ingestion/circuit-breaker.ts:169-185 | a success zeroes the count but never closes an open breaker |
| CircuitBreaker.RecordFailure | src/collector/ingestion/circuit-breaker.ts:169-185 | the count is the failures since the last success or clean run; the breaker is open exactly when the limit was reached in a row since the last clean run |
| CircuitBreaker.CompleteRun | src/collector/ingestion/circuit-breaker.ts:186-201 | only a run without judge failures closes and resets |
| CircuitBreaker.ReconciliationCircuitBreaker.IsOpen | src/collector/ingestion/circuit-breaker.ts:165-168 | answers the trace property, per project |
| CircuitBreaker.ReconciliationCircuitBreaker.Record | src/collector/ingestion/circuit-breaker.ts:169-185 | extends one project's trace; every other project is untouched |
| CircuitBreaker.ReconciliationCircuitBreaker.OnRunComplete | src/collector/ingestion/circuit-breaker.ts:186-201 | extends one project's trace; every other project is untouched |
| MergeDecision.FirstSeenMeaning | src/collector/ingestion/reconciler.ts:227-247 | the union has the same elements, each once, in order of first occurrence |
| MergeDecision.DedupedFirstSeenUnion | src/collector/ingestion/reconciler.ts:235-247 | the nested loops compute that union of the concatenation |
| MergeDecision.ResolveMergedMembers | src/collector/ingestion/reconciler.ts:453-556 | exactly the known cited ids, each once: members before neighbours, higher similarity before lower, ties in the order the judge first cited them; deletions are the cited neighbours |
| MergeDecision.ToDeleteMeaning | src/collector/ingestion/reconciler.ts:548-553 | the deletion list holds each cited neighbour once and no cluster member |
| MergeDecision.ComposeSummaryRecord | src/collector/ingestion/reconciler.ts:196-225 | each of the judge's texts in its own field, the first-seen union of the cited event ids, the judge's type or the first cited entity's |
| MergeDecision.SummaryCovers | src/collector/ingestion/reconciler.ts:196-225 | the summary vouches for every event any cited entity vouched for |
| MergeDecision.SummaryOnlyCovers | src/collector/ingestion/reconciler.ts:196-225 | it vouches for no other event |
| MergeDecision.SummaryEventOrder | src/collector/ingestion/reconciler.ts:196-225 | events of an entity come before those only later entities bring |
| MergeDecision.FallbackType | src/collector/ingestion/reconciler.ts:203-211 | without a judge type the type is that of the cited member the judge named first, or, with no member cited, of a nearest cited neighbour, the first named of those |
| Commits.KeepRuns | src/collector/ingestion/reconciler.ts:605-621 | keeping new candidates cannot fail on a key and adds exactly their rows and embeddings |
| Commits.KeptCarries | src/collector/ingestion/candidate.ts:338-347 | what a kept candidate says of itself is what its record says |
| Commits.KeptEvidence | src/collector/ingestion/reconciler.ts:593-625 | keeping a group makes evident what was before and what its members vouch for, and nothing else |
| Commits.CommitKeepSeparate | src/collector/ingestion/reconciler.ts:593-625 | in one transaction every member has a record under its own id, with its own namespace, events, fields and embedding, or the store is unchanged; the namespace is out of the vector cache afterwards |
| Commits.CommitMerge | src/collector/ingestion/reconciler.ts:634-674 | falls back exactly when no cited id is known; otherwise summary in, cited neighbours out, in one transaction or not at all, the cited in the order they are ranked; one row goes per cited neighbour still stored, the others are deleted once more without effect; the cache is invalidated |
| Commits.PresentCount | src/collector/ingestion/reconciler.ts:548-553 | no more rows go than ids are listed, and as many exactly when each is still stored |
| Commits.DeletedAreOwn | src/collector/ingestion/reconciler.ts:548-553 | only records of the run's own namespace that the judge cited are deleted, stored or not |
| Commits.DeletedAreCovered | src/collector/ingestion/reconciler.ts:641-670 | every event of a deleted record is in the summary, even when the record went while the judge was asked |
| Commits.AddKeepsEvidence | src/collector/ingestion/reconciler.ts:593-625 | adding new records keeps every event evident |
| Commits.MergeKeepsEvidence | src/collector/ingestion/reconciler.ts:634-674 | replacing records by a summary that vouches for them keeps every event evident |
| Commits.MergedEvidence | src/collector/ingestion/reconciler.ts:634-674 | a merge makes evident what was before and what the cited members vouch for, and nothing else |
| Commits.CallKeepsEvidence | src/collector/ingestion/reconciler.ts:593-674 | any commit, by one of the two methods or a direct one in its two writes, keeps all evidence and the whole history, however old its citations are |
| Commits.InterleavedCommitsKeepEvidence | src/collector/ingestion/reconciler.ts:593-674 | over any interleaving of such commits by any writers, direct ones included, each citing neighbours looked up in any earlier state, no event loses its evidence |
| Reconciler.InvokeJudgeWithRetry | src/collector/ingestion/reconciler.ts:379-442 | a reply ends the sessions, a timeout ends them without an answer, and only an unparsable first reply earns a second session; one outcome per session |
| Reconciler.FindNeighbors | src/collector/ingestion/reconciler.ts:853-868 | no lookup without a centroid or with a pool of no size, a throw when the index cannot be built, otherwise the best indexed neighbours |
| Reconciler.AskJudge | src/collector/ingestion/reconciler.ts:889-905 | the judge is asked only about neighbours; each session reaches the breaker and the counters before any commit |
| Reconciler.RecordOutcomes | src/collector/ingestion/reconciler.ts:899-905 | outcomes extend the project's breaker trace in order |
| Reconciler.CommitAnswer | src/collector/ingestion/reconciler.ts:926-954 | no answer, keep-separate and a merge without known citation keep the members; a merge with one collapses them |
| Reconciler.ProcessCluster | src/collector/ingestion/reconciler.ts:822-955 | the cluster ends in exactly one way, counters and breaker moved accordingly; it fails exactly when an index it needs cannot be built, the store is closed or its transaction meets a fault |
| Reconciler.SettlingIsCall | src/collector/ingestion/reconciler.ts:822-955 | a cluster either fails and leaves the store alone or makes exactly one commit of the two kinds |
| Reconciler.SettlingIsSound | src/collector/ingestion/reconciler.ts:822-955 | whatever judge and store do, one cluster keeps all evidence and the whole history, stale neighbours included |
| Reconciler.SettlingEvidence | src/collector/ingestion/reconciler.ts:822-955 | after one cluster exactly those events are evident that were before or that a kept or cited candidate vouches for |
| Reconciler.SettlingCarries | src/collector/ingestion/reconciler.ts:926-954 | a candidate whose cluster was kept has its record, as it was extracted |
| Reconciler.SettlingCounts | src/collector/ingestion/reconciler.ts:822-955 | rows and records move by exactly what was kept, written and still there to delete; the reported deletions are right exactly when each neighbour was still stored |
| Reconciler.SettlingIsLocal | src/collector/ingestion/reconciler.ts:822-955 | other namespaces are untouched; only ids the judge cited disappear |
| Reconciler.RunKeepsEvidence | src/collector/ingestion/reconciler.ts:724-744 | over any run with arbitrary judge answers, failing commits and stale indexes, every event evident before is evident after |
| Reconciler.RunEvidence | src/collector/ingestion/reconciler.ts:724-744 | after a run exactly those events are evident that were before or that some kept candidate, or one a merging judge cited, vouches for |
| UncitedCandidate.CandidateIsLost | src/collector/ingestion/reconciler.ts:634-674 | a run without any fault or other writer reports a merge whose judge does not cite the candidate, and the candidate's event is evident nowhere |
| Reconciler.CandidatesAreBatched | src/collector/ingestion/reconciler.ts:714-724 | the clusters of a run hold every candidate and nothing else |
| Reconciler.CloseOnesAreBatched | src/collector/ingestion/reconciler.ts:714-724 | candidates whose cosine reaches the batch threshold are judged together |
| Reconciler.RunBalances | src/collector/ingestion/reconciler.ts:695-744 | stored after + deleted = stored before + kept + summaries exactly when every deletion found its row, and never less; every write was of a new id |
| Reconciler.DrawnIsFromPast | src/collector/query/vector-cache.ts:248-330 | any index the vector cache answers, however stale, lists past records of its namespace |
| Reconciler.AgreedReflects | src/collector/query/vector-cache.ts:248-330 | the index of a quiescent namespace lists its rows as they are stored |
| Reconciler.ReflectingRunBalances | src/collector/ingestion/reconciler.ts:695-744 | with indexes of the rows stored at each lookup, every deletion finds its row and the counts balance |
| Reconciler.RunIsLocal | src/collector/ingestion/reconciler.ts:695-744 | no row of another namespace changes, and nothing disappears that no judge cited |
| Reconciler.CountersAddUp | src/collector/ingestion/reconciler.ts:699-744 | merges + keep-separates + failures + direct commits = clusters; invocations are the sessions held, at most two per cluster; the failure flag is set exactly when a session failed |
| Reconciler.NothingCommitted | src/collector/ingestion/index.ts:552-556 | the counts show no commit exactly when every cluster failed |
| Reconciler.BatchesAreFresh | src/collector/ingestion/reconciler.ts:714-724 | clusters of a batch with fresh ids never share or reuse an id |
| Reconciler.ProcessClusters | src/collector/ingestion/reconciler.ts:724-741 | clusters are attempted in order whatever happened before, each answered by the environment as the store then is; the outcome's counters are those of this history |
| Reconciler.Reconcile | src/collector/ingestion/reconciler.ts:695-744 | the history from the store before to the store after over the similarity components of the candidates, answered by the environment, with the counts and the breaker trace reported |
| Reconciler.EnvironmentInforms | src/collector/ingestion/reconciler.ts:853-868 | when every index lists records committed before the run or stored during it, current or stale, each lookup of the run is of past records |
| Reconciler.RunConserves | src/collector/ingestion/reconciler.ts:695-744 | such a run conserves evidence and adds exactly that of kept and cited candidates, spares other namespaces and balances its counts exactly when every deletion found its row; with indexes of the rows as they are, every deletion does |
| Reconciler.CurrentRunBalances | src/collector/ingestion/reconciler.ts:695-744 | with indexes of the rows stored at each lookup, stored after + deleted = stored before + kept + summaries |
| Reconciler.AllFailedMeans | src/collector/ingestion/index.ts:552-556 | every cluster failed exactly when each lacked its index, met a closed store or a fault |
| StaleDeletion.ReportedNotRemoved | src/collector/ingestion/reconciler.ts:453-674 | two writers look up one record and the first merges it away: the second, a run like any other, reports one deletion and removes no row, so its counts are off by one |
| VectorCache.FreshIsComplete | src/collector/query/vector-cache.ts:248-302 | up to the bulk limit a build is exactly the embedded rows, in listing order |
| VectorCache.FreshIsFirst | src/collector/query/vector-cache.ts:248-302 | past the bulk limit a build holds the embedded rows among the first hundred thousand listed, the newest ones |
| VectorCache.NamespaceVectorCache.ReleaseBytes | src/collector/query/vector-cache.ts:206-215 | subtracts the index's bytes, clamped at zero |
| VectorCache.NamespaceVectorCache.Drop | src/collector/query/vector-cache.ts:332-337 | the clamp never fires: exactly the entry's bytes are released |
| VectorCache.NamespaceVectorCache.AccountBytesAndMaybeWarn | src/collector/query/vector-cache.ts:222-234 | adds the index's bytes and latches the warning past the threshold |
| VectorCache.NamespaceVectorCache.BuildIndex | src/collector/query/vector-cache.ts:272-301 | the join of both reads, embeddings without a record skipped |
| VectorCache.NamespaceVectorCache.Install | src/collector/query/vector-cache.ts:312-329 | installs exactly when no invalidation came since the start epoch |
| VectorCache.NamespaceVectorCache.Invalidate | src/collector/query/vector-cache.ts:332-339 | the entry goes and the epoch rises |
| VectorCache.Collector.BeginLoad | src/collector/query/vector-cache.ts:305-310 | a hit with no write pending is what a fresh build would give |
| VectorCache.JoinFromPage | src/collector/query/vector-cache.ts:272-301 | an index holds only records of the page it was joined with |
| VectorCache.Collector.EndLoad | src/collector/query/vector-cache.ts:310-330 | a build that straddled an invalidation is returned but not installed; one installed with no write pending is fresh; either lists only records its namespace once held |
| VectorCache.Collector.WriteRows | src/collector/query/vector-cache.ts:304-340 | a storage write whose invalidate is still to come leaves the agreement on every quiescent namespace |
| VectorCache.Collector.FinishWrite | src/collector/query/vector-cache.ts:332-339 | after the invalidate nothing is cached for the namespace |
| VectorCache.Collector.Step | src/collector/query/vector-cache.ts:304-340 | each step moves rows, loads, epochs and cache as the simple machine does; a step that is not enabled changes nothing |
| VectorCache.Collector.RunSchedule | src/collector/query/vector-cache.ts:304-340 | every schedule of loads, reads, writes and invalidations ends where the simple machine ends; there a cached index of a quiescent namespace equals a fresh build, any cached index lists records its namespace once held, and the byte total is the sum over the cache |
| Rrf.RrfFuse | src/collector/embedding/rrf.ts:146-224 | empty for a limit of none, an error for a non-positive constant, otherwise the best of the union by falling score and then id; with one row per id each hit has the ranks of its rows and the sum of the reciprocals of constant plus rank as its score |
| Rrf.FusionUnique | src/collector/embedding/rrf.ts:199-220 | the ranking is independent of map insertion order |
| Rrf.WeightFalls | src/collector/embedding/rrf.ts:98-102 | a worse rank weighs strictly less, every rank something |
| Rrf.CompleteIsScored | src/collector/embedding/rrf.ts:184-197 | every hit of a whole fusion of lists with one row per id has its own ranks, and the sum of the reciprocals of constant plus rank |
| Rrf.AgreementReach | src/collector/embedding/rrf.ts:184-197 | an id ranked r in both lists scores above one ranked first in a single list exactly when r is below the constant plus two |
| Rrf.FusionIsFull | src/collector/embedding/rrf.ts:212-224 | no id is left out before the limit is reached |
| Rrf.LexicalOnly | src/collector/embedding/rrf.ts:108-111 | an empty vector list returns the lexical list in its order, ranks and scores stated |
| Rrf.VectorOnly | src/collector/embedding/rrf.ts:112-114 | an empty lexical list returns the vector list in its order |
| Rrf.Agreement | src/collector/embedding/rrf.ts:103-107 | two identical lists return that order with doubled scores |
| Rrf.Symmetry | src/collector/embedding/rrf.ts:146-224 | exchanging the lists exchanges the rank fields and nothing else |
| Rrf.FusionKeepsOrder | src/collector/embedding/rrf.ts:212-223 | a list that names every id along falling scores comes back in its own order |
| Search.TwoStageScores | src/collector/query/index.ts:376-430 | truncating at 2*limit before the richer sort never changes the score sequence of the page |
| Search.TwoStageExact | src/collector/query/index.ts:376-430 | the page equals the fully sorted one for all creation times exactly when the cut at 2*limit does not split a score that reaches into the page |
| Search.ClearCutSameRecords | src/collector/query/index.ts:414-430 | behind a clear cut the records are the same for every refinement of the score order |
| Search.BlurredCutLosesRecord | src/collector/query/index.ts:414-430 | otherwise the hit just past the cut, dated later than all the others, belongs on the page and is lost |
| Search.FewTiesClearCut | src/collector/query/index.ts:376-430 | the cut is clear when no score is shared by more than limit+1 hits |
| RankingCut.TiesAreShared | src/collector/embedding/rrf.ts:146-224 | at most as many hits share a score as the rankings share ids, and two more |
| RankingCut.FewSharedClearCut | src/collector/query/index.ts:356-430 | two rankings that share fewer ids than the page holds leave a clear cut, whatever the fusion constant |
| RankingCut.ReachableBlur | src/collector/query/index.ts:356-430 | three lexical rows, an index of three entries and a query vector, with the constant 1 and a page of one: the newest of three tied hits is not shown |
| Search.JoinById | src/collector/query/index.ts:390-398 | lexical records first, index records for the rest |
| Search.RankJoined | src/collector/query/index.ts:407-430 | the page is the two-stage ranking of all fused hits |
| Search.HybridPage | src/collector/query/index.ts:356-430 | a hybrid page is full, free of duplicates and, behind a clear cut, what ranking every hit would show |
| Search.PageIsRanked | src/collector/query/index.ts:414-430 | of two places on a page the higher score comes first, then the newer record, then the lower id |
| Search.DefaultReach | src/collector/query/index.ts:260-270 | without a usable setting an id ranked up to 61 in both lists beats one ranked first in a single list |
| Search.Search | src/collector/query/index.ts:295-438 | empty, lexical baseline or hybrid page, exactly under the conditions of the code |
| Search.LookupNeighbors | src/collector/query/index.ts:452-486 | the best `cap` entries at or above the threshold, each with the record it is filed under |
| Search.WithinMeaning | src/collector/query/index.ts:452-486 | within reach is every entry whose cosine is at or above the threshold, with that cosine |
| BufferStore.EntriesAppend | src/collector/buffer/store.ts:145-176 | behind whole lines, more bytes only add entries |
| BufferStore.CorruptLineCosts | src/collector/buffer/store.ts:145-176 | a corrupt or blank line costs itself only |
| BufferStore.PrintedParses | src/collector/buffer/store.ts:122-176 | writing entries and reading them back is the identity, order included |
| BufferStore.Store.Append | src/collector/buffer/store.ts:122-135 | one entry more, the returned count is the bytes added |
| BufferStore.Store.SnapshotWithSize | src/collector/buffer/store.ts:145-176 | entries and size of one and the same read; no file reads as nothing |
| BufferStore.Store.Clear | src/collector/buffer/store.ts:295-306 | the file is gone, the others stay |
| BufferStore.Store.Replace | src/collector/buffer/store.ts:343-424 | the file parses to the new entries followed by what was found past the offset; the reported size is its length; a missing file, an unsafe id or an I/O error changes nothing |
| BufferStore.CatchUp | src/collector/buffer/store.ts:361-385 | what is found past a snapshot's size is exactly the entries appended since |
| BufferStore.StaleOffset | src/collector/buffer/store.ts:361-385 | a buffer cleared and refilled behind a pending swap keeps exactly the entries whose line starts at or after the offset |
| BufferStore.RefillSurvives | src/collector/buffer/store.ts:361-385 | so it survives whole exactly when the offset was zero or nothing was refilled |
| Compaction.DeterministicEviction | src/collector/buffer/compaction.ts:98-106 | as many entries kept as evicted or one more, newest first; no evicted one is newer than a kept one, and none is invented |
| Compaction.CompactionWorker.Compact | src/collector/buffer/compaction.ts:305-321 | one compaction at a time over any project; an empty buffer reports its size at once; otherwise entries, offset and failure count of one read |
| Compaction.CompactionWorker.ChooseEntries | src/collector/buffer/compaction.ts:323-348 | the model's entries, or the newest half when it failed or is latched off |
| Compaction.CompactionWorker.Finish | src/collector/buffer/compaction.ts:350-374 | the swapped file, the reported size, and consecutive failure counts that freeze at the limit |
| Compaction.BufferRun.Append | src/collector/buffer/compaction.ts:305-374 | an append adds exactly its entry, and stays behind the snapshot of a swap that is pending |
| Compaction.BufferRun.Finish | src/collector/buffer/compaction.ts:350-374 | with no clear since the snapshot the buffer is the compacted entries, then every append since, in order; with one, of the appends since it those whose line starts before the snapshot's end are gone |
| Compaction.SwapTracks | src/collector/buffer/compaction.ts:350-374 | an intact swap loses no entry that is not on record as read; an overtaken one loses exactly what it did not find |
| Compaction.RunRecords | src/collector/buffer/compaction.ts:305-374 | over any run the record of read entries grows by exactly the whole buffer at each start of a compaction, and that of cleared ones by the whole buffer at each clear, in order |
| Compaction.UnclearedRun | src/collector/buffer/compaction.ts:305-374 | no stale swap hits a project that the run never clears |
| Compaction.NothingLeavesUnread | src/collector/buffer/compaction.ts:305-374 | over a run that never clears a project, whatever was appended to it is still buffered or was in the snapshot of one of the run's compactions, unless it had left before the run |
| Compaction.Step | src/collector/buffer/compaction.ts:305-374 | each action moves the plain lists as told: an append adds its entry, a clear empties its buffer, a start reads the whole buffer, a finish puts the compacted entries before what it found, and nothing else changes |
| Compaction.RunSchedule | src/collector/buffer/compaction.ts:305-374 | any schedule is a history of such moves and the files hold its lists; every appended entry is buffered, was read by a compaction, was dropped by a clear or fell to an overtaken swap |
| Watcher.Alternates | src/collector/buffer/watcher.ts:160-170 | per project, firings and results strictly alternate, starting with a firing |
| Watcher.LatchIsForever | src/collector/buffer/watcher.ts:260-280 | after the limit of failures in a row nothing is ever fired again |
| Watcher.LatchesAtLimit | src/collector/buffer/watcher.ts:260-280 | after n failures in a row another extraction may be fired exactly when n is below the limit |
| Watcher.UnreportedWedges | src/collector/buffer/watcher.ts:160-170 | after a firing nothing happens to its project before a report |
| Watcher.BufferWatcher.FireExtraction | src/collector/buffer/watcher.ts:160-170 | fires exactly when a state exists, none is in flight and the breaker has not latched |
| Watcher.BufferWatcher.FireCompaction | src/collector/buffer/watcher.ts:176-186 | fires exactly when a state exists and none is in flight |
| Watcher.BufferWatcher.WouldExceedCeiling | src/collector/buffer/watcher.ts:196-207 | compares the would-be size with the ceiling and changes only the warning flag |
| Watcher.BufferWatcher.NotifyAppend | src/collector/buffer/watcher.ts:220-250 | bytes added, timer armed, each threshold fires its own trigger |
| Watcher.BufferWatcher.IdleFlush | src/collector/buffer/watcher.ts:231-234 | the timer fires at most one extraction |
| Watcher.BufferWatcher.NotifyExtractionResult | src/collector/buffer/watcher.ts:260-280 | success resets count, latch, bytes and warning; failure counts |
| Watcher.BufferWatcher.NotifyCompactionResult | src/collector/buffer/watcher.ts:310-320 | the flag clears; a success with a size sets the byte count |
| Watcher.GatedBuffer.Ingest | src/collector/pipeline/index.ts:624-638 | an append happens exactly when it stays within the ceiling, and byte counts keep equal to file lengths |
| Watcher.GatedBuffer.ExtractionSucceeded | src/collector/ingestion/index.ts:565-569 | clear and report leave count and length both zero |
| Watcher.GatedBuffer.ExtractionFailed | src/collector/ingestion/index.ts:556-563 | a failed run leaves file and count alone |
| Watcher.GatedBuffer.CompactionFinished | src/collector/buffer/compaction.ts:350-364 | the reported size is the new file's length |
| Watcher.GatedBuffer.Recover | src/collector/index.ts:599-612 | after a restart the counts are the lengths of the files found, which is all a gated buffer starts from |
| ExtractionStage.Stage.Enqueue | src/collector/pipeline/index.ts:531-540 | a full queue drops its oldest event; a free slot starts the new one at once |
| ExtractionStage.Stage.TryRunNext | src/collector/pipeline/index.ts:514-524 | afterwards a non-empty queue means all slots are busy |
| ExtractionStage.Stage.Settle | src/collector/pipeline/index.ts:518-522 | the slot is refilled, and every waiter is woken exactly when nothing is left |
| ExtractionStage.Stage.Drain | src/collector/pipeline/index.ts:542-562 | resolves at once exactly when idle, otherwise joins the waiters |
| ExtractionStage.Stage.TimeOut | src/collector/pipeline/index.ts:549-553 | removes just that waiter |
| ExtractionStage.Stage.Conservation | src/collector/pipeline/index.ts:514-540 | enqueued = started + queued + dropped |
| ExtractionStage.PickedInOrder | src/collector/pipeline/index.ts:514-540 | started events keep their arrival order, and so do dropped ones |
| ExtractionStage.SettleAll | src/collector/pipeline/index.ts:471-478 | after exactly the outstanding number of settlements the stage is idle and every waiter has been woken |
| ExtractionStage.TraceArrivals | src/collector/pipeline/index.ts:531-540 | over any schedule exactly the arriving events are enqueued, in order |
| ExtractionStage.RunSchedule | src/collector/pipeline/index.ts:446-564 | any schedule ends as the trace of its actions: one oldest event dropped per arrival at a full queue, one oldest event started per free slot; active within concurrency, queue within depth, nothing lost |
| Ingestion.Semaphore.Acquire | src/collector/ingestion/index.ts:286-294 | a slot at once exactly when one is free, otherwise a place at the end of the line |
| Ingestion.Semaphore.Release | src/collector/ingestion/index.ts:300-307 | the slot passes to the longest waiting run or becomes free; held slots equal the count throughout |
| Ingestion.IngestionPipeline.Conclude | src/collector/ingestion/index.ts:565-571 | clear on success only, one report, then one completion for the breaker |
| Ingestion.IngestionPipeline.DirectCommit | src/collector/ingestion/index.ts:479-491 | throws exactly when some candidate is refused (closed store, id taken or repeated, storage fault), at the first such; every candidate before it has its record as it was extracted, an embedding that cannot be written leaves its record behind, stored rows never change, only candidates are added, nothing stale stays cached |
| Ingestion.IngestionPipeline.Body | src/collector/ingestion/index.ts:378-574 | exactly one report on a normal return, none on a throw; the buffer is cleared exactly on a reported success; report, breaker events and store are those of the route the state at the start selects: the direct commit, the reconciliation of the candidates, or no change at all |
| Ingestion.IngestionPipeline.RunReconciliation | src/collector/ingestion/index.ts:501-554 | the store moves by the reconciliation of the candidates in the environment given; the run has failed exactly when every cluster did |
| Ingestion.IngestionPipeline.ReconcileAndConclude | src/collector/ingestion/index.ts:501-571 | failure is reported exactly for reconciliations in which every cluster failed, success clears the buffer, and the breaker hears of every session and of the completion |
| Ingestion.EndsCompletes | src/collector/ingestion/index.ts:378-571 | a run reports exactly when it does not throw; a judge is asked only on the judged route; every report past extraction tells the breaker, once and last, whether a judge of this run failed |
| Ingestion.MayFireAfter | src/collector/buffer/watcher.ts:160-170 | after the run of an extraction in flight another may be fired exactly when the run reported and the failures stay below the limit |
| Ingestion.ThrowingRun | src/collector/index.ts:511-518 | one candidate committed directly while the storage faults at its record: the run throws, and nothing but a report that never comes can follow |
| Ingestion.StoresKeepEvidence | src/collector/ingestion/index.ts:378-574 | what any route makes of the store loses no evidence, on the judged one when the indexes list past records |
| Ingestion.IngestionPipeline.DoRun | src/collector/ingestion/index.ts:314-575 | the slot is released exactly once on every path; with candidates, reconciliation switched on and the breaker closed the candidates are reconciled under the configured thresholds, otherwise no judge is asked and candidates are committed directly; another extraction may be fired afterwards exactly when the run did not throw and did not latch; a run that starts with the breaker open, returning normally past extraction, closes it; no evidence is lost on any route, on the judged one when the indexes list past records |
| Ingestion.ClosedByCompletion | src/collector/ingestion/index.ts:492-498 | a completion without judge failure wipes the breaker's memory |
| PrivacyScrub.ScrubPrivateSpans | src/collector/pipeline/index.ts:223-267 | terminates and computes the one-scan outermost-span specification |
| PrivacyScrub.MatchingClose | src/collector/pipeline/index.ts:240-264 | the search for the closing tag ends where that scan leaves the span |
| PrivacyScrub.NoTagLeft | src/collector/pipeline/index.ts:213-267 | no opening tag starts anywhere in the output, not across a seam either |
| PrivacyScrub.FreeIsKept | src/collector/pipeline/index.ts:230-234 | text without an opening tag is unchanged |
| PrivacyScrub.Idempotent | src/collector/pipeline/index.ts:223-267 | scrubbing twice is scrubbing once |
| PrivacyScrub.Decomposes | src/collector/pipeline/index.ts:213-222 | every text is public text, balanced spans and possibly one that never closes |
| PrivacyScrub.ScrubPieces | src/collector/pipeline/index.ts:213-267 | its result is the public text with one replacement per outermost span |
| PrivacyScrub.Noninterference | src/collector/pipeline/index.ts:213-267 | texts that differ only inside outermost spans come out equal |
| PrivacyScrub.OneSpan | src/collector/pipeline/index.ts:213-267 | a span, closed or not, reads [REDACTED] |
| PrivacyScrub.BalancedNests | src/collector/pipeline/index.ts:240-264 | spans nest: a closed span inside another does not end it |
| PrivacyScrub.ScrubbedTreeIsClean | src/collector/pipeline/index.ts:273-289 | every key and string leaf of a scrubbed tree is free of tags, keys stay distinct even when they collide |
| PrivacyScrub.LeafIsRedacted | src/collector/pipeline/index.ts:273-289 | every string leaf of a tree comes out in its place, under scrubbed keys, as its public text with one replacement per outermost span |
| PrivacyScrub.FieldsAreScrubbed | src/collector/pipeline/index.ts:273-289 | under each scrubbed key stands the scrubbed value of the last field with that key, and no field is invented |
| PrivacyScrub.CleanTreeIsKept | src/collector/pipeline/index.ts:273-289 | a clean tree is unchanged, order included |
| PrivacyScrub.TreeIdempotent | src/collector/pipeline/index.ts:273-289 | scrubbing a tree twice is scrubbing it once |
| PrivacyScrub.StageScrubs | src/collector/pipeline/index.ts:303-342 | whatever the body type, the result is clean, and a clean body passes unchanged |
| PrivacyScrub.BodyIsRedacted | src/collector/pipeline/index.ts:303-342 | the same for every text of a text, message or json body; turns keep their roles |
| XmlText.RoundTrip | src/collector/pipeline/xml-framer.ts:25-32 | unescaping undoes escaping for every string, five passes each |
| XmlText.OnePass | src/collector/pipeline/xml-framer.ts:25-32 | the five passes are one pass over the characters |
| XmlText.NamedEntities | src/collector/pipeline/xml-framer.ts:16-32 | each of the five characters becomes its own entity and back; every other character stands for itself |
| XmlText.EscapedIsInert | src/collector/pipeline/xml-framer.ts:16-32 | no angle bracket and no quote is left |
| XmlText.Undo | src/collector/pipeline/xml-parser.ts:80-87 | one unescape pass undoes its escape pass on text free of that entity |
| XmlText.StaysAbsent | src/collector/pipeline/xml-parser.ts:72-87 | a pass brings in no other entity, which is why the order works |
| JudgeXml.ExtractAll | src/collector/ingestion/judge-xml.ts:240-251 | the loop collects the lazy captures, trimmed, unescaped, blank ones dropped |
| JudgeXml.EscapeTrim | src/collector/ingestion/judge-xml.ts:240-251 | trimming and escaping commute |
| JudgeXml.ListRoundTrip | src/collector/ingestion/judge-xml.ts:104-117 | extracting the children of a printed list gives its items, trimmed, without the blank ones, in order |
| TruncateBody.TruncateBody | src/shim/shared/index.ts:287-386 | a body that fits is returned as it is; otherwise the three trimming schemes, and a throw for a message without turns |
| TruncateBody.ShrinkMeaning | src/shim/shared/index.ts:297-310 | trimming stops at the first text that fits, a prefix; only the empty text may fail to |
| TruncateBody.ShrinkIsLeast | src/shim/shared/index.ts:297-310 | the text one cut earlier, of which nine tenths rounded down are left, did not fit |
| TruncateBody.SaysTruncated | src/shim/shared/index.ts:287-386 | what is too large ends with the marker after a prefix of its text, in the result of a tool response, or in an envelope of its own |
| TruncateBody.ShrinkTurnsMeaning | src/shim/shared/index.ts:312-339 | one turn is cut to a prefix, earlier ones unchanged, later ones empty |
| TruncateBody.OneCutTurn | src/shim/shared/index.ts:312-343 | the same of the returned message, roles kept, marker on the last turn only |
| TruncateBody.WithinBudget | src/shim/shared/index.ts:287-386 | the result is within the budget plus the marker, or no text was left to cut |
| TruncateBody.ResultReplaced | src/shim/shared/index.ts:345-367 | trimming a tool result touches nothing else in the tree |

## Left out

- `Reconciler.Reconcile`: record ids are taken never to be reused, and embeddings to have one width (the code throws on two). Other writers may act between a lookup and its commit, which shows as a stale index; their commits between two clusters of one run are not steps of that run but of `Commits.InterleavedCommitsKeepEvidence`, whose commits a cluster's are (`Reconciler.SettlingIsCall`).
- `Reconciler.RunConserves`: conclusions about evidence hold for environments whose indexes list past records, as every index of `VectorCache.Collector` does (`Reconciler.DrawnIsFromPast`). An environment answers by the rows at the start and after each cluster so far.
- `Reconciler.InvokeJudgeWithRetry`: a session is one of reply, timeout or unparsable text; prompt framing and response grammar are not followed into it, nor are latency counters and debug output.
- `Ingestion.IngestionPipeline.Body`: snapshot and clear are steps of one run, so entries appended between them by others, which the clear drops, do not appear.
- `Watcher.GatedBuffer.Ingest`: check, append and notification are one step; concurrent calls can pass the ceiling together, because they are separate steps in the code.
- `Compaction.BufferRun.Finish`: which entries an overtaken swap loses is stated for codecs in which no proper suffix of a printed entry parses, as for JSON objects.
- `BufferStore.Store.Replace`: files are whole lines of valid UTF-8; torn lines after a crash, file locks and temporary files are not modelled.
- `Cosine.Cosine`: real numbers with a square-root function; rounding, float32 storage and NaN are not modelled. The same holds for all scores and centroids.
- `Search.TwoStageExact`: text order is by character; SQL, FTS5 ranking and query tokenising are inputs.
- `TruncateBody.WithinBudget`: serialised size is any function for which appending the ASCII marker costs its own length; lengths count characters, not UTF-16 units.
- `PrivacyScrub.ScrubJson`: the special treatment of a `__proto__` key and of integer-like keys by the language is not modelled.
- `JudgeXml.ExtractAll`: matching is on plain tag names; `parseJudgeResponse` and `parseMemoryXml` as wholes are left out.
- `CircuitBreaker.Limit`: a limit below one acts as one.
- The dedup stage and its rollback, the compressor call with its retries, event storage and retrieval: short single-function facts.
- HTTP receiver, MCP server and client, shim transport, installer, UI, migrations, backfill, BLOB codec: plumbing around libraries.
- Timers, clocks, ULIDs, models and logs: their results are parameters, and ids are taken to be fresh.
