# Verified model of the Cadence v2 language server and its tools

This project models, in Dafny 4.11, the incremental-analysis engine of the v2 Cadence language
server, and a few self-contained algorithms of the server, the linter and the documentation
generator, and proves what they promise.  `dafny verify dfyconfig.toml` checks everything.

## What is modelled

**The engine** (`languageserver/server2`).  Three objects hold its state, and each is a class whose
methods change its fields as the Go methods do, proved against a function of the old state:

- `DependencyGraph` (`DependencyGraph.dfy`): a forward and a reverse edge map.  The reverse map is
  the exact transpose of the forward map at all times; the breadth-first search returns exactly the
  nodes from which the given one can be reached, in cyclic graphs too.
- `LRUCheckerCache` (`LruCache.dfy`): a map into a list of shared elements.  Its abstract value is
  the list of slots, most recently used first.  `CacheHistories.dfy` says what whole histories of
  calls leave in it: stack inclusion, and reuse distance with and without deletions.
- `AnalysisHost` (`Snapshot.dfy`): documents, revision, cache and graph.

`Analysis.dfy` models `Analyze`, its import handler and the on-demand analysis of a request;
`ImportHistories.dfy` relates the handler's calls to the cache histories.
`Freshness.dfy` is the engine as a state machine in which any number of analyses interleave step by
step with updates and removals; cached entries carry ghost stamps for everything they were made
from.  `TracedAnalysis.dfy` writes those stamps into what the methods compute, `AnalysisRuns.dfy` shows
that every sequence of updates, removals, analyses and on-demand analyses is a run of that machine,
ending in exactly that stamped state, and `EngineFreshness.dfy` says what follows of the calls alone.
`CallHistories.dfy` says what any sequence of calls leaves in documents, revision and import edges.

`Server.dfy` and `Debouncer.dfy` hold the classes that own the cancellation entries and the timers,
and beside each a state machine over all interleavings that uses the same state functions.
`Publications.dfy` adds what the client is shown.

**Algorithms.**  `IfLet.dfy` (the if-let linter, as an event fold, a recursive definition and a
declarative one, proved equal), `SemanticTokens.dfy` (delta encoding against an independent
decoder), `SelectionRange.dfy`, `SplitLines.dfy` (a text-edit generator, with a meaning of applying
edits), `StringConcat.dfy` (a rewrite, with a scanner that reads the result back and a value
semantics), `DocFormat.dfy` (documentation comments).  `Positions.dfy` has 32-bit protocol positions.

## What the proofs found

- A check's registration stores its entry over any entry already there
  (`languageserver/server2/server.go:208-211`).  That is harmless if the overwritten check is
  cancelled or has passed its last cancellation check; otherwise that check can no longer be
  cancelled and may pass with an outdated snapshot.  Every undecided check can be cancelled
  throughout a run exactly if no registration overwrites such a live entry
  (`CancelProtocol.AlwaysCancellableIff`), and then every check that passes is current
  (`PassesAreCurrent`); `OverwriteLetsStaleCheckPass` and `OverwriteIsReachable` give a failing run.
- Between the start of a debouncer callback and its lock another `Trigger` can come in
  (`languageserver/server2/debounce.go:36-41`).  The callback then deletes the new timer from the map:
  that timer stays pending through `Stop`, and a further `Trigger` does not replace it
  (`DebounceProtocol.LateTriggerEscapes`, from states that `LateTriggerIsReachable` reaches; exactly
  when, `AllTrackedIff` and `StopHaltsAllIff`).
- A check past its last cancellation check publishes even if its document is changed or closed
  meanwhile; on a close, behind the empty publication (`Publications.LatePublicationStays`).  A pending
  debounce timer survives a close too, and its check publishes "document not found" for the closed
  document (`TimerPublishesAfterClose`, `ClosedIsNotFound`).  Every publication has seen every scheduled
  change, and every check can be cancelled in time, exactly if no live entry is overwritten and no
  schedule or close comes while a check of an older version is about to publish (`AlwaysInHandIff`).
- An update that overlaps an analysis lets the analysis commit a stale entry
  (`Freshness.OverlapGoesStale`); an entry is stale exactly when it was overlapped
  (`StaleIffOverlapped`).
- A bare `Get` is not inclusion-preserving: `CacheHistories.GetKeepsInclusionIff` says exactly when,
  and `GetBreaksInclusion` gives a history.  Serving an import keeps inclusion for all caches exactly if
  the import resolves and, while it is checked, only the import itself is asked for
  (`ImportHistories.ServingKeepsInclusionIff`, with `NestedServingBreaksInclusion`): what an import asks
  for is served between the handler's `Get` and its `Put`.
- A selection range's end counts as inside although the range is exclusive, so two touching
  siblings both contain the position between them, and the chain then makes one the parent of the
  other (`SelectionRanges.TouchingSiblingsBreakChain`).  For trees with siblings in order, each parent
  encloses its child exactly if no two siblings contain the position (`EnclosesIffExclusive`).
- A template built from a concat chain reads back exactly when the text of each expression part has
  balanced parentheses, those in quoted texts aside (`StringConcat.TemplateReadsBackIff`, with
  `UnbalancedPartBreaks`).
- `formatFuncDoc` puts two blank lines at the start exactly when no description line is kept and
  there is a parameter or return line (`DocFormat.FuncDocBlanks`), as for a parameter line alone
  (`ParameterAloneStartsBlank`).
- The comment on `encodeSemanticTokens` asks for sorted tokens, but the function sorts them itself;
  the model follows the code.

## Model

| member | source | states |
|---|---|---|
| `ImportGraph.ReachesTransitive` | languageserver/server2/depgraph.go:63-64 | being imported transitively composes: paths through any allowed set of nodes join |
| `ImportGraph.DependentsExact` | languageserver/server2/depgraph.go:63-94 | the set of dependents is exactly the other nodes with a forward path to the node |
| `ImportGraph.CutAtFirstVisit` | languageserver/server2/depgraph.go:96-112 | every path to a node gives a path to it that uses none of its own outgoing edges |
| `ImportGraph.ClearKeepsDependents` | languageserver/server2/depgraph.go:96-112 | clearing a node's imports does not change which nodes depend on it, in any graph |
| `ImportGraph.ClearKeepsPathsOfOthers` | languageserver/server2/depgraph.go:96-112 | a node that does not reach the cleared node keeps all its paths |
| `ImportGraph.TransposeWithEdge` | languageserver/server2/depgraph.go:21-35 | adding an edge to both maps keeps them exact transposes without empty sets, self-edges included |
| `ImportGraph.TransposeUnique` | languageserver/server2/depgraph.go:5-11 | the reverse map is determined by the forward map |
| `ImportGraph.ClosedSetHoldsPath` | languageserver/server2/depgraph.go:74-84 | a set closed under incoming edges that holds the target holds everything that reaches it: completeness of the search |
| `DependencyGraphs.DependencyGraph.constructor` | languageserver/server2/depgraph.go:13-19 | a new graph is empty and its maps are transposes |
| `DependencyGraphs.DependencyGraph.AddEdge` | languageserver/server2/depgraph.go:21-35 | afterwards there are exactly the old edges and the new one, self-edges included; the maps stay exact transposes |
| `DependencyGraphs.DependencyGraph.DependenciesOf` | languageserver/server2/depgraph.go:37-48 | lists each import once and nothing else |
| `DependencyGraphs.DependencyGraph.DependentsOf` | languageserver/server2/depgraph.go:50-61 | read off the reverse map, lists exactly the nodes with a forward edge to the given one, each once |
| `DependencyGraphs.DependencyGraph.Invalidate` | languageserver/server2/depgraph.go:63-94 | terminates on every graph and returns without duplicates exactly the other nodes with a forward path to the given one |
| `DependencyGraphs.DependencyGraph.ClearDependenciesOf` | languageserver/server2/depgraph.go:96-112 | afterwards there are exactly the old edges that do not leave the node; the maps stay exact transposes with no empty sets |
| `DependencyGraphs.RecordThenClear` | languageserver/server2/depgraph.go:21-112 | any number of edges recorded for a file without imports, followed by a clear, leaves both maps exactly as they were |
| `Recency.LookupFinds` | languageserver/server2/cache.go:50-61 | with distinct keys every slot is found by its key with its own entry |
| `Recency.KeepDistinct` | languageserver/server2/cache.go:90-102 | deletions keep the keys distinct |
| `Recency.KeepTwice` | languageserver/server2/cache.go:90-102 | deleting keys one after another is deleting them all at once |
| `Recency.LookupKeep` | languageserver/server2/cache.go:90-102 | a deletion hides exactly the deleted keys and changes no other entry |
| `Recency.LookupUnprefixed` | languageserver/server2/cache.go:104-115 | a deletion by prefix hides exactly the keys that are the prefix followed by something, and keeps the order of the rest |
| `Recency.GetWellFormed` | languageserver/server2/cache.go:48-61 | a read keeps the cache within capacity and its keys distinct |
| `Recency.PutWellFormed` | languageserver/server2/cache.go:63-88 | a write does too, evicting if it must |
| `LruCaches.IndexesIsIndexed` | languageserver/server2/cache.go:28-33 | the invariant between map and list, by recursion and by quantification, is the same |
| `LruCaches.RemoveIsKeep` | languageserver/server2/cache.go:99-101 | unlinking one list element removes exactly the slot of its key |
| `LruCaches.LRUCheckerCache.constructor` | languageserver/server2/cache.go:35-46 | a new cache is empty; capacities below one become one |
| `LruCaches.LRUCheckerCache.Get` | languageserver/server2/cache.go:48-61 | returns the entry of the key, if cached, and moves its slot to the front; nothing else moves |
| `LruCaches.LRUCheckerCache.MoveToFront` | languageserver/server2/cache.go:59 | the element comes first, the others keep their order, no element is lost or added |
| `LruCaches.LRUCheckerCache.Put` | languageserver/server2/cache.go:63-88 | the key comes first with the new entry; an update keeps the other slots, an insertion at capacity drops the last one |
| `LruCaches.LRUCheckerCache.EvictLast` | languageserver/server2/cache.go:77-82 | exactly the least recently used slot is dropped, from the list and from the map |
| `LruCaches.LRUCheckerCache.PushFront` | languageserver/server2/cache.go:86-87 | a new slot comes before all others |
| `LruCaches.LRUCheckerCache.Delete` | languageserver/server2/cache.go:90-102 | drops exactly the slot of the key; a missing key changes nothing |
| `LruCaches.LRUCheckerCache.DeleteByPrefix` | languageserver/server2/cache.go:104-115 | drops exactly the slots whose key has the prefix, whatever order the map is visited in |
| `CacheHistories.RunWellFormed` | languageserver/server2/cache.go:48-115 | every history keeps the cache within capacity and its keys distinct |
| `CacheHistories.StackInclusion` | languageserver/server2/cache.go:48-102 | after any history of insertions, deletions and fetches (a read, then an insertion on a miss), the keys of a smaller cache are a prefix, by recency, of those of a larger one |
| `CacheHistories.GetKeepsInclusionIff` | languageserver/server2/cache.go:48-61 | a bare read keeps inclusion iff it hits in the small cache, misses in the large one, or the small one is empty |
| `CacheHistories.GetBreaksInclusion` | languageserver/server2/cache.go:48-61 | two caches reached by one history whose inclusion a bare read breaks |
| `ImportHistories.FlatServingIsRun` | languageserver/server2/analysis.go:225-273 | serving imports that import nothing is a history of fetches, and of bare reads for those that cannot be resolved |
| `ImportHistories.NestedServingBreaksInclusion` | languageserver/server2/analysis.go:225-273 | an import with an import of its own breaks inclusion where it hits only in the larger cache |
| `ImportHistories.KeysOfServe` | languageserver/server2/analysis.go:225-273 | serving an import moves, evicts and adds keys as a function on key lists says, nested imports included, and keeps the cache well formed and usable |
| `ImportHistories.ServingKeepsInclusionIff` | languageserver/server2/analysis.go:225-273 | serving an import keeps a smaller cache's keys a prefix of a larger one's, for all pairs of caches, iff the import resolves and nothing but the import itself is asked for while it is checked |
| `ImportHistories.ServingKeepsInclusion` | languageserver/server2/analysis.go:225-273 | serving any number of such imports, those that import nothing among them, keeps it too |
| `CacheHistories.RunHoldsNewest` | languageserver/server2/cache.go:48-88 | without deletions the cache holds, in order, the keys touched last, as many as fit |
| `CacheHistories.ReuseDistance` | languageserver/server2/cache.go:48-88 | without deletions a key is found iff it was touched and fewer than capacity other keys since, and then with the value last inserted |
| `CacheHistories.RetainedDespiteDeletions` | languageserver/server2/cache.go:48-115 | with deletions too, an undeleted key followed by fewer than capacity other touched keys is still cached, and a cached key was touched and not deleted since |
| `HostSpec.CanonicalCacheKeyInjective` | languageserver/server2/analysis.go:55-58 | different documents have different cache keys |
| `HostSpec.RemovalOrderIrrelevant` | languageserver/server2/snapshot.go:60-68 | a removal leaves the same state whether edges are cleared before or after invalidation |
| `HostSpec.InvalidationExact` | languageserver/server2/snapshot.go:41-46 | after an update or a removal an entry is found iff it was found before and neither is the changed key nor has a recorded path to it, and it is unchanged |
| `HostSpec.SurvivorsKeepOrder` | languageserver/server2/snapshot.go:29-69 | what survives an update or a removal keeps its order of recency, without repetition |
| `HostSpec.DocumentsAreSeparate` | languageserver/server2/snapshot.go:29-69 | a change of one document drops the entry of a different one iff that has a recorded path to it, and never alters it |
| `HostSpec.InvalidatedClosed` | languageserver/server2/depgraph.go:63-94 | what depends on a stale key is stale with it |
| `HostSpec.DependentsAlreadyDropped` | languageserver/server2/snapshot.go:29-47 | after an update, updating a document that depends on the changed one drops nothing more from the cache |
| `AnalysisHosts.AnalysisHost.constructor` | languageserver/server2/snapshot.go:20-27 | a new host is empty at revision zero |
| `AnalysisHosts.AnalysisHost.UpdateDocument` | languageserver/server2/snapshot.go:29-47 | the documents are the old ones with exactly the given text and version under the given URI; one revision later, the cache keeping in order exactly the slots that neither are the document's nor depend on it, the edges unchanged |
| `AnalysisHosts.AnalysisHost.RemoveDocument` | languageserver/server2/snapshot.go:49-69 | the documents are the old ones without the given URI; one revision later, the cache as after an update, the outgoing edges of the document cleared |
| `AnalysisHosts.AnalysisHost.InvalidateKey` | languageserver/server2/snapshot.go:41-46 | deleting the searched dependents one by one and then the key leaves exactly the slots outside both, in order |
| `AnalysisSpec.ServeAdds` | languageserver/server2/analysis.go:225-273 | serving an import, nested ones included, adds only slots that hold its own sub-checkers |
| `AnalysisSpec.CommitsIffNotCancelled` | languageserver/server2/analysis.go:162-303 | a result has a checker iff no cancellation check fired and document, program and checker exist; the checker is then first in the cache under the document's key; otherwise, so for every cancelled result, only import slots were added |
| `AnalysisSpec.AnalyzedReports` | languageserver/server2/analysis.go:161-303 | the diagnostics are exactly, in order, those of the stages that were reached (missing document, parse, then creation or check); the program is there from parsing on; the file kind is contract, transaction or script as the program's declarations say; cancelled and checker are exact; the state is unchanged unless the checker ran |
| `AnalysisSpec.OnDemandAnswer` | languageserver/server2/handlers.go:34-49 | a request is answered with the valid cached checker if there is one, else with the checker of the open document's analysis, else with nothing |
| `AnalysisSpec.ServeLeaves` | languageserver/server2/analysis.go:225-273 | serving leaves the valid checker that was found, or the sub-checker, under the import's key, and then an edge from the root; an import that cannot be resolved leaves what was there |
| `AnalysisSpec.OnDemandIsCached` | languageserver/server2/handlers.go:34-49 | a checker obtained on demand is first in the cache under the document's key and is what the next request gets |
| `Analyses.ImportHandler` | languageserver/server2/analysis.go:225-273 | changes the shared cache and graph as specified: a usable hit records an edge from the root; a miss that resolves stores the sub-checker, after its nested imports, and records the edge |
| `Analyses.ServeFromCache` | languageserver/server2/analysis.go:226-233 | hits only on a valid entry with a checker; recency moves in any case, the edge is recorded on a hit only |
| `Analyses.StoreImport` | languageserver/server2/analysis.go:261-268 | stores the sub-checker and records the edge from the root document |
| `Analyses.CheckImports` | languageserver/server2/analysis.go:283-284 | the imports of a check are served in order |
| `Analyses.Analyze` | languageserver/server2/analysis.go:161-303 | the diagnostics are exactly, in order, those of the stages that were reached; program, file kind, checker and the cancelled mark are exact on each path; the shared state changes only if the checker ran |
| `Analyses.CheckerForDocument` | languageserver/server2/handlers.go:34-49 | a usable cached checker, else the checker of an analysis run now, else nothing for a closed document |
| `Freshness.SoundAfterChange` | languageserver/server2/snapshot.go:41-46 | an entry that survives the invalidation for a key was not made from that key and keeps its recorded paths, cleared edges notwithstanding |
| `Freshness.FlightAfterChange` | languageserver/server2/snapshot.go:29-69 | an analysis in flight that was not served the changed key keeps its paths; one that was is marked |
| `Freshness.ImportedSound` | languageserver/server2/analysis.go:226-233 | being served a sound entry keeps the analysis sound, with what that entry was made from |
| `Freshness.LinkedSound` | languageserver/server2/analysis.go:267-268 | once the edge from the root is recorded, everything the import was made from is reached from the root |
| `Freshness.StepKeepsInv` | languageserver/server2/analysis.go:225-299 | each step of any analysis, update, removal or read keeps the invariant over entries, analyses in flight and edges |
| `Freshness.RunKeepsInv` | languageserver/server2/analysis.go:225-299 | so does every run, in every interleaving |
| `Freshness.StaleIffOverlapped` | languageserver/server2/snapshot.go:29-69 | in every reachable world an entry has outlived a change of something it was made from iff such a change overlapped its making; entries that were not overlapped have recorded paths to all they were made from |
| `Freshness.SequentialFreshness` | languageserver/server2/snapshot.go:29-69 | when changes never overlap an analysis, no cached entry outlives a change of anything it was made from, and the paths stay recorded while it is cached |
| `Freshness.ChangeDropsEntry` | languageserver/server2/snapshot.go:41-46 | in every reachable world, updating or removing a key drops every entry made from it, overlapped ones aside |
| `Freshness.OverlapGoesStale` | languageserver/server2/analysis.go:295-299 | from any world that meets the invariant, an update between the last import and the commit leaves a stale entry at the front of the cache |
| `Freshness.OverlapIsReachable` | languageserver/server2/analysis.go:295-299 | such a world is reached from the start |
| `TracedAnalysis.EraseServe` | languageserver/server2/analysis.go:225-273 | with the stamps left out, the stamped handler computes what the handler computes |
| `TracedAnalysis.ServeStamps` | languageserver/server2/analysis.go:225-273 | serving an import only adds stamps, on a hit all those of the served entry; afterwards the analysis is stamped with every key it was served, nested ones included |
| `TracedAnalysis.CommittedStamps` | languageserver/server2/analysis.go:295-299 | the committed entry comes first in the cache, stamped with the document and with every key its handler was served |
| `AnalysisRuns.ServeIsRun` | languageserver/server2/analysis.go:225-273 | one call of the import handler, nested calls included, is a run of handler steps that ends in exactly the stamped state the handler computes |
| `AnalysisRuns.AnalyzedIsRun` | languageserver/server2/analysis.go:161-303 | a whole analysis is a run without changes that leaves nothing in flight and ends in exactly the stamped state |
| `AnalysisRuns.DemandIsRun` | languageserver/server2/handlers.go:34-49 | so is an analysis on demand: a look into the cache and, on a miss, an analysis |
| `AnalysisRuns.CallIsRun` | languageserver/server2/snapshot.go:29-69 | each update, removal, analysis or analysis on demand is a run of the state machine ending in exactly its stamped state |
| `AnalysisRuns.CallsAreRun` | languageserver/server2/analysis.go:161-303 | so is every sequence of such calls, and no change overlaps an analysis in it |
| `AnalysisRuns.ErasePerformAll` | languageserver/server2/analysis.go:161-303 | with the stamps left out, the stamped state after any calls is what the methods compute |
| `AnalysisRuns.EngineIsFresh` | languageserver/server2/snapshot.go:29-69 | after every sequence of calls from the empty host, no cached entry has outlived a change of anything it is stamped with, and its recorded paths to all of it persist |
| `EngineFreshness.StampedEntryDropped` | languageserver/server2/snapshot.go:29-69 | whatever calls follow, a change of anything a cached entry is stamped with, directly or through entries it was built on, drops that entry for good |
| `EngineFreshness.ServeEdges` | languageserver/server2/analysis.go:225-273 | serving an import adds an edge from the root to every key served, nested ones included, and no other edge |
| `EngineFreshness.PerformEdges` | languageserver/server2/snapshot.go:29-69 | an analysis adds exactly the edges from its document to what its handler served, a removal takes away exactly the edges that leave its document, an update changes none |
| `EngineFreshness.CommitReaches` | languageserver/server2/analysis.go:225-299 | a committed entry is cached and has recorded paths to everything it was made from and everything that reaches |
| `EngineFreshness.PerformKeepsReach` | languageserver/server2/snapshot.go:29-69 | a call that caches other checkers either drops an entry or leaves its path to a key in place, and drops it if it changes that key |
| `EngineFreshness.EntryNeverOutlives` | languageserver/server2/snapshot.go:29-69 | from any state: once a call has changed anything that a committed entry's import handler was served, the entry is not in the cache, and while it is, it has recorded paths to all of that |
| `EngineFreshness.BuiltOnNeverOutlives` | languageserver/server2/snapshot.go:29-69 | the same for everything that a cached root entry was made from which the handler served |
| `CallHistories.DocumentIsLastUpdate` | languageserver/server2/snapshot.go:29-69 | after every sequence of calls from a new host, a document has some text and version iff its last update or removal is an update with that text and version |
| `CallHistories.OpenIffLastIsUpdate` | languageserver/server2/snapshot.go:29-69 | it is open iff its last update or removal is an update |
| `CallHistories.RevisionCountsChanges` | languageserver/server2/snapshot.go:29-69 | the revision is the number of updates and removals, modulo 2^64, whatever analyses came in between; the capacity never changes |
| `CallHistories.EdgeIffRecorded` | languageserver/server2/depgraph.go:21-112 | after every sequence of calls an import edge is recorded iff the import handler of some analysis was served its target for its source and the source has not been removed since |
| `Servers.ServerV2.CancelInFlight` | languageserver/server2/server.go:186-191 | the run that holds the entry is cancelled; the map is not changed |
| `Servers.ServerV2.Register` | languageserver/server2/server.go:204-211 | the next 64-bit token and a fresh uncancelled context are stored for the document, over any entry it has; all other entries stay |
| `Servers.ServerV2.CleanUp` | languageserver/server2/server.go:213-220 | cancels its own context and removes exactly an entry of the document with its own token |
| `Servers.ServerV2.CancelAndForget` | languageserver/server2/server.go:163-169 | cancels the holder of the entry and removes the entry; all other entries stay |
| `CancelProtocol.StepKeepsInv` | languageserver/server2/server.go:160-229 | each step of schedule, registration, snapshot, cancellation check, commit, publication, cleanup or close keeps the protocol's invariant |
| `CancelProtocol.EntriesOwned` | languageserver/server2/server.go:204-220 | in every interleaving an entry belongs to a run of its document that registered and has not cleaned up; when all runs have cleaned up the map is empty |
| `CancelProtocol.CleanUpRemovesOwnEntry` | languageserver/server2/server.go:213-220 | a cleanup removes its own run's entry, if it is there, and never another one |
| `CancelProtocol.EntryIff` | languageserver/server2/server.go:160-220 | in every interleaving a run holds its document's entry after a step iff it registers now, or held it and the step is neither another registration for the document nor its close nor the run's cleanup |
| `CancelProtocol.AnswersDecide` | languageserver/server2/analysis.go:170-302 | what a run meets at the three cancellation checks decides whether the result of `Analyze` is cancelled, has a checker or has diagnostics only |
| `CancelProtocol.RunsFollowAnalysis` | languageserver/server2/server.go:222-229 | in every interleaving a run caches its root checker only if the result of `Analyze` has one and publishes only if it is not cancelled; by its cleanup it has done both exactly then |
| `CancelProtocol.StoppedRunsAreSilent` | languageserver/server2/server.go:222-229 | a run whose result `Analyze` marks cancelled neither caches its root checker nor publishes |
| `CancelProtocol.ScheduleStopsChecks` | languageserver/server2/server.go:185-191 | in every reachable state, scheduling or closing a document leaves a check in flight cancelled iff it was already or no later check has stored its entry over it |
| `CancelProtocol.ChangeReachesCheckIff` | languageserver/server2/server.go:185-191 | in every reachable state, the next scheduled change leaves an uncancelled check cancelled or up to date iff its entry has not been overwritten |
| `CancelProtocol.StalePassWasSuperseded` | languageserver/server2/server.go:204-229 | a check not cancelled although its snapshot is older than the last scheduled change had its entry overwritten |
| `CancelProtocol.SupersededIff` | languageserver/server2/server.go:209-211 | a run loses its entry to another exactly at a registration that finds it in the map |
| `CancelProtocol.StepKeepsCancellableIff` | languageserver/server2/server.go:204-211 | a step leaves some undecided check beyond the reach of its document's schedule iff it registers over the entry of an undecided, uncancelled check |
| `CancelProtocol.AlwaysCancellableIff` | languageserver/server2/server.go:185-229 | throughout a run every undecided check can be cancelled iff no registration is such an overwrite |
| `CancelProtocol.PassesAreCurrent` | languageserver/server2/server.go:204-229 | in runs without such overwrites, a check that finds itself not cancelled has seen every scheduled change; storing over the entry of a cancelled check is allowed |
| `CancelProtocol.OverwriteLetsStaleCheckPass` | languageserver/server2/server.go:204-229 | from every state that meets the invariant, an overwrite, a change and its schedule step let the first check pass with an old snapshot |
| `CancelProtocol.OverwriteIsReachable` | languageserver/server2/server.go:204-229 | such a state is reached from the start |
| `Publications.PublicationRightIff` | languageserver/server2/server.go:160-229 | a check's publication is right iff its document is open and its snapshot current; the empty one of a close, iff the document is closed |
| `Publications.StepKeepsRightIff` | languageserver/server2/server.go:160-229 | what a document shows goes wrong exactly with a change, with its removal, or with a check that publishes an old snapshot or for a closed document |
| `Publications.StepKeepsPublishersCurrentIff` | languageserver/server2/server.go:185-191 | a step lets an old snapshot be published iff it is a schedule or close while a check of an older version is about to publish |
| `Publications.AlwaysInHandIff` | languageserver/server2/server.go:160-229 | throughout a run every undecided check can be cancelled and every publication to come has seen every scheduled change, iff no live entry is overwritten and no such schedule or close happens |
| `Publications.ScheduledPublicationIsRight` | languageserver/server2/server.go:204-229 | after such a run, once the last change of an open document is scheduled, whatever is published for it is right |
| `Publications.LatePublicationStays` | languageserver/server2/server.go:160-182 | from any state in which a check is about to publish, closing its document leaves the check's diagnostics shown on the closed document |
| `Publications.TimerPublishesAfterClose` | languageserver/server2/server.go:193-201 | from any state with a closed document, a debounce timer still pending starts a check that publishes for it |
| `Publications.ClosedIsNotFound` | languageserver/server2/analysis.go:176-186 | such a check ends at the document lookup, not cancelled, with "document not found" |
| `DebounceProtocol.StepKeepsInv` | languageserver/server2/debounce.go:25-53 | each trigger, firing, callback or stop keeps: a tracked timer is the latest of its key and has not run, a replaced timer is not the latest, no callback ran twice |
| `DebounceProtocol.LatestNeverLost` | languageserver/server2/debounce.go:25-42 | in every interleaving no callback runs twice, and without a stop the latest one of a key is pending, started or has run |
| `DebounceProtocol.AllTrackedIff` | languageserver/server2/debounce.go:36-41 | a step leaves a pending timer out of the map iff it is a callback that finds another pending timer under its key |
| `DebounceProtocol.StopHaltsAllIff` | languageserver/server2/debounce.go:44-53 | a stop leaves nothing pending iff every pending timer is in the map |
| `DebounceProtocol.LateTriggerEscapes` | languageserver/server2/debounce.go:28-53 | after a trigger between a callback's start and its lock the new timer is untracked, survives a stop, and is not replaced by a third trigger |
| `DebounceProtocol.LateTriggerIsReachable` | languageserver/server2/debounce.go:28-41 | the state it starts from is reached: a timer fires and its callback has not taken the lock |
| `DebounceProtocol.FireThenCallback` | languageserver/server2/debounce.go:36-41 | when the two parts of a callback are one step, the callback that runs is the latest of its key, once, and all pending timers stay tracked |
| `DebounceProtocol.AtomicDebouncing` | languageserver/server2/debounce.go:8-53 | over every run with such callbacks, only the latest callback of a key can be pending or run next, and a stop leaves none pending |
| `Debouncers.Debouncer.Trigger` | languageserver/server2/debounce.go:25-42 | halts the timer in the map if it is pending and puts a new pending timer in its place |
| `Debouncers.Debouncer.Callback` | languageserver/server2/debounce.go:36-41 | deletes whatever timer is under its key and runs its function |
| `Debouncers.Debouncer.Stop` | languageserver/server2/debounce.go:44-53 | halts exactly the pending timers in the map and empties it, in any order of visits |
| `IfLetSpec.NilCheckedIff` | lint/iflet_analyzer.go:143-170 | a key is nil-checked iff the test is one of six: an identifier, member or index expression with that key, `!=`, and nil, in either order |
| `IfLetSpec.TraversalFinds` | lint/iflet_analyzer.go:70-136 | the event traversal of a subtree reports what the recursive definition does, restores the counters and leaves the other scopes alone |
| `IfLetSpec.CountersBalance` | lint/iflet_analyzer.go:58-136 | at every point of every traversal a scope is on the stack and no counter is negative; at the end there is one scope and all counters are zero |
| `IfLetSpec.FindIsFirsts` | lint/iflet_analyzer.go:46-132 | the recursive definition reports the first guarded force-unwrap of each key in each function expression, and in the code outside them |
| `IfLetSpec.OccurrencesByPath` | lint/iflet_analyzer.go:46-136 | the occurrences are exactly the force-unwraps of the program, each in the scope of its innermost function expression and guarded iff an if statement between the two compares its operand with nil |
| `IfLetSpec.ReportsFirstUnwraps` | lint/iflet_analyzer.go:46-136 | for every program the traversal reports, in source order, exactly the first guarded force-unwrap of each key per function expression, the code outside them counting as one; scopes and guards are those of `OccurrencesByPath` |
| `IfLetAnalyzers.IfLetAnalyzer.OnElement` | lint/iflet_analyzer.go:72-135 | the callback changes scopes and reports as the fold over events does |
| `IfLetAnalyzers.Analyze` | lint/iflet_analyzer.go:39-139 | a whole analysis reports exactly the first guarded force-unwraps, never touching an empty stack |
| `Positions.ConversionKeepsOrder` | languageserver/conversion/conversion.go:30-36 | on positions that fit in 32 bits the conversion keeps document order and is injective |
| `Positions.RangeExact` | languageserver/conversion/conversion.go:38-44 | a range keeps its start, and its inclusive end becomes the position one character on, on one line or several |
| `SemanticTokens.TokenCoversRange` | languageserver/server2/semantic_tokens.go:175-195 | a token starts where its range starts and keeps type and modifiers; on one line it ends where the range ends, over several lines it has the length of the last one, and an empty one has length one |
| `SemanticTokens.DecodeFirst` | languageserver/server2/semantic_tokens.go:92-105 | a token that does not step back is read as it was; one that does makes the data unreadable |
| `SemanticTokens.DecodeEncodeIff` | languageserver/server2/semantic_tokens.go:89-107 | decoding the encoding gives the tokens back iff they are sorted: no subtraction then wraps |
| `SemanticTokens.DecodeEncode` | languageserver/server2/semantic_tokens.go:89-107 | for sorted tokens the round trip holds and each takes five numbers |
| `SemanticTokens.EncodingIs` | languageserver/server2/semantic_tokens.go:79-108 | for sorted tokens the five numbers are: the difference of lines, the start or its difference on the same line, length, type, modifiers |
| `SemanticTokens.SortTokens` | languageserver/server2/semantic_tokens.go:82-87 | sorts by line and start character in place, keeping every token |
| `SemanticTokens.EncodeSemanticTokens` | languageserver/server2/semantic_tokens.go:79-108 | the data decodes, as Language Server Protocol 3.17 describes under Semantic Tokens, to a sorted permutation of the tokens; five numbers each, at known places |
| `SelectionRanges.InRangeIffBetween` | languageserver/server2/handlers.go:1281-1293 | a position is in a range iff it lies between both ends, inclusively, in document order |
| `SelectionRanges.VisitedIffWithin` | languageserver/server2/handlers.go:1241-1293 | a node is visited exactly at the positions from its first character to just behind its last one, and its range has those ends |
| `SelectionRanges.VisitsAreContaining` | languageserver/server2/handlers.go:1247-1262 | when children lie inside their parents, skipping subtrees loses nothing: exactly the nodes that contain the position are visited |
| `SelectionRanges.DescendsIffExclusive` | languageserver/server2/handlers.go:1247-1262 | the visits go down one path iff no two siblings below a visited node contain the position |
| `SelectionRanges.VisitsEnclose` | languageserver/server2/handlers.go:1247-1262 | when children lie inside parents and no two siblings are visited, each visited range encloses the next, in whatever order siblings are |
| `SelectionRanges.EnclosesIffExclusive` | languageserver/server2/handlers.go:1247-1262 | when children lie inside parents and siblings follow each other, each visited range encloses the next iff no two siblings below a visited node contain the position |
| `SelectionRanges.ChainOfContaining` | languageserver/server2/handlers.go:1239-1279 | the chain is made of exactly the containing nodes from deepest to root; each parent range encloses its child if no two siblings are visited and, for siblings in order, only then |
| `SelectionRanges.Collect` | languageserver/server2/handlers.go:1245-1262 | the ranges are appended in the order of the pre-order visit |
| `SelectionRanges.LinkUp` | languageserver/server2/handlers.go:1268-1278 | each new link has the chain so far as its parent, so the last range comes first; nil iff there are no ranges |
| `SelectionRanges.BuildSelectionRange` | languageserver/server2/handlers.go:1239-1279 | the chain from the last visited range to the root; nil iff the root excludes the position; the containing nodes reversed when children lie inside parents |
| `SelectionRanges.TouchingSiblingsBreakChain` | languageserver/server2/handlers.go:1281-1293 | two siblings that touch both contain the position between them, and neither encloses the other |
| `Layouts.PositionsIncrease` | languageserver/server2/handlers.go:676-719 | later offsets have later lines or columns |
| `Layouts.NextPosition` | languageserver/server2/handlers.go:676-719 | lines count from one and columns from zero, a line break starts a line |
| `Layouts.OffsetOfPosition` | languageserver/server2/handlers.go:676-719 | a protocol position finds the offset it was made from, in texts addressable with 32 bits |
| `Layouts.EditsInsert` | languageserver/server2/handlers.go:725-733 | applying the edits inserts their texts at their positions and replaces nothing |
| `Layouts.ErasedInserted` | languageserver/server2/handlers.go:725-733 | taking the inserted texts out again gives the original text |
| `Layouts.CharacterKept` | languageserver/server2/handlers.go:725-733 | every character is still there, pushed right by what was inserted before it |
| `Layouts.LineAfterInserting` | languageserver/server2/handlers.go:725-733 | its line grows by the line breaks inserted at or before it |
| `SplitLines.BlankPrefixLongest` | languageserver/server2/handlers.go:629-640 | the longest prefix of blanks and tabs |
| `SplitLines.IndentationIs` | languageserver/server2/handlers.go:629-640 | the indentation is the longest run of blanks and tabs at the start of the line, up to the position |
| `SplitLines.ExtractIndentation` | languageserver/server2/handlers.go:629-640 | returns the longest blank prefix of the line up to the position |
| `SplitLines.MaybeSplitLines` | languageserver/server2/handlers.go:642-734 | the action offered, or none; for laid-out elements it is none only with fewer than two elements, a requested range not between the first start and the last end, or elements on lines of their own, and otherwise it works as `SplitLinesWorks` says |
| `SplitLines.SplitBetween` | languageserver/server2/handlers.go:688-708 | one edit before each element that starts on the line where the one before ends |
| `SplitLines.InsertionsAre` | languageserver/server2/handlers.go:670-719 | inserted are exactly a line break and the indentation with four blanks more before the first element, if it starts on the container's line, and before each element that starts on the line where the one before ends, and a line break and the indentation behind the last, if the container ends on its line |
| `SplitLines.InsertionsOrdered` | languageserver/server2/handlers.go:676-719 | for laid-out elements the insertions are at strictly increasing positions of the text |
| `SplitLines.InsertionsSeparate` | languageserver/server2/handlers.go:676-719 | after the edits every element starts on a line below the end of the one before, and the container ends below the last |
| `SplitLines.InsertionsSettle` | languageserver/server2/handlers.go:721-723 | on the edited text and the shifted positions the action finds nothing to do, for any requested range |
| `SplitLines.OfferedIff` | languageserver/server2/handlers.go:650-668 | for laid-out elements an action is offered iff there are at least two, the first starts at or before the requested start, the requested end is at or before the end of the last, by line and column, and not all are on lines of their own |
| `SplitLines.SplitLinesWorks` | languageserver/server2/handlers.go:642-734 | no action is offered only where, by positions, none is due; one that is offered has the title and works: the edits are pure insertions at strictly increasing positions, every character is kept, the insertions can be erased again, and in the edited text every element is on its own line and a second run offers nothing |
| `StringConcat.BuildStringTemplate` | lint/string_concat_analyzer.go:112-132 | writes the quoted concatenation of literal texts and interpolations |
| `StringConcat.IsConcatIff` | lint/string_concat_analyzer.go:29-55 | recognised are exactly the calls of the member `concat`, not optional, on a value of type String |
| `StringConcat.ScanLiteral` | lint/string_concat_analyzer.go:119-120 | a well-formed literal is read back as its own characters and escapes, whatever follows |
| `StringConcat.CloserIffBalanced` | lint/string_concat_analyzer.go:121-126 | the parenthesis that closes an interpolation is the one that was written iff the text closes every parenthesis and quote it opens and no other, where parentheses in quoted texts do not count but interpolations in them do |
| `StringConcat.TemplateReadsBackIff` | lint/string_concat_analyzer.go:112-132 | scanning the template gives back the parts, adjacent literals merged, iff every expression part is balanced |
| `StringConcat.PartsHaveChainValue` | lint/string_concat_analyzer.go:63-110 | the parts collected have together the value of the expression, where a non-optional call of the member `concat` on a String is its base followed by its argument and everything else is itself |
| `StringConcat.RewriteKeepsValue` | lint/string_concat_analyzer.go:63-132 | with balanced expression parts the template reads back and has the value of the expression it replaces, for every meaning of characters and expressions |
| `StringConcat.UnbalancedPartBreaks` | lint/string_concat_analyzer.go:94-132 | a part that begins behind an open parenthesis gives a template that does not read back |
| `Lines.TrimSpaceTrims` | docgen/doc_generator.go:392-397 | trimming leaves nothing to trim and adds no line break |
| `Lines.TrimSpaceCuts` | docgen/doc_generator.go:392-397 | trimming takes away only white space, at both ends |
| `Lines.SpaceCodePoints` | docgen/doc_generator.go:392-397 | white space by code point |
| `Lines.SplitJoin` | docgen/doc_generator.go:394-405 | lines without line breaks come back from the text they are joined to |
| `Lines.JoinSplit` | docgen/doc_generator.go:394-405 | joining the lines of a text gives the text |
| `DocFormat.FormatDoc` | docgen/doc_generator.go:388-405 | the trimmed lines of the trimmed text, joined: the lines of the result are those lines, one for one |
| `DocFormat.FormatDocIdempotent` | docgen/doc_generator.go:388-405 | formatting a formatted comment changes nothing |
| `DocFormat.FormatFuncDoc` | docgen/doc_generator.go:407-498 | the kept description lines, then the parameter section, then the last return line, with separating blanks |
| `DocFormat.ConsumeLine` | docgen/doc_generator.go:420-465 | one pass of the loop consumes one line as parameter, return or description |
| `DocFormat.LinesPartitioned` | docgen/doc_generator.go:420-465 | each line is a parameter entry, a return line or a description line, and only one of them |
| `DocFormat.ParamLineIff` | docgen/doc_generator.go:423-446 | a line is a parameter line with some entry iff it is `@param `, a name without a colon that is not blank, a colon and a text, and the entry is the trimmed name with, unless it is empty, the trimmed text between underscores |
| `DocFormat.ReturnLineIff` | docgen/doc_generator.go:447-450 | a line is a return line iff a return type is documented and it starts with `@return ` |
| `DocFormat.ParamsConcat` | docgen/doc_generator.go:420-465 | the parameter entries of two runs of lines are those of the first, then those of the second |
| `DocFormat.DocsConcat` | docgen/doc_generator.go:420-465 | so are the description lines |
| `DocFormat.ReturnsConcat` | docgen/doc_generator.go:420-465 | and the return lines |
| `DocFormat.KeptDropsRepeatedBlanks` | docgen/doc_generator.go:452-464 | of the description lines only blanks behind a blank are dropped; the others stay, in order |
| `DocFormat.KeptIsUnrepeated` | docgen/doc_generator.go:452-464 | the description lines kept are all of them, each run of blank ones made one |
| `DocFormat.OutputBlanksIff` | docgen/doc_generator.go:467-495 | the output has no two blank lines in a row iff a description line is kept or there is no section |
| `DocFormat.FuncDocLines` | docgen/doc_generator.go:407-498 | the lines of the result text are exactly the lines it was put together from |
| `DocFormat.FuncDocLaysOut` | docgen/doc_generator.go:407-498 | for every comment the lines of the result are, place by place: the description with repeated blanks made one, `Parameters:` and the entries in order, and `Returns: ` with what follows the prefix in the last return line, a blank line before each section |
| `DocFormat.FuncDocBlanks` | docgen/doc_generator.go:407-498 | for every comment the result text has two blank lines in a row iff it has no description line and has a parameter or return line |
| `DocFormat.ParameterAloneStartsBlank` | docgen/doc_generator.go:467-482 | every comment of one parameter line alone gives a text with two blank lines in a row |
| `DocFormat.ParameterAloneExample` | docgen/doc_generator.go:467-482 | `@param a: b` is such a comment |

## Left out

- The Cadence parser, checker, elaboration, `ast.Inspect` and the inspector, and import resolvers: they are not part of this model.  Trees are abstract, an analysis is given a script of what the libraries answer, and an import handler call carries its nested calls.
- Location identifiers: `CanonicalCacheKey` is an injective function of the document's URI; import keys are any string.
- Real freshness of entries that the import handler stores: the code records all edges from the root document, so the stamps of such an entry name only its own key, and imports of the import are tracked for the root that asked for them.
- Mutexes, goroutines and wall-clock time: each locked section is one atomic step, and timers fire at any time.
- Cancellation tokens and runs beyond 2^64: the run-level results on tokens are for runs with fewer steps than that.
- Revisions wrap at 2^64, as in the code; document versions are plain integers, since the server only stores them.
- Diagnostics are plain strings without ranges, and a published set is only the fact that it was published.
- Texts are sequences of characters, each one column and one offset wide: the difference between bytes, columns and UTF-16 units is not modelled.
- `SplitLinesWorks` needs positions that fit the protocol's 32 bits and elements laid out as the parser does: in order, inside the container, none ending with a line break.  `MaybeSplitLines` needs neither.
- StackInclusion: is about histories of cache calls; for the import handler's own calls, nested ones included, see `ServingKeepsInclusionIff`.
- EntryNeverOutlives: tells an entry by its checker, and so speaks of further calls that cache other checkers; every checker is a new object.  `StampedEntryDropped` needs no such condition.
- SortTokens: stands for `sort.Slice`, whose algorithm is the library's; nothing depends on more than a sorted permutation.
- `CloserAt` does not skip comments inside an interpolation, so a part with an unmatched parenthesis or quote in a comment counts as unbalanced.
- White space is that of Go's `unicode.IsSpace`; invalid UTF-8 is not modelled.
- `collectSemanticTokens`, `compositeTokenType`, `DocumentURIs`, hover, completion, rename, folding and the other handlers: assembly of protocol values from library data.
- The v1 server, the JSON-RPC plumbing, the flowkit integration, the other lint analyzers and the documentation templates.
