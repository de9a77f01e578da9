# Verified models of the LangChain Go core

These Dafny modules model the parts of the Go port of LangChain whose correctness spans several
functions, goroutines or whole runs, and prove what the code promises of them.

| component | modules | source |
|---|---|---|
| bounded concurrent fan-out | `BatchAsCompleted`, `ParallelMap` | `core/runnables/batch_as_completed.go`, `core/runnables/parallel.go` |
| indexing: record manager and destination kept in step | `IndexSpec`, `RecordManager`, `Indexing`, `IndexRun` | `core/indexing/indexing.go`, `core/indexing/document_index.go` |
| text splitting | `TextPieces`, `TextMerge`, `RecursiveSplitter` | `textsplitters/textsplitter.go` |
| runnable combinators and their event logs | `ChainEvents`, `Combinators` | `core/runnables/*.go`, `core/retry/retry.go` |
| streams of sequences and of parallel steps | `Streams`, `RoundRobin` | `core/runnables/pipe.go`, `core/runnables/advanced.go` |
| JSON diff, completion and splitting | `JsonPointer`, `JsonPatch`, `PartialJson`, `JsonSplit` | `core/outputparser/transform.go`, `textsplitters/json.go` |
| token bucket | `RateLimiter` | `core/ratelimiters/ratelimiters.go` |
| layered graph drawing | `GraphLayers`, `GraphRouting` | `core/runnables/graph_ascii.go` |

`Common` holds an option type and a few facts about logs of indexed entries. `dafny verify dfyconfig.toml`
checks everything.

## How the models are set up

- **Goroutines.** `BatchAsCompleted` and `ParallelMap` are state machines. A state holds the program point of
  every goroutine, which channels are closed, whether the context is cancelled, and logs of what was called,
  written and delivered. A step is one channel rendezvous, check, call or exit; every `select` and every
  interleaving is a choice between enabled steps, and so is an outside cancellation. Theorems quantify over every
  schedule. A call of the user's function is one step, that is, it returns.
- **Objects.** The record manager, the document index, the streams, the run registry, the token bucket, the
  layering search and the canvas are classes with the source's fields. Loops over slices and maps are loops;
  map iteration picks an arbitrary remaining key, so every theorem holds for every iteration order.
- **Indexing.** The clock is a field that never runs backwards. Each failure point is a nondeterministic choice:
  cancellation, a destination that stops after some documents, a failing iterator, and every call of the record
  manager, which then has no effect; so a run may break off between the two stores. The key encoder is a partial
  function; where a statement needs it, `EncoderLaw` says that equal keys mean equal content and metadata.
  `Consistent` says that a run starts from records older than the run whose documents are in the destination.
  `Synced` is the reference definition of what the two stores hold after a part of the input; the batch size does
  not occur in it. Modes and groups: the code cleans every group in full mode (`core/indexing/indexing.go:421-423`
  passes no group list), which is not what the comment at `core/indexing/indexing.go:156-160` suggests; the model
  follows the code.
- **Text.** Text is a sequence of runes, a separator is any function that reports ordered, non-overlapping
  matches, the measure is any function; statements about lengths need it additive and at least 1 on non-empty text.
- **Events.** Run IDs are minted from a counter and 0 stands for the empty ID. Function bodies and Passthrough hooks
  may call any runnables, in any order and number, with the options they receive. What they call and how they end,
  what conditions return and what error filters and policies decide is a parameter looked up per invocation.
- **JSON Patch.** Patches are applied as section 4 of RFC 6902 says, paths are parsed as sections 3 and 4 of
  RFC 6901 say; these appliers are the independent half of the round trips.
- **Numbers.** Tokens and seconds are reals; lengths, rows and columns are unbounded integers.

Some results are about inputs on which the code does not do what one might expect. A member that goes from a value to
`null` is removed by the diff, so a patch rebuilds the next value if and only if no value does (`MakeJSONPatch`,
`NullMemberIsLost`). A text cut off inside an escape is completed to a text whose string is still open
(`CompletionIsBalancedIff`). An incremental rerun over a group that spans two batches deletes and adds again
(`RerunChangesNothing`, `GroupAcrossBatchesIsNotSettled`). A Passthrough hook gets the options of the Passthrough
itself, so a runnable it calls with them does not appear below the Passthrough; and a function body that calls two
runnables opens one run ID twice (`SoundLogIffQuiet`). In a cyclic graph a back edge still raises its target to layer 1
(`EdgesGoDown`), although `core/runnables/graph_ascii.go:198-199` says that back edges are ignored.

## Model

| member | source | states |
|---|---|---|
| `BatchAsCompleted.ExactlyOneResultPerInput` | core/runnables/batch_as_completed.go:57-118 | under every schedule a consumer that ranges to the end has received exactly one pair per input index |
| `BatchAsCompleted.NoIndexLostOrDuplicated` | core/runnables/batch_as_completed.go:63-103 | an index is undispatched, with exactly one worker, or delivered once, never two of these; until the consumer leaves none is lost, also when the dispatcher reports the cause after a cancellation |
| `BatchAsCompleted.ResultsAreFaithful` | core/runnables/batch_as_completed.go:66-80 | each input is invoked at most once; a pair holds the outcome of that invocation, or the cause only if the context was cancelled and the input never invoked |
| `BatchAsCompleted.NoPanicAndBoundedFanOut` | core/runnables/batch_as_completed.go:46-51 | nothing is sent on a closed channel, no channel is closed twice, at most `MaxConcurrency` (or the default, and never more than the inputs) invocations are in flight |
| `BatchAsCompleted.NeverDeadlocks` | core/runnables/batch_as_completed.go:61-118 | in every reachable state in which something has not exited a step other than cancellation is possible |
| `BatchAsCompleted.EveryScheduleEnds` | core/runnables/batch_as_completed.go:105-118 | no schedule has more than 6n + limit + 7 steps, and one that cannot go on has returned with every worker and the dispatcher gone, after an early stop and a cancellation too |
| `BatchAsCompleted.AtMostOneStartAfterStop` | core/runnables/batch_as_completed.go:66-94 | once the consumer has stopped the dispatcher may still hand out indexes, but each worker starts at most one further invocation, and none if it was past its check |
| `BatchAsCompleted.NoCallAfterCancel` | core/runnables/batch_as_completed.go:68-74 | once the context is cancelled a worker completes no further invocation, but for the one it was in |
| `BatchAsCompleted.CancelledFromTheStart` | core/runnables/batch_as_completed.go:68-69 | a run whose context was cancelled beforehand invokes nothing and delivers the cause only |
| `BatchAsCompleted.CausesNeedNoWorker` | core/runnables/batch_as_completed.go:93-101 | after a cancellation the dispatcher and the consumer alone can deliver the cause for every input not handed out yet, in order, while invocations are still out |
| `BatchAsCompleted.NothingDeliveredAfterStop` | core/runnables/batch_as_completed.go:105-117 | a consumer that stopped, or has a pair for every input, receives no further pair |
| `BatchAsCompleted.PoolIsFullyUsed` | core/runnables/batch_as_completed.go:46-64 | the pool has `MaxConcurrency` workers, or the default number, or one per input if that is less, and some schedule has all of them invoking at once |
| `BatchAsCompleted.StepKeepsInv` | core/runnables/batch_as_completed.go:61-118 | control, ownership and faithfulness are kept by every step of every goroutine |
| `BatchAsCompleted.MeasureFalls` | core/runnables/batch_as_completed.go:61-118 | every step lowers a nonnegative measure |
| `ParallelMap.EverySlotWrittenOnce` | core/runnables/parallel.go:58-93 | when the call returns each output and error slot has been written exactly once, by one party |
| `ParallelMap.ResultIsSequentialMap` | core/runnables/parallel.go:58-93 | uncancelled, every schedule gives the sequential map in input order; cancelled, each slot ran or holds the cause; there is no error exactly when every call ran and succeeded |
| `ParallelMap.FailuresInInputOrder` | core/runnables/parallel.go:93 | the joined errors are those of the slots that hold one, all of them, in input order |
| `ParallelMap.NoCallAfterCancel` | core/runnables/parallel.go:68-73 | once the context is cancelled a worker completes no further call, but for the one it was in |
| `ParallelMap.CausesNeedNoWorker` | core/runnables/parallel.go:78-88 | after a cancellation the caller alone can write the cause for every input not handed out yet, and changes no other slot |
| `ParallelMap.AtMostLimitInFlight` | core/runnables/parallel.go:66-76 | the pool has limit workers and at most that many calls are in flight |
| `ParallelMap.EveryScheduleEnds` | core/runnables/parallel.go:66-91 | no schedule has more than 3n + limit + 5 steps and one that cannot go on has returned with every worker gone |
| `ParallelMap.StepKeepsInv` | core/runnables/parallel.go:66-91 | every step keeps the invariant that a dispatched index is held by one worker or written, never both |
| `ParallelMap.MapInPlace` | core/runnables/parallel.go:47-57 | with one worker or one input the result is a prefix of the sequential map followed by the cause |
| `RecordManager.InMemoryRecordManager.Update` | core/indexing/indexing.go:59-81 | mismatched groups or a clock behind `timeAtLeast` leave the records unchanged; otherwise exactly the listed keys are stamped |
| `RecordManager.StampDistinct` | core/indexing/indexing.go:71-79 | stamping sets exactly the listed keys to their groups and the clock, and adds one record per key that had none |
| `RecordManager.InMemoryRecordManager.Exists` | core/indexing/indexing.go:83-92 | answers key by key whether the namespace holds a record |
| `RecordManager.InMemoryRecordManager.DeleteKeys` | core/indexing/indexing.go:94-102 | removes exactly the listed records |
| `RecordManager.InMemoryRecordManager.ListKeys` | core/indexing/indexing.go:104-125 | distinct matching keys, at most the limit, and all of them when fewer than the limit |
| `RecordManager.InMemoryRecordManager.NamespaceRoundTrip` | core/indexing/indexing.go:127-139 | prefixing and removing the namespace gives the key back |
| `RecordManager.InMemoryDocumentIndex.Upsert` | core/indexing/document_index.go:70-91 | items with IDs overwrite or extend the store in order and are reported in order; no document is lost |
| `RecordManager.InMemoryDocumentIndex.Delete` | core/indexing/document_index.go:95-114 | a nil list is an error; otherwise exactly the listed documents go and each existing one is reported once |
| `RecordManager.InMemoryDocumentIndex.Get` | core/indexing/document_index.go:117-127 | the stored documents among the IDs, in the order of the IDs |
| `RecordManager.RemovedIsTheLoss` | core/indexing/document_index.go:105-113 | the number of reported IDs is the number of documents the index lost |
| `RecordManager.RemovedMembers` | core/indexing/document_index.go:105-112 | an ID is reported exactly when it was asked for and stored |
| `RecordManager.GetAfterUpsert` | core/indexing/document_index.go:70-127 | getting what was upserted under distinct IDs gives the same documents in the order asked for |
| `Indexing.CollectBatch` | core/indexing/indexing.go:349-373 | the distinct keys of the batch with their first documents and source IDs; repeated documents are counted as skipped, sources are recorded as touched |
| `Indexing.WriteBatch` | core/indexing/indexing.go:381-402 | missing (or forced) documents are added before their keys are stamped; on failure, also between the two, no record has changed and no document is lost; each new key counts as added, each known one as updated if the update is forced and as skipped if not; the records grow by the added ones |
| `Indexing.CleanupKeys` | core/indexing/indexing.go:438-469 | the rounds terminate because the stale set shrinks; only stale records and documents go, on success all of them, and `deleted` counts each once |
| `Indexing.CleanupRound` | core/indexing/indexing.go:451-466 | one round removes the same keys from destination and records, destination first; a failure between the two leaves the records as they were |
| `Indexing.CommitBatch` | core/indexing/indexing.go:374-411 | the batch with its incremental cleanup continues a synchronised run; wherever it fails, every fresh record is backed by its document |
| `Indexing.IndexBatch` | core/indexing/indexing.go:337-411 | the same for a whole batch, with its counters |
| `Indexing.BatchAdvances` | core/indexing/indexing.go:395-409 | writing a batch and removing its groups' stale keys takes the two stores from one synchronised state to the next |
| `Indexing.CleanupKeepsBacked` | core/indexing/indexing.go:450-468 | a cleanup broken off at any point leaves each record stamped in this run with its document |
| `Indexing.FinishCleanup` | core/indexing/indexing.go:413-436 | full cleans every group, scoped_full the touched ones, the others nothing; success ends in the state `FinalScope` describes |
| `Indexing.UniqueStrings` | core/indexing/indexing.go:471-482 | the distinct non-empty values, each once |
| `IndexSpec.BatchKeepsRecords` | core/indexing/indexing.go:374-402 | stamping a batch keeps the records as the reference definition says |
| `IndexSpec.BatchKeepsStore` | core/indexing/indexing.go:381-399 | adding only missing documents keeps the destination as the reference definition says |
| `IndexSpec.RecordedIsStored` | core/indexing/indexing.go:383-386 | a skipped key's document is in the destination already, with the same content |
| `IndexSpec.CleanupKeepsSynced` | core/indexing/indexing.go:429-433 | removing the stale keys of some groups widens the cleaned scope by exactly those groups |
| `IndexSpec.EndStateIsDetermined` | core/indexing/indexing.go:337-469 | two end states from the same start and input have the same destination and, timestamps aside, the same records |
| `IndexSpec.IncrementalCleansLikeScopedFull` | core/indexing/indexing.go:403-433 | incremental and scoped_full end with the same scope cleaned |
| `IndexSpec.StoresAgree` | core/indexing/indexing.go:421-434 | equal key sets before mean equal key sets after: the input's keys and the old keys of groups that were not cleaned |
| `IndexRun.IndexDocuments` | core/indexing/indexing.go:210-243 | invalid options change nothing; success ends in the reference state, and every counter is determined: `NumAdded` is the number of keys without a record when their batch is reached, a forced run skips exactly the documents repeated within their own batch, any other run updates none, the sum is the input and the record count accounts for `NumDeleted`; a failing run leaves fresh records backed by documents |
| `IndexRun.IndexDocumentIterator` | core/indexing/indexing.go:245-304 | the buffered run over an iterator has the same outcome and counts as the run over a slice |
| `IndexRun.BatchSizeDoesNotMatter` | core/indexing/indexing.go:210-469 | two successful runs with any batch sizes, and incremental against scoped_full, end with the same destination and, timestamps aside, the same records |
| `IndexRun.RunKeepsAgreement` | core/indexing/indexing.go:395-434 | a successful run keeps the key sets of the stores equal; full leaves exactly the input's keys, none keeps all old keys as well |
| `IndexRun.RerunChangesNothing` | core/indexing/indexing.go:349-394 | a rerun without `ForceUpdate` keeps both stores and updates nothing; it adds and deletes nothing if and only if the input is settled |
| `IndexRun.NonIncrementalIsSettled` | core/indexing/indexing.go:403-409 | every input is settled for none, full and scoped_full |
| `IndexRun.GroupAcrossBatchesIsNotSettled` | core/indexing/indexing.go:403-409 | one group in two batches of an incremental run is not settled |
| `IndexRun.RecordedIffPresent` | core/indexing/indexing.go:377-386 | in mid-run a key has a record exactly when it was in the processed input or is an old key of a group not cleaned yet |
| `IndexRun.KnownIffSettled` | core/indexing/indexing.go:377-394 | after a run, what the next run will find recorded is decided by the input and the batch size alone |
| `IndexRun.KnownIffNoneAdded` | core/indexing/indexing.go:377-394 | a run adds nothing exactly when every key has a record when its batch is reached |
| `IndexRun.StillConsistent` | core/indexing/indexing.go:400-402 | a successful run leaves stores from which the next run may start |
| `IndexRun.CountsStep` | core/indexing/indexing.go:358-394 | after every batch added + updated + skipped is the number of documents seen, the record count has changed by added - deleted, added has grown by the keys without a record, and a forced run has skipped the repeats |
| `TextPieces.CutAtMatches` | textsplitters/textsplitter.go:305-339 | the loop over the matches yields the non-empty slices between the cuts of each keep mode |
| `TextPieces.SplitTextWithRegex` | textsplitters/textsplitter.go:288-340 | runes for the empty pattern, slices at the matches otherwise |
| `TextPieces.KeepingLosesNothing` | textsplitters/textsplitter.go:309-336 | with separators kept at either end the pieces concatenate to the text |
| `TextPieces.DroppingLosesOnlySeparators` | textsplitters/textsplitter.go:305-339 | with separators dropped, the pieces are the slices between the matches without the empty ones, and putting the matches back between those slices restores the text |
| `TextPieces.WeavingRestores` | textsplitters/textsplitter.go:323-338 | the slices the loop cuts with separators dropped, woven with the matches, are the text from the start of the first slice on |
| `TextMerge.WeavingIsJoining` | textsplitters/textsplitter.go:141-142 | for a literal separator that weaving is the join of the slices with the separator |
| `TextPieces.PiecesFacts` | textsplitters/textsplitter.go:288-340 | no piece is empty, and kept or rune pieces concatenate to the text |
| `TextMerge.MergeSplits` | textsplitters/textsplitter.go:107-139 | the chunks are the joined windows of the windowing relation, each trimmed and left out when empty; `total` is the window's joined length and an empty window is never popped |
| `TextMerge.ShrinkWindow` | textsplitters/textsplitter.go:119-126 | what is carried over is the longest tail within the overlap that leaves room for the next piece |
| `TextMerge.TotalIsJoinedLength` | textsplitters/textsplitter.go:111-135 | the running total is the length of the joined window |
| `TextMerge.WindowProperties` | textsplitters/textsplitter.go:107-139 | windows start in nondecreasing and end in strictly increasing order, leave no piece out, share at most `ChunkOverlap`, and are at most `ChunkSize` long unless one oversized piece |
| `TextMerge.WindowsAreDetermined` | textsplitters/textsplitter.go:107-139 | pieces, sizes and measure determine the windows |
| `RecursiveSplitter.Choose` | textsplitters/textsplitter.go:242-254 | the first separator that is empty or occurs in the text, with the later ones left; otherwise the last one, with none left |
| `RecursiveSplitter.SplitText` | textsplitters/textsplitter.go:241-286 | the recursion terminates; with separators kept the chunks are, each trimmed and left out when nothing remains, contiguous slices in order that cover the text and overlap at most `ChunkOverlap`; with a final empty separator every chunk is at most `ChunkSize`; in every keep mode they are what `SplitOf` says: the pieces under the first usable separator, each maximal run of short ones merged, each longer one kept whole or split by the later separators |
| `RecursiveSplitter.ChosenIsFirstUsable` | textsplitters/textsplitter.go:242-254 | a level works with the first usable separator, or with the last one if none is usable |
| `RecursiveSplitter.ShortPiecesAreMerged` | textsplitters/textsplitter.go:256-286 | if all pieces under the first usable separator are short, the chunks are the windows over exactly these pieces, cut nowhere else |
| `RecursiveSplitter.RunAppend` | textsplitters/textsplitter.go:265-286 | a run of short pieces between long ones adds the chunks of its own windows and nothing more |
| `RecursiveSplitter.Split` | textsplitters/textsplitter.go:205-229 | the same from the constructor's defaults and validation on; without stripping the chunks are those slices, and without overlap they concatenate to the text; with no separators given they are those of the default list, and a separator is kept at the start unless the end is asked for |
| `RecursiveSplitter.SplitOnCharacter` | textsplitters/textsplitter.go:174-186 | one level of pieces merged by windows; with separators kept the chunks account for all of the text, with separators dropped the pieces they join restore it once the separators are put back |
| `RecursiveSplitter.NoOverlapIsLossless` | textsplitters/textsplitter.go:241-286 | chunks that cover a text without overlap concatenate to it |
| `RecursiveSplitter.ChunkingAppend` | textsplitters/textsplitter.go:265-284 | chunkings of two texts make a chunking of their concatenation |
| `RecursiveSplitter.MergedIsChunking` | textsplitters/textsplitter.go:271-284 | the windows before trimming cover the concatenated pieces and share at most `ChunkOverlap` |
| `RecursiveSplitter.EmitIsStripped` | textsplitters/textsplitter.go:115-147 | the emitted chunks are the windows' texts, trimmed, and left out when nothing remains |
| `RecursiveSplitter.UnstrippedAccount` | textsplitters/textsplitter.go:141-147 | when nothing is stripped the chunks are the covering slices themselves |
| `RecursiveSplitter.MergedIsBounded` | textsplitters/textsplitter.go:107-139 | merging pieces shorter than `ChunkSize` gives chunks of at most `ChunkSize` |
| `ChainEvents.LogIsBracketed` | core/runnables/chain_events.go:61-145 | a run tree's log opens below the innermost open run and closes back to it exactly when every run names its starter as its parent |
| `ChainEvents.ProperIffHooksQuiet` | core/runnables/composition.go:25-36 | with the options each combinator hands on, every run names its starter exactly when no Passthrough hook called a runnable |
| `ChainEvents.SoundLogIffQuiet` | core/runnables/chain_events.go:61-145 | the log replays and opens no run twice exactly when no hook called a runnable with the options it received and no function body called two |
| `ChainEvents.DistinctCallsOnce` | core/runnables/chain_events.go:117-129 | distinct run IDs mean that no body called two runnables with the one ID minted for it |
| `ChainEvents.HookReusesRun` | core/runnables/composition.go:25-36 | a hook that calls a runnable with its options, run ID included, opens its own run twice, and the log does not replay |
| `ChainEvents.HookLosesAncestor` | core/runnables/composition.go:28-29 | without a run ID in the options the inner run resolves to the chain of its starter, without the starter |
| `ChainEvents.BodyOpensTwice` | core/runnables/chain_events.go:117-129 | a body that calls two runnables with its options opens the minted ID twice, though the log replays |
| `ChainEvents.EachRunOpensAndClosesOnce` | core/runnables/chain_events.go:61-145 | with distinct IDs and proper parents every run opens once and closes once |
| `ChainEvents.OpensMatchCloses` | core/runnables/chain_events.go:132-145 | in every log that replays, what was open or opened is what was closed or is still open |
| `ChainEvents.ParentIDRegistry.Resolve` | core/runnables/eventstream.go:300-320 | the cached or extended chain, nil for a root run, with the cache extended as the code does |
| `ChainEvents.ProjectAll` | core/runnables/eventstream.go:254-256 | the projector resolves every event in order on one registry |
| `ChainEvents.ResolveRebuildsAncestors` | core/runnables/eventstream.go:300-320 | replaying a bracketed log with fresh IDs gives every event exactly the runs open around its own run, root first |
| `ChainEvents.TreeChains` | core/runnables/eventstream.go:300-320 | the same for the log of any such run tree and an empty registry |
| `Combinators.InvokeAndProject` | core/runnables/chain_events.go:61-145 | for any combinator tree and any outcomes, one `Invoke` emits a log that is bracketed iff no executed Passthrough hook called a runnable with its options, and that also opens no run twice iff moreover no body called two; then every run opens and closes once and `resolve` gives every event its ancestor chain; always the root closes with an end event iff the call succeeds |
| `Combinators.Invoke` | core/runnables/chain_events.go:67-90 | the caller's run ID or a minted one becomes the run; the events are the log of one run tree, with fresh IDs, that the combinator may execute |
| `Combinators.InvokeChild` | core/runnables/chain_events.go:95-103 | a child's parent is the run and its ID is freshly minted |
| `Combinators.InvokeFunc` | core/runnables/runnable.go:197-206 | the body gets one minted ID, used or not, below the Func run; each of its calls runs under that ID; the run succeeds as the body decides |
| `Combinators.InvokePassthrough` | core/runnables/composition.go:25-36 | the hook gets the options of the Passthrough itself, so each of its calls has the Passthrough's parent and, if given, its run ID |
| `Combinators.InvokePick` | core/runnables/combinators.go:126-143 | one child, then the selection decides |
| `Combinators.InvokeSeqN` | core/runnables/pipe.go:142-163 | the steps in order up to the first failure, then the type assertion |
| `Combinators.InvokeBranch` | core/runnables/composition.go:168-196 | conditions in order until one fails or holds; then its runnable, or the default |
| `Combinators.InvokeWithFallbacks` | core/runnables/composition.go:287-309 | attempts in order until one succeeds or fails with an error that is not handled |
| `Combinators.InvokeAssign` | core/runnables/composition.go:89-102 | each field once, in any map order, up to the first failure |
| `Combinators.InvokeRetry` | core/retry/retry.go:22-47 | attempts while the context is live, the policy retries and the maximum is not reached; the result is that of the last attempt |
| `Combinators.InvokeRouter` | core/runnables/advanced.go:148-165 | an unknown key fails without a child, otherwise the selected runnable decides |
| `Streams.SliceStream.Next` | core/runnables/runnable.go:268-276 | delivers the values in order, then the end |
| `Streams.StagedStream.Next` | core/runnables/pipe.go:327-355 | delivers the next value of the flat map, skipping empty inner streams |
| `Streams.StagedStream.OpenNext` | core/runnables/pipe.go:340-353 | pulls one value of the stage before and opens the stream made of it; nothing is delivered or lost |
| `Streams.StreamSequence` | core/runnables/pipe.go:197-216 | no steps is an error; otherwise the stream holds the N-fold flat map |
| `Streams.StreamAndDrain` | core/runnables/pipe.go:327-355 | draining the stream of any sequence yields the flat map of its steps in order |
| `Streams.NestedPipesAreFlat` | core/runnables/pipe.go:36-50 | nested pipes stream the same values as the flat pipe |
| `Streams.InvokeSequence` | core/runnables/pipe.go:142-163 | each step made the next value of a trace that starts with the input; the result is the last value if all steps ran and its type fits; otherwise some step failed on the last value of the trace or the type does not fit |
| `Streams.StreamAgreesWithInvoke` | core/runnables/pipe.go:142-216 | for single-value steps the one streamed value is the invoked one |
| `Streams.PipelineAppend` | core/runnables/pipe.go:197-216 | streaming through two lists of steps is streaming through their concatenation |
| `RoundRobin.ParallelStream.Next` | core/runnables/advanced.go:572-592 | the item in turn delivers; exhausted items met on the way are closed and cut out of the slice |
| `RoundRobin.ParallelStream.CutOut` | core/runnables/advanced.go:579-586 | cutting an item out leaves the others and the turn as they were |
| `RoundRobin.DrainParallel` | core/runnables/advanced.go:572-592 | pulling to the end delivers round after round |
| `RoundRobin.DrainedIsRounds` | core/runnables/advanced.go:572-592 | the in-place rotation equals whole rounds in which each live key delivers one value |
| `RoundRobin.DrainedIsRest` | core/runnables/advanced.go:572-592 | the same from the middle of a round |
| `RoundRobin.RoundOfKey` | core/runnables/advanced.go:572-592 | a round takes exactly the first value of every key that has one |
| `RoundRobin.EveryValueOnceInOrder` | core/runnables/advanced.go:572-592 | each key's values come out once each and in order |
| `RoundRobin.OthersOnceBetween` | core/runnables/advanced.go:572-592 | between two consecutive values of one key every other key delivers exactly one value, unless it has none left |
| `JsonPointer.TokenRoundTrip` | core/outputparser/transform.go:208-211 | any key with any "~" and "/" survives escaping |
| `JsonPointer.PointerOfJoin` | core/outputparser/transform.go:208-211 | joining a key to a path appends exactly one reference token |
| `JsonPatch.MakeJSONPatch` | core/outputparser/transform.go:164-168 | for every map order, applying the patch to the previous value gives the next one iff no value went from non-null to null; otherwise it gives the next value without those members, or at the root cannot be applied; there is exactly one operation for each changed place (different there, not objects on both sides, objects on both sides above), it is the fitting add, remove or replace, no path occurs twice, and equal values give no operation |
| `JsonPatch.BuildPatch` | core/outputparser/transform.go:170-199 | below any path of any document the operations change that place from the previous to the next value and nothing else, one operation for each changed place |
| `JsonPatch.BuildObjectPatch` | core/outputparser/transform.go:179-194 | the two loops take an object to the next one, members in any order, and emit one operation for each changed place below them |
| `JsonPatch.DiffIsMinimal` | core/outputparser/transform.go:170-199 | in such a diff no two operations have the same path, and it is empty exactly for equal values |
| `JsonPatch.ChangedBelowBoth` | core/outputparser/transform.go:181-187 | the changed places below a member of both objects are those between the two members |
| `JsonPatch.ChangedBelowOne` | core/outputparser/transform.go:182-192 | of a member only one object has, the member itself is the one changed place |
| `JsonPatch.UnchangedIsEqual` | core/outputparser/transform.go:196-198 | values without a changed place are equal |
| `JsonPatch.PrunedIffClean` | core/outputparser/transform.go:175-178 | nothing is lost exactly when no value went from non-null to null |
| `JsonPatch.NullMemberIsLost` | core/outputparser/transform.go:175-178 | a member that becomes null disappears |
| `JsonPatch.TransformValues` | core/outputparser/transform.go:43-67 | the values emitted are the parses of growing prefixes, no two neighbours equal and the first not null, and every prefix passed over does not parse or repeats the value in force |
| `JsonPatch.SameEmissions` | core/outputparser/transform.go:43-67 | no other values fit that description of a run |
| `JsonPatch.TransformDiffs` | core/outputparser/transform.go:43-67 | one patch per emitted value, the diff from the one before; applied in turn from null they rebuild every value iff no step takes a value to null |
| `PartialJson.Complete` | core/outputparser/transform.go:118-160 | rejects exactly the texts with a closer that does not match; otherwise trims, closes an open string and appends the closers, innermost first |
| `PartialJson.RejectionIsFinal` | core/outputparser/transform.go:118-160 | every prefix of an accepted text is accepted |
| `PartialJson.TrimmingKeepsOpen` | core/outputparser/transform.go:151-152 | trimming blanks and commas changes no open bracket and no open string |
| `PartialJson.CompletionIsBalancedIff` | core/outputparser/transform.go:151-159 | the output scans with every string closed and every bracket matched iff the trimmed text does not end in an unfinished escape |
| `PartialJson.UnfinishedEscapeIsNotClosed` | core/outputparser/transform.go:151-159 | a string cut off after its backslash is such a text |
| `JsonSplit.SplitJSON` | textsplitters/json.go:32-43 | for every map order and size function each leaf of the data lies in exactly one chunk, the deep merge of the chunks is the data, and every chunk but the last has reached `MinChunkSize`; the chunks are what replaying the reached members gives, and each was written whole exactly when it fitted what `MaxChunkSize` left of the newest chunk or is a leaf, and opened a chunk exactly when it did not fit one of at least `MinChunkSize` |
| `JsonSplit.SplitInto` | textsplitters/json.go:82-103 | the recursion adds below the path exactly the leaves of the value, each to one chunk; earlier chunks stay as they are; a member is reached exactly if its parent was not written whole, and none twice |
| `JsonSplit.PlaceMember` | textsplitters/json.go:85-97 | one member goes whole into the newest chunk if it fits the maximum, and is split further otherwise, into a new chunk exactly if the newest has reached `MinChunkSize` |
| `JsonSplit.DecidedAt` | textsplitters/json.go:85-96 | each reached member was decided by size and maximum on the newest chunk as the earlier ones had left it |
| `JsonSplit.ReplayAppend` | textsplitters/json.go:82-103 | decisions and their effect compose along the order in which members are reached |
| `JsonSplit.PartedWalk` | textsplitters/json.go:82-98 | parting a member reaches its own members, once each, and no others |
| `JsonSplit.SetNestedLeaves` | textsplitters/json.go:113-124 | writing at a path no leaf is comparable with adds exactly the value's leaves there |
| `JsonSplit.LeavesPrefixFree` | textsplitters/json.go:82-103 | no leaf path is a prefix of another |
| `JsonSplit.WriteLast` | textsplitters/json.go:88-92 | a write into the newest chunk keeps the chunks' leaves apart |
| `JsonSplit.MergeLeaves` | textsplitters/json.go:32-43 | merging objects with unrelated leaves keeps exactly the leaves of both |
| `JsonSplit.LeavesDetermine` | textsplitters/json.go:32-43 | objects with the same leaves are equal |
| `JsonSplit.MergeIsData` | textsplitters/json.go:32-43 | chunks that share the data's leaves out between them merge to the data |
| `RateLimiter.InMemoryRateLimiter.TryConsume` | core/ratelimiters/ratelimiters.go:61-82 | one call refills, clips and spends as the specification step does |
| `RateLimiter.ConsumeSpendsCredit` | core/ratelimiters/ratelimiters.go:61-82 | one call keeps the bucket between empty and full, spends only what was there or has accrued, and leaves less than the bucket plus one token to spend |
| `RateLimiter.WindowBound` | core/ratelimiters/ratelimiters.go:61-82 | in every window of calls fewer are granted than `MaxBucketSize` + 1 + `RequestsPerSecond` times its length |
| `RateLimiter.RunBound` | core/ratelimiters/ratelimiters.go:61-82 | grants plus available tokens never exceed `RequestsPerSecond` times the time from the first call to the last refill |
| `RateLimiter.GrantsArePaid` | core/ratelimiters/ratelimiters.go:61-82 | what is granted is paid for by the tokens there and those accrued since |
| `RateLimiter.GrantedIff` | core/ratelimiters/ratelimiters.go:71-81 | a call is granted exactly when a token is there or one token's time has passed since the last refill |
| `GraphLayers.Layering.Compute` | core/runnables/graph_ascii.go:207-225 | the search terminates on every graph, leaves `visiting` as it found it, and keeps the layers those of its finishing order |
| `GraphLayers.CollectIncoming` | core/runnables/graph_ascii.go:201-204 | the sources of every node, in edge order |
| `GraphLayers.AsciiLayers` | core/runnables/graph_ascii.go:200-230 | every node of every graph gets a layer; on an acyclic graph it is the longest path ending there; an edge not on a cycle goes strictly down |
| `GraphLayers.LayersAreLongestPaths` | core/runnables/graph_ascii.go:198-230 | on an acyclic graph the layer is the length of the longest path that ends at the node |
| `GraphLayers.EdgesGoDown` | core/runnables/graph_ascii.go:211-223 | every edge's target is below the top layer, and below its source unless they lie on a cycle |
| `GraphRouting.DrawASCII` | core/runnables/graph_ascii.go:33-193 | every node has a box, self-loops and unknown ends are skipped, and on an acyclic graph a drawn line meets a box only at an end of an edge of that box; the cells drawn are exactly those of the lines of the edges that are not skipped, in their order, and the layout satisfies the placement rules |
| `GraphRouting.LinesConnectEnds` | core/runnables/graph_ascii.go:155-188 | the lines of an edge join up from the bottom of its source to the top of its target, or to the target's bottom if the edge does not go down |
| `GraphRouting.PlaceAll` | core/runnables/graph_ascii.go:68-142 | layers, boxes, channel rows and margin columns satisfy the placement rules together |
| `GraphRouting.CollectCrossing` | core/runnables/graph_ascii.go:70-90 | each gap lists, in edge order, the edges that cross it |
| `GraphRouting.StackLayers` | core/runnables/graph_ascii.go:91-100 | each layer starts below the gap of the one before, with a row per crossing edge |
| `GraphRouting.PlaceBoxes` | core/runnables/graph_ascii.go:102-122 | each box stands after the earlier members of its layer, and no layer reaches beyond maxRight |
| `GraphRouting.AssignRows` | core/runnables/graph_ascii.go:124-133 | each crossing edge has a row in its gap |
| `GraphRouting.AssignColumns` | core/runnables/graph_ascii.go:135-144 | each detouring edge has its own column, two right of every box and of every other such column |
| `GraphRouting.BoxesAreDisjoint` | core/runnables/graph_ascii.go:96-122 | boxes of different nodes share no cell |
| `GraphRouting.RowsAreDistinct` | core/runnables/graph_ascii.go:124-133 | two edges never share a channel row |
| `GraphRouting.RoutesStayInChannels` | core/runnables/graph_ascii.go:161-181 | a downward edge's lines stay in gap rows and the right margin but for their two ends |
| `GraphRouting.RoutesTouchOnlyTheirEnds` | core/runnables/graph_ascii.go:161-181 | they touch a box only on the bottom border of their own source or the top border of their own target |
| `GraphRouting.AcyclicDrawingTouchesOnlyEnds` | core/runnables/graph_ascii.go:146-189 | on an acyclic graph, layered by the search, that holds for everything drawn |
| `GraphRouting.DrawEdges` | core/runnables/graph_ascii.go:146-189 | the cells drawn are exactly those of the edges' lines, and where lines meet the later edge's mark shows |
| `GraphRouting.Canvas.DrawLine` | core/runnables/graph_ascii.go:255-286 | on a horizontal or vertical line exactly its cells are marked and no other cell changes |

## Left out

- Arguments the constructors reject because a runnable, a record manager or a destination is nil, and every I/O, network, SQL and third-party parsing component.
- `BatchAsCompleted`: the result of an invocation is one abstract value, so an output next to an error is not told apart; `childOptions` naming is not modelled. That a user's call returns is assumed.
- `Batch` of the combinators, and `Each`, whose children's events interleave; `Bind`, `Sequence`, `ConfigurableAlternatives` and configurable fields, which shift run IDs without opening a run.
- Bodies and hooks that change the options they pass on, or call runnables from several goroutines. Calls without callbacks emit nothing and are not modelled.
- The values that flow through combinators in the event model, which error a failing run carries (`WithFallbacks` keeps the first), names, tags, metadata, timestamps, handler errors, and the stream forms of the combinators in the event log (`chainStream`).
- Streams.StagedStream.Next: no stream errors, close errors or contexts, since streams here only deliver values and end; nor the type assertions of erased stages.
- Streams.StagedStream.OpenNext: `makeNext` is a function from a value to the values its stream will deliver, so it does not fail.
- Streams.StreamSequence: for the same reason a first step that fails to open its stream is not modelled.
- RoundRobin.ParallelStream.Next: no stream or close errors either.
- Vector store destinations, `UpsertKwargs`, `Failed` lists and the SQL record manager: the destination is the in-memory document index, which may in addition stop after any number of documents.
- RecordManager.InMemoryDocumentIndex.Upsert: the contract for items without an ID only says that no document is lost, because generated IDs are arbitrary; an indexing run always sets the ID. `GetRelevantDocuments` is not modelled.
- Hash algorithms and cloning of metadata: the key encoder is abstract, with `EncoderLaw` as its only property. Clocks that run backwards are outside the model; so is a record stamped at the very instant a run starts, which `Consistent` excludes.
- IndexRun.IndexDocuments: nothing is promised about which documents a failing run has added, only that stamped records have theirs.
- `CreateDocuments` and `SplitDocuments` with `start_index`, the lookaround search and the regular expression engine (matches are a parameter), byte offsets inside a rune, and the Markdown, HTML and token splitters.
- RecursiveSplitter.SplitText: with separators dropped, which `NewRecursiveCharacter` never does, no covering is claimed for the recursion; what one level drops is stated by `DroppingLosesOnlySeparators` for its pieces.
- `stripJSONFence` and `decodeJSON`: parsing is a parameter of `TransformValues` and `TransformDiffs`. `cloneJSONValue` has no counterpart, since JSON values are immutable here.
- `Transform` stopping at a cancelled context or a parser error.
- The encoding of patches: `Value` is left out of the JSON text when it is null (`core/outputparser/transform.go:16`), so an add of a new null member is encoded without the value section 4 of RFC 6902 requires. The round trips are about operations in memory.
- The choice of the limit and of the path without goroutines in `ParallelMap`: the limit is any number, and both paths are modelled.
- Patch targets inside arrays: the diff replaces arrays whole, so only object members are addressed; of RFC 6902 only add, remove and replace are applied.
- JSON numbers and encoding: a number is an abstract scalar, `jsonSize` is any function. `setNested` is modelled on values, so two chunks sharing a nested map by reference is not captured; `listToDict` is not modelled.
- `Acquire` in `core/ratelimiters/ratelimiters.go:47-66`: the polling loop around one call, its ticker and the mutex. Floating-point rounding of tokens.
- GraphRouting.RoutesStayInChannels: only downward edges; an edge on a cycle that does not go down is drawn as the code draws it, best effort, and may cross boxes. Sloped lines round to the nearest cell in exact arithmetic and are never drawn by the routes.
- JsonSplit.SplitJSON: `MaxChunkSize` decides every write, but no chunk size is bounded by it, since the code measures a member without its path and writes a leaf that does not fit all the same. The defaults of `NewRecursiveJSON` are not modelled.
- GraphRouting.Canvas.DrawLine: nothing is promised of sloped lines.
- GraphRouting.DrawASCII: the boxes and names drawn over the lines, the final text and its trimmed rows.
- Sorting nodes and edges by ID before drawing; Mermaid, YAML and PNG output.
