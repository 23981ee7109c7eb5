# Verified model of the knowledge-agent backend

This project models the parts of the backend whose correctness is decided by the code itself, and proves what they promise
for all inputs and all runs. Where the source changes state step by step, the model is a class or a method with loops, and
each method is proved to take exactly the step of a specification function; the promises are then proved about that function,
over single calls and over whole runs. The `Effects` files and `EventBusDelivery` tell what a step leaves behind by the rows,
queues and texts alone, without the step. `dafny verify dfyconfig.toml` checks everything.

| files | component |
|---|---|
| `DslSchema`, `Acyclicity`, `DslValidation`, `DslGate` | the strict and the loose gate for workflow graphs, with Kahn's algorithm |
| `LifecycleSpec`, `LifecycleRuns`, `LifecycleEffects`, `Lifecycle` | draft, publication, version rows, rollback, executions |
| `EventBusSpec`, `EventBusStreams`, `EventBusDelivery`, `EventBus` | the per-execution event bus as atomic steps over bounded queues |
| `DepartmentSpec`, `DepartmentForest`, `DepartmentRuns`, `DepartmentEffects`, `Departments` | the department hierarchy, its nested listing, and access |
| `PromptSpec`, `Prompt`, `Citations` | template markers, budgets, numbered labels and the scanner that reads them back |
| `ExportSpec`, `ExportLemmas`, `ExportRoundTrip`, `ExportExact`, `ExportCodec`, `Export` | the `.oka` archive and its import |
| `ChunkText`, `ChunkSpec`, `ChunkEffects`, `Chunks` | chunk preview, split, merge and edit |
| `Sandbox` | the framing of a program's outputs inside its standard output |
| `FeedbackSpec`, `FeedbackEffects`, `Feedback` | message feedback, its event log, and the counts a rebuild derives |
| `Engine`, `Routing` | the first-match cascade with its lazy classifier, and fallback routing |
| `CacheSpec`, `CacheRuns`, `RulesCache` | the bounded rules cache against the unbounded map |
| `Wrappers`, `Sequences`, `Sorting`, `Text` | shared vocabulary |

Tables are maps or sequences of rows, fresh UUIDs are consecutive numbers, exceptions are `Result` values. The JSON codec, the
text of ids, UUID parsing, the regex class `\w`, the zero-cost matchers, the LLM classifier and the handlers are parameters:
function values with explicitly stated assumptions (`CodecOk`, `WordClass`, `OneLine`), so every theorem holds for each of them.
Unbounded integers are the source's own.

## What the proofs found

- Governance rebuild (`FeedbackSpec.RebuildIsRightIff`, `FlippedVote`). The log itself always agrees with the stored votes, but the
  rebuild job cancels reverse events against positive votes first. Its two counts are right exactly unless a vote was given on
  top of a stored 0, or a negative vote was taken back while a positive one stands: a dislike turned into a like is rebuilt as
  a dislike. If callers clear with `null` and never with 0, at least the sum is right (`ClearingWithNull`).
- Chunk history (`ChunkSpec.HistoryIsCompleteIff`, `SecondEditForgets`). `edit_chunk` appends to the loaded history list in place and
  assigns the same list back. The column is a plain JSON column, so the ORM compares the list with itself and writes nothing
  unless the history was empty. Only the first edit of a chunk without a history is ever stored, and no edit of the pieces of a
  split or of a merge; the object returned by the call shows the full history nevertheless.
- Export (`ExportExact.RoundTripIff`, `ImportSucceedsIff`). A document titled `meta.json` shares an archive name with its own metadata.
  The round trip is exact iff the file of every such document parses as that document's record, up to a reference to a folder
  outside the knowledge base. Imported chunks are always of unit type `document`, although the archive records the type, and
  never excluded from review, which the archive does not record.
- Sandbox (`Sandbox.TextSurvivesIff`). Outputs always survive, sentinels printed by the program included. The program's text comes
  back exactly when it breaks lines only with line feeds and no line starts with the sentinel.
- Event bus. A critical publish that is suspended when the bus closes delivers its event behind the sentinel, where `stream()`
  never looks, and a full queue loses the sentinel (`EventBusStreams.TheCloseLosesBoth`, `BehindTheSentinel`, `CloseDecides`);
  `StreamIsExact` and `LateSubscriber` state when the stream is whole.
- Rules cache. The header comment speaks of LRU, the code evicts first-in-first-out (`CacheSpec.PutEvictsTheOldest`); the model
  follows the code. `YoungEntriesStay` says what that guarantees.
- Workflow gate. The docstring promises `DSLValidationError` for any issue; malformed shapes raise pydantic's own error, kept
  apart here as `ShapeError`. Duplicate block ids are never checked directly: they surface as a cycle (`DslGate.ParseAccepts`
  shows that they are nevertheless always refused).
- Routing. `fallback_next` stops after five attempts, so the sixth matching rule is never tried; `Routing.BoundBitesIff` says exactly
  when that changes the outcome, and `SixRulesExist` gives a request where it does.

## Model

| member | source | states |
|---|---|---|
| DslValidation.AssertAcyclic | app/workflow/dsl.py:89-109 | Kahn over the in-degree map and queue returns normally iff node ids are distinct and no edge cycle exists; the pop order has every source before its targets, no node twice, and every node on success |
| DslValidation.CountDegrees | app/workflow/dsl.py:90-99 | after counting, each in-degree is the number of in-edges (parallel edges and self-loops counted) and each adjacency list holds that node's targets |
| DslValidation.Relax | app/workflow/dsl.py:101-108 | popping one node leaves every in-degree equal to the in-edges from unpopped sources, and the queue holds exactly the unpopped nodes of in-degree 0 |
| Acyclicity.SourcesFirstIsAcyclic | app/workflow/dsl.py:89-109 | an order with every edge's source before its target rules out all cycles |
| Acyclicity.StuckIsCyclic | app/workflow/dsl.py:105-109 | a non-empty set in which every node has a predecessor contains a cycle, so stopping early is always justified |
| DslValidation.Verdict | app/workflow/dsl.py:105-109 | comparing the popped count with the length of the node list decides both distinctness and acyclicity |
| DslGate.ValidateStructure | app/workflow/dsl.py:112-146 | returns the first fault in the code's order, and none iff the graph is well structured |
| DslGate.ValidateBlocks | app/workflow/dsl.py:135-146 | the first top-level compound node with an unknown block edge, a cycle or repeated block ids is reported |
| DslGate.ParseDsl | app/workflow/dsl.py:149-160 | accepts a value iff it is absent, empty, without nodes, or well structured |
| DslGate.ParseAccepts | app/workflow/dsl.py:105-160 | acceptance is exactly: distinct ids, known endpoints, one start, no cycle, and per compound node known, distinct, acyclic blocks; the graph is handed on unchanged |
| DslGate.LooseIsWeaker | app/workflow/dsl.py:163-171 | the draft gate accepts whatever the strict one does with the same result, and exactly the ill-structured shaped graphs besides |
| LifecycleSpec.StepKeepsInv | app/workflow/service.py:45-171 | create, update, publish, revert, rollback, delete and create_execution all keep the publication, window and execution invariants |
| LifecycleSpec.RunKeepsInv | app/workflow/service.py:45-171 | so does every run from the empty database |
| LifecycleRuns.PublishedIsRunnable | app/workflow/service.py:123-149 | in every reachable state the published graph is absent with version 0, or present with version at least 1, accepted by the strict gate and with two nodes or more |
| LifecycleSpec.PublishWindow | app/workflow/service.py:140-171 | publishing moves the retained version rows on by one and touches no other workflow's rows |
| LifecycleRuns.VersionWindow | app/workflow/service.py:158-171 | after any run the rows are exactly the last fifty versions and the newest equals the published graph |
| LifecycleRuns.RollbackThenPublish | app/workflow/version_service.py:42-53 | any retained version can be rolled back to and published again, always succeeding, as version v+1 with that graph, without touching what is published in between |
| LifecycleRuns.ZeroMarksDraftRuns | app/workflow/execution_service.py:44-51 | a new execution has version 0 iff it was started from the draft |
| LifecycleRuns.NonDraftRunParses | app/workflow/execution_service.py:65-72 | whatever happens to the workflow afterwards, the strict gate accepts the graph source of every non-draft execution |
| LifecycleRuns.OnlyPublishChangesPublished | app/workflow/service.py:100-156 | over any run without a publish of that workflow, its published graph and version stay as they were |
| LifecycleRuns.VersionRowsAreImmutable | app/workflow/service.py:123-171 | a version row that exists before and after any run holds the same graph |
| LifecycleEffects.SavedIsTheDraft | app/workflow/service.py:100-149 | after a save of a graph and any run that neither saves another, rolls back nor deletes, a draft run executes exactly that graph, and a publish succeeds iff it is runnable and then publishes exactly that graph |
| LifecycleEffects.PublishedIsWhatRuns | app/workflow/execution_service.py:60-72 | until the next publish, whatever else happens, every execution of the workflow that is not a draft run executes the graph that was the draft when it was published |
| LifecycleEffects.CreateStores | app/workflow/service.py:45-72 | refused iff misshapen; otherwise one new row under a fresh id: the given name, version 0, draft, unpublished, and the given graph, or a lone start node if that has no node |
| LifecycleEffects.UpdateStores | app/workflow/service.py:100-116 | succeeds iff the workflow exists and the graph is not misshapen; the row has the graph and the name given, or the old ones where none is given; status, version and publication stay, and nothing else changes |
| LifecycleEffects.PublishSucceedsIff | app/workflow/service.py:123-149 | in every state that keeps the invariants, publishing succeeds iff the workflow exists and its draft is well structured with two nodes or more; the first fault otherwise, and nothing changes |
| LifecycleEffects.PublishStores | app/workflow/service.py:123-149 | the draft becomes the publication and the row of the next version, and no other workflow and no execution changes |
| LifecycleEffects.RollbackStores | app/workflow/version_service.py:42-53 | succeeds iff the version row is there; its graph becomes the draft, the status is draft, publication and version stay, and nothing else changes |
| LifecycleEffects.DeleteStores | app/workflow/service.py:118-121 | exactly the workflow, its version rows and its executions are gone |
| LifecycleEffects.ExecutionStores | app/workflow/execution_service.py:29-58 | refused iff there is no workflow, or no publication and no draft run is asked for; otherwise one new row with the workflow and its current version, or 0 for a draft run |
| Lifecycle.WorkflowService.Create | app/workflow/service.py:45-72 | takes the specified step: loose gate, seed graph when there is no node, draft with version 0 |
| Lifecycle.WorkflowService.Update | app/workflow/service.py:100-116 | takes the specified step, whose effect is `LifecycleEffects.UpdateStores`: the given graph and name are stored, status and publication kept |
| Lifecycle.WorkflowService.Publish | app/workflow/service.py:123-149 | takes the specified step: strict gate, two nodes, unique version row, prune |
| Lifecycle.WorkflowService.PruneOldVersions | app/workflow/service.py:158-171 | removes exactly the rows that have at least `keep` newer rows of the same workflow |
| Lifecycle.WorkflowService.RollbackToDraft | app/workflow/version_service.py:42-53 | takes the specified step: draft graph replaced by the row, status draft, publication untouched |
| Lifecycle.WorkflowService.Delete | app/workflow/service.py:118-121 | takes the specified step: the workflow goes with its version rows and executions |
| Lifecycle.WorkflowService.CreateExecution | app/workflow/execution_service.py:29-58 | takes the specified step: refused without a publication unless from the draft; version 0 or the current one |
| Lifecycle.WorkflowService.LoadGraph | app/workflow/execution_service.py:60-72 | parses the draft for version 0 and the published graph otherwise; under the invariant the latter never fails and has two nodes |
| EventBusSpec.StepKeepsInv | app/workflow/events.py:60-113 | every atomic step of subscribe, publish, deliver, drop, close and consume keeps the bus invariant |
| EventBusStreams.StreamsAreOrdered | app/workflow/events.py:60-113 | in every interleaving each subscriber's stream is an order-preserving, duplicate-free selection of the published events |
| EventBusStreams.HistoryIsTheTail | app/workflow/events.py:78-98 | the history is always the last min(n, history_max) published events |
| EventBusStreams.OpenStreamIsExact | app/workflow/events.py:60-98 | while the bus is open, a subscriber that lost nothing has the history retained when it subscribed followed by everything since, up to one event still on its way |
| EventBusStreams.StreamIsExact | app/workflow/events.py:60-113 | a subscriber that lost nothing and has room for the sentinel streams exactly the retained history followed by every later event before the close, but for one critical event still on its way then, and no later step changes that |
| EventBusStreams.CloseSettles | app/workflow/events.py:100-113 | a sentinel that fits settles the stream for ever |
| EventBusStreams.CloseDecides | app/workflow/events.py:100-113 | one close gives a subscriber a sentinel iff its queue has room then; otherwise its reader never finishes |
| EventBusStreams.UnfilledStreamIsExact | app/workflow/events.py:60-113 | the stream is exact for a subscriber whose queue has never been at capacity before the close |
| EventBusStreams.TheCloseLosesBoth | app/workflow/events.py:85-106 | a reachable run with a suspended critical publish at the close: whatever follows, one reader never finishes and the other's stream lacks the event |
| EventBusStreams.BehindTheSentinel | app/workflow/events.py:85-113 | in that run the event does arrive, behind the sentinel and after the reader has left |
| EventBusStreams.LateSubscriber | app/workflow/events.py:60-76 | a subscriber arriving after the close gets the sentinel iff the history is shorter than the queue capacity (or the queue is unbounded) |
| EventBusStreams.DrainingReachesTheEnd | app/workflow/events.py:108-113 | once the sentinel is queued, reading on ends after at most the queue's length with the whole stream received |
| EventBusDelivery.CriticalArrives | app/workflow/events.py:78-98 | in every interleaving without a timeout or a close, a critical event published on an open bus is in the stream of every subscriber there is at that moment, unless the publisher has still to get there |
| EventBusDelivery.PublishCompletes | app/workflow/events.py:85-98 | a publish on an open bus is never stuck: if the readers read it ends without a timeout, within three steps per subscriber |
| EventBusDelivery.WakeDelivers | app/workflow/events.py:88-93 | a waiting put with room goes through, on an open bus or a closed one: the queue grows by the event and nothing is lost, the stream grows by it if it has not ended, the publisher moves on, and no other subscriber changes |
| EventBusDelivery.TimeoutDrops | app/workflow/events.py:88-96 | a waiting put that times out loses the event for that subscriber alone, and the publisher moves on |
| EventBusDelivery.OfferDecides | app/workflow/events.py:85-98 | with room the event is put; on a full queue workflow_start, workflow_end and node_error wait and every other kind is dropped |
| EventBusDelivery.BeginReachesAll | app/workflow/events.py:78-85 | the event joins the log and the bounded history, and the publisher goes on to every subscriber there is, in order, or to none on a closed bus |
| EventBusDelivery.CloseEnds | app/workflow/events.py:100-106 | every queue with room gets the sentinel at its end, full queues stay as they are, and no stream changes |
| EventBusDelivery.SubscribeReplays | app/workflow/events.py:60-76 | a new queue holds the retained history as far as it fits, then the sentinel if the bus is closed and there is room |
| EventBuses.EventBus.Replay | app/workflow/events.py:60-76 | copies the history in order until the queue is full |
| EventBuses.EventBus.Subscribe | app/workflow/events.py:60-76 | takes the subscribe step on the real queues |
| EventBuses.EventBus.BeginPublish | app/workflow/events.py:78-85 | takes the begin step: append to the bounded history, snapshot the subscribers |
| EventBuses.EventBus.OfferNext | app/workflow/events.py:85-98 | takes one delivery step: put, drop a non-critical event on a full queue, or wait with a critical one |
| EventBuses.EventBus.Resume | app/workflow/events.py:85-98 | takes the step of a waiting critical put that finds room, whose effect is `EventBusDelivery.WakeDelivers` |
| EventBuses.EventBus.GiveUp | app/workflow/events.py:85-98 | takes the step of a waiting critical put that times out |
| EventBuses.EventBus.Close | app/workflow/events.py:100-106 | takes the close step: a sentinel for every queue with room, dropped otherwise |
| EventBuses.EventBus.Consume | app/workflow/events.py:108-113 | takes the consume step: yield an event or stop at the sentinel |
| EventBuses.EventBus.PublishNonCritical | app/workflow/events.py:78-98 | a non-critical publish runs to its end without suspending and is the run of one begin and one offer per subscriber |
| DepartmentRuns.StepKeepsInv | app/department/service.py:18-54 | create, rename, delete, membership and sharing keep the table a forest with consistent foreign keys |
| DepartmentRuns.RunKeepsInv | app/department/service.py:18-54 | so does every run from the empty database |
| DepartmentForest.ForestLosesNothing | app/department/service.py:56-89 | the nested listing of a forest holds every department exactly once, each under its own parent, with top-level entries having none |
| DepartmentForest.CountsAddUp | app/department/service.py:56-89 | its member counts add up to the number of memberships |
| DepartmentRuns.ListingIsComplete | app/department/service.py:56-89 | both hold for the listing in every reachable state |
| Departments.DepartmentService.GetDepartmentTree | app/department/service.py:56-89 | the object tree built by appending to child lists has, for any order the rows come in, exactly the shape and counts of that listing |
| Departments.DepartmentService.CreateDepartment | app/department/service.py:18-27 | takes the specified step, whose effect is `DepartmentEffects.CreateStores`: a fresh id, the given name and parent, refused for an unknown parent |
| Departments.DepartmentService.UpdateDepartment | app/department/service.py:32-41 | takes the specified step: only the name changes |
| Departments.DepartmentService.DeleteDepartment | app/department/service.py:43-54 | takes the specified step: refused with children, otherwise the row goes with its memberships and grants |
| Departments.DepartmentService.ShareResource | app/department/service.py:166-183 | takes the specified step: the grant is added, refused for an unknown department or when that department already has a grant on that resource |
| Departments.DepartmentService.GetDescendantDepartmentIds | app/department/service.py:205-220 | the worklist ends on any parent relation, cyclic ones included, with exactly the departments reachable downward |
| DepartmentSpec.ClosureIsBelow | app/department/service.py:205-220 | any set between the roots and what they reach that is closed under children is the whole closure |
| Departments.DepartmentService.CheckResourceAccess | app/department/service.py:222-256 | full for admins and creators; for others the highest level granted to a department at or below one of theirs, none iff there is no such grant |
| Departments.DepartmentService.GetAccessibleResourceIds | app/department/service.py:258-272 | for a user who is neither, a resource is listed iff the check on it gives a level |
| DepartmentSpec.AncestorsSeeAtLeastAsMuch | app/department/service.py:199-256 | membership of ancestors gives at least the level that membership of their descendants gives |
| DepartmentEffects.CreateStores | app/department/service.py:18-27 | succeeds iff the parent is none or known; then exactly one row is new, under an id not used before, with the given name and the given parent, and every other row keeps its parent |
| DepartmentEffects.CreatePlaces | app/department/service.py:18-89 | the new department stands at the end of its parent's children in the listing, of nobody else's, and has none of its own |
| DepartmentEffects.NewRowIsBelow | app/department/service.py:205-220 | the new department is reached from exactly the departments that reach its parent, and what reached any other department still does |
| DepartmentEffects.NewDepartmentsGrants | app/department/service.py:18-256 | a level granted to a new department is gained, for that resource alone, by exactly the members of its parent and of what is above it |
| DepartmentEffects.ShareGrants | app/department/service.py:166-256 | sharing succeeds iff the department is known and holds no grant on the resource, and adds the level for exactly the users who belong to the department or to one above it |
| DepartmentEffects.DeleteStores | app/department/service.py:43-54 | refused iff unknown or named as a parent by some row; otherwise exactly the row, its memberships and its grants are gone |
| DepartmentEffects.HighestIsTheLastGranted | app/department/service.py:251-256 | full if granted, else edit, else use, else view, and none iff nothing is granted |
| PromptSpec.ScannerIsThePattern | app/chat/prompt.py:28 | the marker scanner agrees with the pattern, name and extent, on every text |
| PromptSpec.RenderDependsOnDetected | app/chat/prompt.py:36-53 | variable maps that agree on the detected names render the same |
| PromptSpec.DetectedIffItMatters | app/chat/prompt.py:36-53 | a name is detected iff some change of its value alone changes the rendering |
| PromptSpec.RenderLeftmost | app/chat/prompt.py:45-53 | text in front of the first marker is copied verbatim |
| PromptSpec.PlainTextIsVerbatim | app/chat/prompt.py:45-53 | text without markers comes out as it is |
| PromptSpec.RenderFillsPieces | app/chat/prompt.py:45-53 | a template splits, before any value is looked at, into literal characters and exact markers, leftmost first; rendering copies the former and looks up the latter, so values are never rescanned |
| PromptSpec.MarkerIsReplaced | app/chat/prompt.py:45-53 | a marker is replaced by the whole value of its variable, or by nothing if there is no such variable, and rendering goes on behind it |
| PromptSpec.RenderIsTheReplacements | app/chat/prompt.py:45-53 | the rendering is the literal characters and the values themselves, concatenated in the order of the template's pieces |
| PromptSpec.TemplateIsTrimmed | app/chat/prompt.py:102-105 | the template is the prompt without exactly the white space around it; a missing and an empty prompt count as the fallback |
| PromptSpec.EntryHoldsTheChunk | app/chat/prompt.py:63-76 | an entry is its label, the title on its line if there is one, and the whole content |
| PromptSpec.TemplateVarsAreDetected | app/chat/prompt.py:102-105 | stripping and the fallback prompt neither add nor lose a marker |
| PromptSpec.UndetectedMayStayEmpty | app/chat/pipeline.py:341-347 | leaving an undetected variable empty does not change the system message |
| Prompt.FormatContextChunks | app/chat/prompt.py:56-76 | the text joins the entries of the longest prefix that fits the budget, or is the placeholder if none fits |
| PromptSpec.ContextIsBounded | app/chat/prompt.py:31-76 | when an entry fits budget B, at most B entries are rendered, in at most 9B-2 characters, separators included |
| Prompt.AssemblePrompt | app/chat/prompt.py:79-120 | system message, the longest suffix of the history that fits its budget in original order, and the query |
| Citations.ExtractCitations | app/chat/citations.py:6-24 | strictly increasing, and exactly the bracketed numbers between 1 and the chunk count |
| Citations.ContextMentions | app/chat/prompt.py:63-76 | the rendered context brackets exactly its labels and what the titles and contents bracket |
| Citations.LabelsReadBack | app/chat/citations.py:12-24 | reading back k rendered labels gives at least 1..k, and exactly that when no title or content brackets a number |
| Citations.RenderAndExtract | app/chat/citations.py:12-24 | the two methods composed do so |
| Export.ExportKb | app/knowledge/export_service.py:27-106 | writes exactly the specified archive entries, in order, with archived documents left out |
| Export.ImportKb | app/knowledge/export_service.py:108-228 | computes the specified import for the order in which it meets the document directories, each once |
| Export.ImportFolders | app/knowledge/export_service.py:129-149 | both passes: fresh ids for all folders, then parents relinked where the archive has them |
| ExportRoundTrip.FoldersSurvive | app/knowledge/export_service.py:129-149 | for any listing order every folder comes back under its new id with its renamed parent; parents outside the knowledge base are dropped |
| ExportRoundTrip.DocsSurvive | app/knowledge/export_service.py:151-184 | if no document titled `meta.json` does harm, exactly the non-archived documents come back, with metadata, folder and stored file |
| ExportRoundTrip.ChunksSurvive | app/knowledge/export_service.py:186-213 | exactly the chunks whose unit was exported come back, in order, with content, level and position |
| ExportExact.ImportSucceedsIff | app/knowledge/export_service.py:108-228 | importing an exported archive succeeds iff every exported document titled `meta.json` has no file or one that parses as a metadata record |
| ExportExact.RoundTripIff | app/knowledge/export_service.py:51-216 | the import of an export is isomorphic to the exported part (folders with parents, documents with files, chunks in order, document count), under its own one-to-one renamings and for all orders of folders and directories, iff every exported document titled `meta.json` has a stored file that parses as its own record, up to a folder reference that names no folder of the knowledge base |
| ExportExact.ForeignFolderIsHarmless | app/knowledge/export_service.py:158-163 | that exception is real: a file whose record names a foreign folder where the document names none does no harm |
| ExportExact.ReChunkLeavesChunksOut | app/knowledge/export_service.py:186-221 | with re-chunking asked for, no archived chunk is imported from any archive, and everything else comes in as without it |
| ExportCodec.ACodecExists | app/knowledge/export_service.py:40-103 | there is a codec that keeps every law the round trip assumes of JSON and of id texts |
| ExportRoundTrip.MetaSurvivesIff | app/knowledge/export_service.py:64-80 | a document's metadata reads back iff its title is not `meta.json`, or it has no file, or the file parses to the same record |
| ExportRoundTrip.MetaTitleBreaks | app/knowledge/export_service.py:151-184 | a document titled `meta.json` fails the import if its file is no record, and if it has no file its metadata comes back as its file |
| Export.CopyKb | app/knowledge/export_service.py:27-228 | the two methods composed succeed with an isomorphic copy iff no exported document titled `meta.json` does harm, whatever order the import chooses |
| Chunks.ChunkService.PreviewSplit | app/knowledge/chunk_service.py:169-182 | the segments between the sorted distinct positions with their word counts, or the specified error |
| Chunks.PreviewIsTheSplit | app/knowledge/chunk_service.py:169-227 | a preview fails exactly as the split does and otherwise shows what the split then stores |
| Chunks.ChunkService.SplitChunk | app/knowledge/chunk_service.py:184-227 | takes the specified split step |
| ChunkSpec.SplitConserves | app/knowledge/chunk_service.py:184-227 | m cuts give m+1 non-empty pieces in place of the chunk that concatenate to its text, keep the review flag, and have between w and w+m words |
| Chunks.ChunkService.MergeChunks | app/knowledge/chunk_service.py:229-274 | takes the specified merge step, errors in the code's order |
| ChunkText.MergeKeepsWords | app/knowledge/chunk_service.py:248-262 | a merge has exactly as many words as its parts together |
| ChunkSpec.MergeAfterSplit | app/knowledge/chunk_service.py:184-274 | merging the pieces, named in any order, always succeeds and restores the chunk with a blank line at exactly the cuts, the flag kept and no other row touched |
| ChunkSpec.MergeKeepsOrder | app/knowledge/chunk_service.py:244-245 | the sort is stable: chunks named in the order of their positions are joined in the order named, equal positions included |
| ChunkEffects.MergeSucceedsIff | app/knowledge/chunk_service.py:229-242 | a merge succeeds iff two chunks or more are named, all exist and all share unit type and unit id; otherwise the error is that of the first check that fails, the first missing id named, and nothing changes |
| ChunkEffects.MergeReplaces | app/knowledge/chunk_service.py:265-271 | exactly the chunks named are gone, one row under a fresh id is new, and no other row changes |
| ChunkEffects.MergeExcludes | app/knowledge/chunk_service.py:261-261 | whatever the mixture, the merged row is excluded from review iff some source was |
| ChunkEffects.MergeJoins | app/knowledge/chunk_service.py:244-262 | for any chunks the texts by position, ties in the order named, joined by blank lines make up the merged row, with the sum of their words, and everything else is that of the first in this order |
| ChunkEffects.SplitStores | app/knowledge/chunk_service.py:184-227 | piece i is the text between the cuts around it, at the chunk's position plus i, with unit, base, folder, parent, level and review flag of the chunk; the pieces replace the chunk and no other row changes |
| ChunkEffects.SplitSucceedsIff | app/knowledge/chunk_service.py:184-193 | a split succeeds iff the chunk exists, some position is given and all lie strictly inside the text |
| ChunkText.InsertKeepsCharacters | app/knowledge/chunk_service.py:246-248 | every character of the original is found again, moved on by two places for each cut before it |
| Chunks.ChunkService.EditChunk | app/knowledge/chunk_service.py:149-167 | with the loaded history list aliased as in the code: the caller gets the object with its history extended, the table keeps a non-empty history as it was loaded |
| ChunkSpec.EditsStore | app/knowledge/chunk_service.py:149-167 | what any run of edits leaves in the table: the last text and its word count, the review flag as it was, and of the replaced texts only the first, if the chunk had no history before |
| ChunkSpec.HistoryIsCompleteIff | app/knowledge/chunk_service.py:153-162 | the stored history holds every earlier text iff there was no edit, or one edit of a chunk without a history |
| ChunkSpec.SecondEditForgets | app/knowledge/chunk_service.py:153-162 | after two edits of a new chunk the text in between is nowhere in its stored history |
| ChunkSpec.PiecesNeverRecordEdits | app/knowledge/chunk_service.py:153-162 | a chunk with a history, as every piece of a split and every merge has, keeps that history whatever is edited |
| Sandbox.ReadRun | runner/python/sandbox.py:117-127 | the outputs are the payload of the last sentinel line (empty if unreadable), the text is the other lines joined |
| Sandbox.OutputsSurvive | runner/python/sandbox.py:57-127 | whatever the program printed, the outputs read are what JSON makes of the outputs written |
| Sandbox.TextSurvivesIff | runner/python/sandbox.py:57-127 | the program's text comes back iff it breaks lines only by line feeds and no line starts with the sentinel |
| Feedback.ConversationService.CitedPairs | app/chat/service.py:140-152 | the readable chunk and knowledge base pairs in order |
| Feedback.ConversationService.RecordFeedback | app/knowledge/governance/events.py:89-118 | one event per pair, of the kind the sign of the sentiment prescribes |
| Feedback.ConversationService.Set | app/chat/service.py:124-173 | takes the specified step and keeps the log in agreement with the messages |
| FeedbackSpec.RunAgrees | app/chat/service.py:124-173 | after any run, for any integer values, replaying a message's events on a chunk gives the sign of its feedback if it cites the chunk and 0 otherwise |
| FeedbackSpec.RepeatingIsSilent | app/chat/service.py:156-171 | repeating a call any number of times appends and changes nothing |
| FeedbackEffects.SetStores | app/chat/service.py:124-173 | the message gets the feedback as given, and the log grows by one reverse event per pair if a stored value changes, followed by one event per pair of the sign of an opinion that is new |
| FeedbackEffects.PairsOfOne | app/chat/service.py:140-152 | a reference gives the pair of its chunk, by id or else by chunk_id, and its knowledge base, in this order, iff both texts are there and read as UUIDs |
| FeedbackSpec.RunTally | app/chat/service.py:156-169 | every vote event ever written stands or has been taken back, and every reverse event took back a vote or nothing |
| FeedbackSpec.RebuildIsRightIff | app/knowledge/governance/tasks.py:98-120 | the rebuilt counts are the standing ones iff no vote went on top of a stored 0 (or none stands) and no negative vote was taken back (or no positive one stands) |
| FeedbackSpec.ClearingWithNull | app/knowledge/governance/tasks.py:98-120 | if no call ever sets 0, the rebuilt counts add up to the standing votes |
| FeedbackSpec.FlippedVote | app/knowledge/governance/tasks.py:106-114 | a dislike turned into a like is rebuilt as one dislike |
| Engine.Evaluate | app/agent/orchestrator/engine.py:41-105 | the decision names the first eligible rule that fires; tried, the classifier's output, the shared configuration and the classifier calls are as specified for the rules walked through |
| Routing.WinnerIsFirst | app/agent/orchestrator/engine.py:68-105 | the winner fires and nothing before it does, there is none only if no rule fires, and tried ends with it |
| Routing.WinnerAnswersFirst | app/agent/orchestrator/engine.py:68-105 | told by rules, matchers and classifier alone: the winner is the first rule that is active, not skipped, and whose matcher accepts the message or the first verdict heard so far, and there is none iff no rule does |
| Routing.ConsultedOnlyAtNeed | app/agent/orchestrator/engine.py:77-93 | the classifier is consulted only at an eligible `llm_intent` rule that is reached, while it has not answered |
| Routing.AnsweredOnce | app/agent/orchestrator/engine.py:77-93 | after an answer it is not consulted again and the answer stays |
| Routing.NotBeforeItIsNeeded | app/agent/orchestrator/engine.py:77-93 | it is not consulted at all iff no such rule is reached |
| Routing.ChainEnumerates | app/agent/orchestrator/engine.py:50-105 | evaluating again and again with the winners skipped gives exactly the active matching rules in list order and then the default, in at most one round more than there are rules |
| Routing.Route | app/agent/orchestrator/service.py:343-415 | the first matching rule that succeeds, surfaces its error or gives up decides, if it is among the first five; otherwise the default handler does |
| Routing.RoutedIff | app/agent/orchestrator/service.py:343-415 | that outcome, told without the loop, is the only one |
| Routing.WhoAnswers | app/agent/orchestrator/service.py:370-409 | matching rule k is handled iff k < 5, it succeeds and every earlier one failed with `fallback_next`; its error surfaces iff k < 5, it fails with `return_error` and every earlier one failed with `fallback_next` |
| Routing.BoundBitesIff | app/agent/orchestrator/service.py:346-350 | five attempts come to what the unbounded chain of fallbacks comes to, except iff a rule beyond the fifth would have answered |
| Routing.SixRulesExist | app/agent/orchestrator/service.py:346-350 | six matching rules of which only the last works: the bounded loop ends at the default handler, the chain would have been handled |
| RulesCaches.RulesCache.GetCachedRules | app/agent/orchestrator/cache.py:35-53 | takes the lookup step and answers only for the exact stored version |
| RulesCaches.RulesCache.PutCachedRules | app/agent/orchestrator/cache.py:56-69 | takes the store step |
| CacheSpec.RunKeepsInv | app/agent/orchestrator/cache.py:35-77 | at most 256 agents are ever cached, each once in the order |
| CacheSpec.PutEvictsTheOldest | app/agent/orchestrator/cache.py:63-69 | storing evicts only from a full cache for a new agent, and then the earliest inserted; a known agent keeps its place |
| CacheRuns.CacheIsPartOfTheMap | app/agent/orchestrator/cache.py:35-77 | after any operations the cache is a part of the unbounded map run on the same operations |
| CacheRuns.TheMapIsTheLatestPut | app/agent/orchestrator/cache.py:35-77 | the unbounded map holds an entry iff the history contains that put with nothing after it that ends it |
| CacheRuns.AnswersAreFresh | app/agent/orchestrator/cache.py:35-53 | every answer is the most recent put for that agent at exactly that version, neither invalidated nor mismatched since |
| CacheRuns.YoungEntriesStay | app/agent/orchestrator/cache.py:56-69 | an agent newly inserted answers as the unbounded map does as long as fewer than 256 other agents have been stored since |
| CacheRuns.YoungEntriesAnswerIff | app/agent/orchestrator/cache.py:35-69 | for such an agent a lookup answers with rules iff their put stands at exactly the version asked for |
| CacheRuns.PutThenGet | app/agent/orchestrator/cache.py:35-69 | right after a put exactly that version is answered, with those rules; a lookup of another version evicts that agent and no other |

## Left out

- Field-level shape rules of the graph schema (types, lengths, extra keys): a malformed value is one abstract case, `Misshapen`.
- Blocks nested deeper than one level: the code validates only the blocks of top-level nodes, and so does the model.
- Concurrent publishers on one event bus and wall-clock time: one publisher at a time; the timeout of a critical put is a step that may happen whenever the put waits.
- Cancel and resume of executions, the graph compiler, and which version an execution actually runs: the code reads the current published graph.
- Concurrent transactions: every service call is one atomic step on the tables.
- Listing, renaming of membership roles and `ensure_user_membership` of departments: no promise beyond row updates.
- The database's collation: the department listing is proved for every order of the rows.
- Access levels outside the four of the schema pattern: the schema refuses them, so the branch that would ignore them is not modelled.
- The budget factors 0.6 and the model's context size: the integer budgets are parameters.
- Unicode tables: `\w` is any class that contains no braces and no spaces; digits in labels are ASCII, and the length limit of `int()` on huge numerals is not modelled.
- The zip container and MinIO: an archive is its list of entries, stored files are a map; re-chunking after an import is outside the model.
- Folder trees of live knowledge bases are not proved acyclic, because updating a folder can set any parent; the round trip keeps whatever relation there is.
- Quality scores of edited chunks, and timestamps. Every edit is a session of its own, as every request is; several edits in one session are not modelled.
- Export records hold finite floats as a significand and an exponent; NaN and the infinities, which JSON text does not standardise, are left out.
- Limits, exit codes, timeouts and stderr of the sandbox: the framing theorems are about a program that exits normally, whose text stands for everything decoded in front of the wrapper's line.
- Deleting conversations or chunks after feedback, and hit or adoption events: `Standing` counts the messages that exist, and none is deleted.
- Matchers, classifier and handlers may not raise: an exception would end the cascade. They are deterministic for one message, as the fallback results need.
- Engine.Evaluate: latencies are not modelled, and of the classifier's output the `cached` mark is left out.
- Locking of the rules cache: calls are atomic, as the lock makes them.
