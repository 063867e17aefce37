# Verified model of the local-first memory system

This project models the stateful core of the memory system in Dafny and proves what its writers, indexes,
traversals and wire formats guarantee. SQLite tables are finite maps, sequences or multisets; a transaction is
one step that either commits its whole effect or leaves the tables alone. Services that update tables are
classes whose methods are proved equal to a function of the old tables; the theorems are about those functions,
over every input and every run. The modules named Outcome, and `AnswerExact`, `Carries`, `SearchShowsUnits` and
`ItemMeans` elsewhere, tell what those functions yield column by column, without them.

Parts, one or more modules each:

- `DecisionTrace`, `Scrubber`: the bounded breadth-first trace of a decision, and active repair of orphan rows.
- `MemoryStore`, `MemoryInvariants`, `MemoryOutcome`, `MemoryService`: store, supersede, promote, publish, approve and
  reject, with the invariants of every reachable database.
- `Chunking`, `Ingest`, `IngestRuns`, `IngestOutcome`, `IngestIncremental`: cutting transcripts into chunks, and
  append-only ingest.
- `EmbeddingIndex`, `LexicalIndex`: the queue-driven embedding index and the trigger-driven full-text index.
- `SyncTypes`, `SyncExtract`, `SyncApply`, `SyncReplay`, `SyncOutcome`: batch extraction, verification, application
  and replay.
- `Ranking`, `RankingLaws`: merging recall candidates, scoring, sorting and cutting.
- `Strings`, `MarkedText`, `ManagedBlock`: the managed block of client configuration files.
- `Framing`, `FramingRoundTrip`: the stdio reader. The line form is the one of the stdio section of the MCP
  Transports specification, revision 2025-06-18.
- `NewtonRoot`, `HashBuckets`: square root, normalisation, hash buckets, local embedding and compression.
- `Prelude`, `Numerals`, `Records`: shared vocabulary.

`dafny verify dfyconfig.toml` checks everything.

## What does not hold, and exactly when it does

- Chunks are never refreshed (internal/ingest/session_ingest.go:312): an ordered delivery of a transcript, in any
  number of calls and with resent rows or not, is stored as one call would store it if and only if every cut
  between calls is clean (`DeliveryIff`; `SplitIff` is the case of two calls).
- A trace ignores suspensions if and only if only edges with a missing endpoint are suspended
  (`TraceIgnoresSuspensionsIff`); a repair establishes that.
- A unit without pending work has an embedding if and only if it is active and not secret, in every run in which no
  write turns a unit secret, and no writer of the repository does (`EmbeddedIff`). A write that did would leave the
  old embedding in place (`SecretStaysEmbedded`, hypothetical).
- The update trigger of the lexical table deletes by the new key: an update keeps agreement if and only if it keeps
  the key (`UpdateKeepsIff`).
- A migration without FTS5 records the requested tokenizer but rebuilds nothing: the recorded name stays right if
  and only if the run has FTS5, there is no index, or the name is that of the index (`TokenizerKnownIff`).
- Approved candidates stay linked to the chunks their memory was promoted from in every database the program
  reaches (`LinksAgreeReachable`). The service's own candidate upsert (internal/memory/candidates.go:287-345) guards
  the row of a reviewed candidate but not its links. Nothing calls it; a call would keep the agreement if and only if
  its chunks are the promoted ones as a set and join to the same text (`RelinkIff`).
- Trust weights are not bounded by the schema: over the rows and statistics that recall loads, a better signature
  bucket wins on every other measure if and only if the worse row is trusted by at most 8.518 above the better one
  (`DominanceIff`). With trust in [0, 1] it wins over any rows at all (`BucketDominates`).
- The managed-block upsert is idempotent if and only if the file has no begin marker of that name or has an end
  marker behind the first one (`IdempotentIff`). Writing one block makes another name appear present if and only if
  the begin marker of the one holds that of the other (`AppearsIffClash`), that is, if and only if the other name is
  a prefix of it or is marked inside it (`MarkerHoldsIff`). A block nested in another is lost when the outer one is
  rewritten (`NestedBlockLost`, `NestedBlockWritten`).
- A header block is read as its body if and only if its first line is a length header and the last length declared
  in it is that of the body (`HeaderBlockReadIff`). With Content-Type first, the reader delivers that header line as
  a message (`ContentTypeFirst`).
- Verification overlays a batch on the stored row, while the merge keeps the newest cells: the row kept is the row
  verified if and only if no column the batch names for it is won by a cell that reads differently
  (`KeptIsVerifiedIff`). Where one is, the recorded status need not be that of the row kept (`OlderChangeVerified`).
- A line message is read back if and only if it is not empty, does not end in a carriage return and is not a length
  header (`LineReadBackIff`); a last line without its newline is never delivered (`FramesReadBack`).
- A change may carry a text and a number: the text is verified, the number is stored. They read alike if and only if
  one of the two is missing or the number is written like the text (`StoredAsReadIff`).
- Normalised vectors never exceed unit length, and have unit length if and only if they had it before
  (`NormBounds`, `UnitIff`).

## Model

| member | source | states |
|---|---|---|
| DecisionTrace.LoadTraceEdges | internal/memory/service.go:1665-1710 | loads exactly the unsuspended edges leaving the frontier, in table order |
| DecisionTrace.ExpandLayer | internal/memory/service.go:1629-1655 | one layer: each edge with an existing target is reported on its side at this depth, and the next frontier is the set of targets not visited before |
| DecisionTrace.WalkTraceDecision | internal/memory/service.go:1619-1658 | the loop reports exactly the steps of the layered trace and visits exactly the ball of that radius |
| DecisionTrace.TraceDecision | internal/memory/service.go:962-1002 | a trimmed request with a known space and an id answers, or fails when the decision is missing; supports and contradictions list exactly the walkable edges of their side, each at its distance, in order; visited is what walks of that length reach |
| DecisionTrace.AnswerExact | internal/memory/service.go:962-1002 | for every graph, root and depth, each list tells of every edge of its side that leaves a node nearer than the depth, once, by depth and then by table position, and of nothing else |
| DecisionTrace.HopListedIff | internal/memory/service.go:1640-1650 | a hop is among the contradictions exactly when an edge with a contradicting relation accounts for it, and among the supports exactly when an edge with another relation does |
| DecisionTrace.ReachIffPath | internal/memory/service.go:1619-1658 | a node is visited at depth k exactly when a walk of at most k live edges with existing targets reaches it |
| DecisionTrace.RingIsDistance | internal/memory/service.go:1619-1658 | the frontier after k rounds is the set of nodes at shortest-path distance k |
| DecisionTrace.TraceExact | internal/memory/service.go:1619-1658 | the reported steps are exactly the walkable edges that leave a node closer than the depth, each labelled its source's distance plus one |
| DecisionTrace.TraceReportsEdgesOnce | internal/memory/service.go:1619-1658 | no edge is reported twice, whatever cycles, self-loops and parallel edges there are |
| DecisionTrace.EmptyRingStops | internal/memory/service.go:1624-1626 | stopping at an empty frontier loses nothing that deeper rounds would find |
| DecisionTrace.TraceSaturates | internal/memory/service.go:1619-1658 | depths beyond the number of reachable nodes change nothing |
| DecisionTrace.ReachableIffPath | internal/memory/service.go:1619-1658 | the saturated result is everything any walk reaches |
| Scrubber.Service.LoadOrphanState | internal/scrubber/service.go:307-322 | collects the orphan rows of the query by entity |
| Scrubber.Service.UpsertSuspensions | internal/scrubber/service.go:324-343 | inserts or refreshes one unresolved suspension per orphan and keeps first-seen times |
| Scrubber.RepairedKindRow | internal/scrubber/service.go:324-366 | upserting the orphans of one kind and resolving the rest of it acts row by row: orphans are unresolved with their first sighting kept, unresolved others are resolved, other kinds are untouched |
| Scrubber.Service.RunActiveRepair | internal/scrubber/service.go:232-300 | one repair leaves the suspension table the repair function gives, drops only expired quarantine rows and reports the counts |
| Scrubber.EdgeOrphansExact | internal/scrubber/service.go:254-264 | an edge is an orphan exactly when one of its endpoints is missing |
| Scrubber.SignalOrphansExact | internal/scrubber/service.go:265-275 | a signal is an orphan exactly when its memory is missing |
| Scrubber.RepairedRow | internal/scrubber/service.go:324-366 | a repair acts on each suspension row by its own orphan state alone; edges and signals do not interfere |
| Scrubber.RepairedEdgeSays | internal/scrubber/service.go:254-264 | an orphan edge is suspended under the id of its source with the words for what is missing, seen now, and with its first sighting kept |
| Scrubber.RepairedSignalSays | internal/scrubber/service.go:278-291 | an orphan signal is suspended under its memory id as missing that memory |
| Scrubber.RepairedRest | internal/scrubber/service.go:345-366 | every other suspension row keeps all its columns, but an unresolved one gets the time of its resolution |
| Scrubber.RepairExact | internal/scrubber/service.go:232-300 | after a repair the unresolved suspensions are exactly the rows with a missing endpoint, of both kinds |
| Scrubber.RepairKeepsHistory | internal/scrubber/service.go:324-343 | no suspension row is dropped and no first-seen time rewritten |
| Scrubber.RepairTwice | internal/scrubber/service.go:232-300 | a second repair of unchanged tables only moves the last-seen time of the orphans |
| Scrubber.TraceIgnoresSuspensionsIff | internal/memory/service.go:1676-1686 | every trace of every root and depth equals the trace without suspensions if and only if only orphan edges are suspended |
| Scrubber.TraceAfterRepair | internal/scrubber/service.go:254-275 | after any repair a trace answers as if the suspension table were empty |
| Scrubber.SuspendedEdgeHidesHop | internal/memory/service.go:1676-1686 | a suspended edge between existing nodes is missing from the trace of its source |
| MemoryService.Service.PrepareStore | internal/memory/service.go:1004-1055 | request normalisation: defaults, required body and namespace, and allowed relations only |
| MemoryService.Service.InsertRelations | internal/memory/service.go:1277-1314 | one edge per requested relation in order; refuses relations to itself or to missing memories |
| MemoryService.Service.StoreInTx | internal/memory/service.go:1146-1196 | inserts the node under a new id with its retrieval unit and its relations, or fails without effect |
| MemoryService.Service.Store | internal/memory/service.go:32-51 | commits the stored node or leaves the database as it was |
| MemoryService.Service.Supersede | internal/memory/service.go:816-856 | stores the new shared memory, marks the old one superseded and links them, or does nothing |
| MemoryService.Service.PromoteInferredRelations | internal/memory/retrieval_units.go:883-936 | adds exactly the inferred edges to earlier decisions of the same sessions |
| MemoryService.Service.CollectBodies | internal/memory/retrieval_units.go:791-881 | joins the chunk texts in request order, and fails on a missing chunk |
| MemoryService.Service.Promote | internal/memory/retrieval_units.go:774-789 | creates one private memory from the chunks with its edges and promotion links, or does nothing |
| MemoryService.Service.Publish | internal/memory/retrieval_units.go:1007-1065 | creates a redacted shared copy of a private memory and records the publication, or does nothing |
| MemoryService.Service.ApproveCandidate | internal/memory/candidates.go:99-173 | promotes the linked chunks and approves the pending candidate in one step; a failed approval leaves nothing behind |
| MemoryService.Service.RejectCandidate | internal/memory/candidates.go:175-211 | rejects a pending candidate only |
| MemoryService.Service.UpsertMemoryCandidate | internal/memory/candidates.go:287-345 | updates the row while it is pending and always replaces its links |
| MemoryOutcome.StoreMeans | internal/memory/service.go:1014-1055 | a store fails for its request, a taken id or the first relation to itself or to a missing memory; otherwise one active node with the given or default columns is added, with its unit, its queue entry and one edge per relation |
| MemoryOutcome.SupersedeMeans | internal/memory/service.go:816-856 | the new shared memory is stored as by a store, the old one is marked, and one supersedes edge points at it; nothing else changes, and each failure has its reason |
| MemoryOutcome.PromoteTxMeans | internal/memory/retrieval_units.go:791-936 | a promotion makes one private node of the chunk texts, links it to exactly those chunks, and relates it to exactly the earlier decisions of their sessions: contradicting by wording, else supporting when a chunk argues |
| MemoryOutcome.PublishMeans | internal/memory/retrieval_units.go:1007-1065 | a publication copies every column of the private node, subject, body and source uri redacted, and each failure has its reason |
| MemoryOutcome.ApproveMeans | internal/memory/candidates.go:99-173 | an approval promotes the linked chunks under the given columns, or the candidate's own where they are blank, and changes only the review outcome of that candidate |
| MemoryOutcome.RejectMeans | internal/memory/candidates.go:175-211 | a rejection leaves a pending candidate rejected with the trimmed note and touches nothing else; otherwise it fails with its reason |
| MemoryOutcome.UpsertMeans | internal/ingest/session_ingest.go:351-392 | an upserted candidate is new and pending, refreshed while pending, and untouched once reviewed |
| MemoryInvariants.AcyclicExtend | internal/memory/service.go:1146-1196 | a node that nothing points to yet, with edges to older nodes, closes no cycle |
| MemoryInvariants.Reachable | internal/memory/service.go:816-856 | in every database any run of operations reaches, failed ones included, both graphs are acyclic with both endpoints of every edge present, a node is superseded exactly when a supersedes edge targets it, and approved candidates each name their own memory, promoted from their chunks |
| MemoryInvariants.RunExtends | internal/memory/service.go:816-856 | along any run nodes, edges, chunks and promotions stay, superseded nodes never become active again, and a reviewed candidate never changes |
| MemoryInvariants.ApproveCandidates | internal/memory/candidates.go:99-148 | an approval creates a new memory whose body joins the linked chunk texts in link order and whose promotions cover exactly those chunks |
| MemoryInvariants.PerformApprovesNothing | internal/memory/candidates.go:150-173 | no operation but an approval makes a candidate approved |
| MemoryInvariants.PublishedCopy | internal/memory/retrieval_units.go:1007-1065 | a publication adds one active shared node under a new id with the redacted body, records it, and leaves the private space as it was |
| MemoryInvariants.NothingRelinks | internal/ingest/session_ingest.go:351-392 | a chunk that is new has no candidate yet, so nothing the program calls relinks an approved candidate |
| MemoryInvariants.LinksAgreeReachable | internal/memory/candidates.go:99-173 | in every database the program's calls reach, each approved candidate is linked to exactly the chunks its memory was promoted from, and each candidate is that of a stored chunk |
| MemoryInvariants.RelinkIff | internal/memory/candidates.go:287-345 | upserting an approved candidate keeps its row, and keeps links and memory in agreement if and only if the chunks are the promoted set and join to the same text |
| Records.UpsertCandidateKeeps | internal/ingest/session_ingest.go:351-392 | an upsert never changes the row of a candidate that has been reviewed |
| Chunking.SortBySeq | internal/ingest/session_ingest.go:239-247 | a sorted permutation of the messages |
| Chunking.CutRun | internal/ingest/session_ingest.go:248-272 | the inner loop ends the run where the segmentation ends it |
| Chunking.DescribeRun | internal/ingest/session_ingest.go:252-272 | kind, text, range, latest timestamp and sensitivity of a run, as the chunk function gives them |
| Chunking.BuildChunks | internal/ingest/session_ingest.go:239-274 | the chunks are those of the unique segmentation of a sorted arrangement of the messages, numbered from 1 |
| Chunking.LatestAuthoredIsMaximum | internal/ingest/session_ingest.go:252-272 | a chunk's timestamp is attained in its run and is its maximum |
| Chunking.RunsSegment | internal/ingest/session_ingest.go:239-274 | the runs are contiguous, non-empty and concatenate to the messages; a user message only leads, a user-led run extends to the next user message or the end, leading others are singletons |
| Chunking.SegmentationUnique | internal/ingest/session_ingest.go:239-274 | any segmentation with these properties is the one produced |
| Chunking.RunsConcat | internal/ingest/session_ingest.go:239-274 | chunking distributes over a cut before a user message |
| Chunking.LastRunGrows | internal/ingest/session_ingest.go:239-274 | at any other cut the last run before it grows when the rest arrives |
| Chunking.ChunkingUnique | internal/ingest/session_ingest.go:239-274 | messages in strict sequence order have one chunking, that of the unique segmentation |
| Chunking.SortedPermutationUnique | internal/ingest/session_ingest.go:239-247 | distinct sequence numbers leave the sort no choice |
| Ingest.Service.UpsertMessages | internal/ingest/session_ingest.go:177-213 | inserts new messages, keeps resent ones, and refuses a reused sequence number with other content or a taken message id |
| Ingest.LoadMessages | internal/ingest/session_ingest.go:215-237 | loads the session's rows in sequence order |
| Ingest.Service.UpsertChunks | internal/ingest/session_ingest.go:302-349 | inserts chunks not stored yet, with unit, queue row and candidate, and skips the others entirely |
| IngestRuns.CandidatesFollowChunks | internal/ingest/session_ingest.go:302-392 | over any run of calls the candidates are those of the stored chunks of promotable kinds, each linked to its own chunk alone, and no call touches a candidate that is there |
| Ingest.Service.IngestSession | internal/ingest/session_ingest.go:71-100 | the whole call commits all tables or none |
| Ingest.LoadExact | internal/ingest/session_ingest.go:215-237 | the loaded list holds exactly the session's rows, strictly sorted |
| Ingest.LoadUnique | internal/ingest/session_ingest.go:215-237 | no other list has that property |
| IngestRuns.StoredNeverChanges | internal/ingest/session_ingest.go:177-213 | over any run of calls, failed or not, a stored message keeps its content and a stored chunk its row |
| IngestRuns.AcceptedIff | internal/ingest/session_ingest.go:177-213 | a request is accepted exactly when no sequence number is claimed with two contents, stored or in the request itself, and no new message takes an id in use |
| IngestOutcome.StoredChunksTell | internal/ingest/session_ingest.go:239-392 | after any run of calls each stored chunk, with its unit, queue entry and candidate, tells of one run of its session's messages at an accepted call: their lines are its text, its time is their maximum, its kind is that of the text, and it is secret exactly when the text or the session is |
| IngestOutcome.EveryRunStored | internal/ingest/session_ingest.go:302-349 | after an accepted call every run of the session has its chunk |
| IngestOutcome.LastMessageStored | internal/ingest/session_ingest.go:177-213 | an accepted request leaves at each of its sequence numbers the last message it holds for it |
| IngestOutcome.FirstIdStored | internal/ingest/session_ingest.go:177-213 | that row has the id that came first: the stored one, the given one, or session and number |
| IngestOutcome.RefusedForFirst | internal/ingest/session_ingest.go:177-213 | a refused request is refused for the first message that cannot be stored, with the reason |
| IngestOutcome.IngestIff | internal/ingest/session_ingest.go:71-100 | a call fails on its header, then on a message, and else commits its session as given |
| IngestIncremental.IncrementalEqualsOneShot | internal/ingest/session_ingest.go:302-349 | any delivery in any number of calls, resends included, whose splits are clean leaves every table as one call would |
| IngestIncremental.DeliveryIff | internal/ingest/session_ingest.go:302-349 | any ordered delivery, in any number of calls and with resent rows, stores the chunks of one call if and only if every cut is clean |
| IngestIncremental.SplitIff | internal/ingest/session_ingest.go:302-349 | the case of two calls: their chunks are those of one call if and only if the split is clean |
| EmbeddingIndex.Worker.PendingRetrievalItems | internal/indexer/worker.go:201-222 | the units of the oldest pending rows, as many as there are up to the limit |
| EmbeddingIndex.OldestMeans | internal/indexer/worker.go:201-222 | these are different pending rows, oldest first, and no pending row left out is older than any of them |
| EmbeddingIndex.Worker.ProcessRetrievalItem | internal/indexer/worker.go:232-318 | one item transaction: rewrite or remove the unit's index entry and mark its rows done, or leave everything when embedding fails |
| EmbeddingIndex.Worker.ProcessRetrievalItems | internal/indexer/worker.go:73-85 | one round works the oldest pending units in order, reports exactly those that need an embedding the provider does not give, and shrinks the queue by a batch when none fails |
| EmbeddingIndex.ItemMeans | internal/indexer/worker.go:232-318 | an item fails exactly when an embedding is needed and the provider is down; else its queue rows are done and its index entry holds the embedding of its body, is left when secret, or is gone when inactive, and no other unit's entry changes |
| EmbeddingIndex.FailedMeans | internal/indexer/worker.go:73-85 | the failures of a round are the items at which the provider was down and was needed |
| EmbeddingIndex.SameRound | internal/indexer/worker.go:73-85 | a round in which nothing fails equals a round with a working provider |
| EmbeddingIndex.RoundShrinks | internal/indexer/worker.go:56-85 | a round without failures removes a full batch of pending rows or all of them |
| EmbeddingIndex.QueueDrains | internal/indexer/worker.go:56-85 | worker rounds over the oldest pending units in which no item fails leave nothing pending after pending/128 rounds, rounded up |
| EmbeddingIndex.AlwaysAgrees | internal/indexer/worker.go:232-318 | in every interleaving of unit writes and worker items each active non-secret unit is queued or indexed under the embedding of its current body, and the vector table mirrors the embedding table |
| EmbeddingIndex.OnlyExposedBodiesEmbedded | internal/indexer/worker.go:271-318 | an embedding only ever holds a body the unit had while active and non-secret |
| EmbeddingIndex.EmbeddedIff | internal/indexer/worker.go:232-318 | in every run of writes and items in which no write turns a unit secret, a unit without pending rows has an embedding exactly when it is active and non-secret |
| EmbeddingIndex.SecretStaysEmbedded | internal/indexer/worker.go:260-264 | had a write turned an embedded unit secret, its item would leave the old embedding |
| LexicalIndex.Database.Insert | migrations/0006_transcript_memory.sql:178-194 | the insert trigger cascade, or a failure without effect when the key or the source is taken |
| LexicalIndex.Database.Update | migrations/0006_transcript_memory.sql:196-213 | the update trigger cascade, or a failure without effect |
| LexicalIndex.Database.Delete | migrations/0006_transcript_memory.sql:215-219 | the delete trigger cascade |
| LexicalIndex.Database.DeleteFromIndex | internal/storage/migrator.go:357-361 | removes every index row of the unit and no other |
| LexicalIndex.Database.EnsureFtsIndexes | internal/storage/migrator.go:296-384 | statement by statement: drop, create, triggers, refill |
| LexicalIndex.Database.CopyRows | internal/storage/migrator.go:375-377 | the refill copies each row of the lexical table once |
| LexicalIndex.Database.RunMigrations | internal/storage/migrator.go:268-294 | a migrator run rebuilds when it decides to, records the tokenizer, and fails without effect |
| LexicalIndex.AlwaysAgrees | migrations/0006_transcript_memory.sql:168-219 | after any sequence of writes and migrator runs no two units share a source, each unit has exactly one lexical row, blanked exactly when inactive or secret, and the index equals that table as a multiset |
| LexicalIndex.SearchShowsUnits | migrations/0006_transcript_memory.sql:178-219 | after any run the lexical row of a unit has its space, namespace, type, kind and title, and its body exactly while it is active and not secret; the index holds each such row once and no other |
| LexicalIndex.FoundIffExposed | migrations/0006_transcript_memory.sql:188-191 | a unit is found by its text, in one index row, exactly when it is active and not secret |
| LexicalIndex.WriteIff | migrations/0006_transcript_memory.sql:178-194 | a write goes through exactly when the source is free and an inserted key is new, and then the unit is the given one |
| LexicalIndex.UpdateIff | migrations/0006_transcript_memory.sql:196-213 | an update of a stored row goes through exactly when its new key and its source are free |
| LexicalIndex.MigrateMeans | internal/storage/migrator.go:268-384 | when a migrator run fails, when it rebuilds, and what index and metadata it leaves |
| LexicalIndex.UpdateKeepsIff | migrations/0006_transcript_memory.sql:196-213 | an update keeps agreement if and only if it keeps the key |
| LexicalIndex.TokenizerKnownIff | internal/storage/migrator.go:268-294 | exactly when the recorded tokenizer stays that of the index |
| SyncExtract.Service.LoggedVersions | internal/memsync/service.go:70-168 | the first distinct logged versions above the cursor, ascending, up to the limit |
| SyncExtract.Service.ExtractBatch | internal/memsync/service.go:70-168 | a batch carries the changes of the lowest unseen versions, each once and in replay order, under its own peer, namespace and hashes; its max version is the greatest of them, and exactly the other versions are unseen from there on |
| SyncExtract.OneRound | internal/memsync/service.go:70-168 | the max version of a non-empty batch leaves pending exactly the versions it does not carry |
| SyncExtract.PagingLossless | internal/memsync/service.go:70-168 | following the largest versions emits every pending change exactly once, in order, for any limit |
| SyncExtract.PagingEmitsUnseen | internal/memsync/service.go:70-168 | following the max version of each batch emits every change of an unseen version once, in replay order, and no other |
| SyncExtract.PagingRounds | internal/memsync/service.go:70-168 | it takes the number of distinct versions over the limit, rounded up |
| SyncExtract.RoundsAreWhole | internal/memsync/service.go:70-168 | no version is split across batches |
| SyncApply.Service.CollectCandidates | internal/memsync/service.go:371-399 | the single pass with a mutable map yields each touched memory once, in order of appearance, with the fold of its own changes |
| SyncApply.Service.EvaluateBatchVerification | internal/memsync/service.go:371-425 | the pass equals the simple form that judges every touched memory on its own |
| SyncApply.Service.JudgeInOrder | internal/memsync/service.go:400-425 | candidates are judged in order and the first refusal wins |
| SyncApply.Service.QuarantineBatch | internal/memsync/service.go:347-358 | records the batch and the peer's error, and not twice under one id |
| SyncApply.Service.ApplyBatch | internal/memsync/service.go:170-242 | a batch is applied with its verdicts and cursor, or quarantined with the reason and nothing else changed |
| SyncReplay.TouchedExact | internal/memsync/service.go:371-399 | a memory is touched exactly when a change names it |
| SyncReplay.TouchedOnce | internal/memsync/service.go:371-399 | each touched memory once |
| SyncReplay.TouchedInOrder | internal/memsync/service.go:371-399 | in order of first appearance |
| SyncReplay.VerifiedIff | internal/memsync/service.go:371-425 | a batch verifies exactly when each touched memory alone folds to an unsigned or properly signed claim; then there is one verdict per memory, that of its own changes |
| SyncOutcome.VerifiesIffAllPass | internal/memsync/service.go:371-425 | a batch verifies exactly when each touched memory folds to a claim that is unsigned, or signed under a non-blank key on file for its origin peer |
| SyncOutcome.VerdictsRight | internal/memsync/service.go:400-425 | the verdict is missing signature exactly when the claim is unsigned, and valid exactly when its signature verifies |
| SyncOutcome.RefusalNames | internal/memsync/service.go:400-425 | a value no claim can take refuses the batch before any signature is judged; else the first memory that does not pass is named, with an unknown key or an invalid signature |
| SyncOutcome.AppliedIff | internal/memsync/service.go:170-205 | a batch is applied exactly when its hashes match, every memory passes and every change decodes |
| SyncOutcome.AppliedRight | internal/memsync/service.go:170-242 | an applied batch leaves every cell as it was or as a change that beats it, every touched memory with the right status, the cursor at its max version and the peer's error cleared, and nothing else changed |
| SyncOutcome.RefusedRight | internal/memsync/service.go:347-358 | a refused batch is quarantined with the first reason that applies, unless its id is taken |
| SyncOutcome.RowNamed | internal/memsync/service.go:427-439 | the memory a change speaks of: its key from the first letter or digit on, if that is not blank and the table is the memory table |
| SyncOutcome.StoredAsReadIff | internal/memsync/service.go:604-640 | what is verified of a text column is what is stored in it if and only if the value does not set a text and a number that reads otherwise |
| SyncReplay.InterleavingIrrelevant | internal/memsync/service.go:371-425 | interleaving changes of different memories alters no verdict |
| SyncReplay.MergeWritesNamed | internal/memsync/service.go:170-242 | a merge writes only cells the batch names |
| SyncReplay.SameClaimOnReplay | internal/memsync/service.go:441-532 | overlaying the batch on the merged row reaches the claim it reached first |
| SyncReplay.ReplaySafe | internal/memsync/service.go:170-242 | an applied batch is accepted again with the same verdicts, and applying it again changes nothing |
| SyncReplay.RefusalIsContained | internal/memsync/service.go:347-358 | a refused batch touches only quarantine and peer error |
| SyncReplay.MergedCell | internal/memsync/service.go:170-242 | each claim cell of a memory after the merge is decided by that memory's own changes and the stored cell alone |
| SyncReplay.KeptIsVerifiedIff | internal/memsync/service.go:371-399 | the row kept after a batch is the row verified if and only if every column the batch names for it is won by a cell that reads as its last change |
| SyncReplay.StatusOfKeptRow | internal/memsync/service.go:400-425 | where no column is lost, the recorded status is the verdict on the row now stored |
| SyncReplay.OlderChangeVerified | internal/memsync/service.go:371-425 | an older change is accepted as valid while the newer stored body stays, on which that verdict would not be reached |
| Ranking.RankRetrievalRows | internal/memory/retrieval_units.go:611-645 | the cut of a sorted permutation of the rows |
| Ranking.MergeRetrievalCandidates | internal/memory/retrieval_units.go:234-251 | the mutable merge equals the fold of the candidates |
| Ranking.SortedUnique | internal/memory/retrieval_units.go:611-645 | one row per unit leaves one sorted order |
| Ranking.RankingDeterministic | internal/memory/retrieval_units.go:611-645 | with one row per unit the result depends on the set of rows only, not on their order or on how the sort treats it |
| Ranking.AddedBounded | internal/memory/retrieval_units.go:688-726 | for any row and context everything beside bucket and trust adds between 0 and 188.2, under both profiles |
| Ranking.BucketDominates | internal/memory/service.go:1554-1571 | with trust in [0, 1] a better bucket precedes a worse one whatever the rows and the other scores, under both profiles |
| Ranking.CutRespectsBuckets | internal/memory/retrieval_units.go:611-645 | with trust in [0, 1] the limit never drops a row while it keeps one of a worse bucket |
| Ranking.LoadedBounded | internal/memory/retrieval_units.go:200-213 | for the rows and statistics that recall loads the added part is positive and at most 148.2, under both profiles |
| Ranking.DominanceIff | internal/memory/retrieval_units.go:688-698 | the exact bound: over what recall loads a better bucket wins in every context and on every other measure if and only if the worse row is trusted by at most 8.518 above the better one |
| RankingLaws.BucketLaw | internal/memory/service.go:1554-1571 | private and validly signed rows are in the first bucket, rows of unknown peers in the last, all others between |
| RankingLaws.NewerFirst | internal/memory/retrieval_units.go:611-645 | of two rows that differ in age alone the newer comes first |
| RankingLaws.BetterRankFirst | internal/memory/retrieval_units.go:700-709 | of two rows that differ in one rank alone the better ranked comes first |
| RankingLaws.SourceLaw | internal/memory/retrieval_units.go:700-709 | better ranks score higher, a missing rank adds nothing, and the vector search counts for more, under both profiles |
| RankingLaws.TrustLaw | internal/memory/retrieval_units.go:688-698 | ten points of trust weigh as much as one signature bucket |
| RankingLaws.MatchLaw | internal/memory/retrieval_units.go:711-726 | a query in the subject counts fully, in the body three quarters, and else nothing |
| RankingLaws.SampleScores | internal/memory/retrieval_units.go:659-698 | the whole score of one row, under both profiles |
| RankingLaws.OrderLaw | internal/memory/retrieval_units.go:630-639 | ties go to the newer row and then to the lower unit id |
| RankingLaws.RankingShows | internal/memory/retrieval_units.go:611-645 | the result shows the best rows in falling order, as many as the limit allows |
| Ranking.MergedIsBest | internal/memory/retrieval_units.go:234-251 | a merged entry holds the unit's best ranks with the measures that go with them |
| Ranking.MergeOrderIrrelevant | internal/memory/retrieval_units.go:234-251 | the merge depends on the set of candidates only |
| Ranking.VectorAndLexicalCommute | internal/memory/retrieval_units.go:162-218 | merging vector or lexical candidates first gives the same map |
| MarkedText.PutThenRead | internal/cam/mcp.go:284-306 | for any markers and closing replacement, what is put is what is found |
| MarkedText.OrderedPutsCommute | internal/cam/mcp.go:284-306 | replacing an earlier and a later block gives the same text in either order |
| ManagedBlock.MarkerHoldsIff | internal/cam/mcp.go:285-286 | the begin marker of a name holds that of another exactly when the other name is a prefix of it or is marked inside it |
| ManagedBlock.UpsertThenRead | internal/cam/mcp.go:284-306 | a reader finds exactly the block that was written |
| ManagedBlock.AppendedText | internal/cam/mcp.go:299-305 | where no block of the name is there, its lines are appended behind a blank line and the file's own last line end |
| ManagedBlock.TrimmedBlock | internal/cam/mcp.go:287 | the block loses its trailing line ends and nothing else |
| ManagedBlock.OutsideIntact | internal/cam/mcp.go:288-297 | text before and behind a replaced block is unchanged |
| ManagedBlock.IdempotentIff | internal/cam/mcp.go:284-306 | a second upsert changes nothing if and only if the name was absent or its block terminated |
| ManagedBlock.OtherBlockIntact | internal/cam/mcp.go:288-297 | every other terminated block that does not overlap reads the same afterwards |
| ManagedBlock.UpsertsCommute | internal/cam/mcp.go:288-297 | upserts of two present blocks that lie apart commute |
| ManagedBlock.AppearsIffClash | internal/cam/mcp.go:288-289 | a written block makes another name appear present if and only if its begin marker holds the other's |
| ManagedBlock.NestedBlockLost | internal/cam/mcp.go:288-297 | a block that lies inside another and nowhere else is gone once the outer one is rewritten |
| ManagedBlock.NestedBlockWritten | internal/cam/mcp.go:284-306 | writing a block whose text is a block of another name, and then rewriting it, loses that other block |
| ManagedBlock.TwoBlocksApart | internal/cam/mcp.go:299-305 | two blocks written into a file without them are both found and lie apart, unless the first begin marker holds the second |
| ManagedBlock.WrittenBlocksCommute | internal/cam/mcp.go:284-306 | once both blocks were written into a file without them, rewriting them commutes |
| Framing.Reader.ReadString | cmd/memory-mcp/main.go:959-962 | up to the next newline, or the rest and an error |
| Framing.Reader.Next | cmd/memory-mcp/main.go:957-981 | one message or error of the stream, and the exact rest |
| Framing.Reader.AfterLengthHeader | cmd/memory-mcp/main.go:981-1003 | the header loop and the body: the last length counts, zero or less ends the input, a short body is an error |
| Framing.Reader.Serve | cmd/memory-mcp/main.go:219-228 | messages up to the first error |
| FramingRoundTrip.LineReadBackIff | cmd/memory-mcp/main.go:959-969 | which lines come back as they were sent |
| FramingRoundTrip.HeadersRead | cmd/memory-mcp/main.go:979-996 | the last declared length of a header block is used, whatever other headers stand around it |
| FramingRoundTrip.HeaderBlockReadIff | cmd/memory-mcp/main.go:957-1005 | a header block is read as its content, leaving exactly the rest, if and only if its first line is a length header and the last declared length is that of the content |
| FramingRoundTrip.ContentTypeFirst | cmd/memory-mcp/main.go:966-969 | a block whose first line is a content type is not read as its body: that line is delivered |
| FramingRoundTrip.FrameReadIff | cmd/memory-mcp/main.go:957-1005 | one frame of either form after any blank lines is read as its body, leaving exactly the rest, if and only if it is readable |
| FramingRoundTrip.FramesReadBack | cmd/memory-mcp/main.go:957-1005 | any list of readable frames of both forms is read back as exactly its messages, then end of input |
| FramingRoundTrip.ShortBodyFails | cmd/memory-mcp/main.go:996-1003 | a length below 1 ends the input and leaves the stream; a body cut short is an unexpected end, or the end of input when nothing is left |
| FramingRoundTrip.BadLengthFails | cmd/memory-mcp/main.go:981-996 | a length header without a number is an error at that line, first or later |
| FramingRoundTrip.LengthHeaderIff | cmd/memory-mcp/main.go:966-981 | a line is a length header exactly when it starts with the header name, in any case |
| Numerals.AtoiOfIntText | internal/memsync/service.go:642-653 | every 64-bit integer is read back from its text, and no other integer is |
| FramingRoundTrip.JsonLineOk | cmd/memory-mcp/main.go:1007-1016 | a JSON object on its own line is never taken for a header |
| FramingRoundTrip.LengthBlockOk | cmd/memory-mcp/main.go:1018-1029 | a block with the exact decimal length, with or without other headers, is a valid frame |
| NewtonRoot.Sqrt | internal/embedding/embedding.go:268-277 | twelve Newton steps: positive, and its square exceeds v by at least 0 and at most (v - 1)^2 / 4^12 |
| NewtonRoot.ExcessBound | internal/embedding/embedding.go:268-277 | after k steps the square exceeds v by at most (v - 1)^2 / 4^k |
| NewtonRoot.ExactIffOne | internal/embedding/embedding.go:268-277 | the root is exact if and only if v is 1 |
| NewtonRoot.Normalize | internal/embedding/embedding.go:253-266 | scales the vector in place by the inverse of the computed root; zero vectors stay |
| NewtonRoot.DirectionKept | internal/embedding/embedding.go:253-266 | a non-zero vector is scaled by one positive factor |
| NewtonRoot.NormBounds | internal/embedding/embedding.go:253-266 | the squared norm is at most 1 and falls short of it by a bounded amount |
| NewtonRoot.UnitIff | internal/embedding/embedding.go:253-266 | unit length is reached if and only if it was there before |
| HashBuckets.HashBucket | internal/embedding/embedding.go:242-251 | the byte loop gives the big-endian value of the digest modulo the dimension |
| HashBuckets.DigitsOf | internal/embedding/embedding.go:242-251 | that value has the bytes as its digits to the base 256 |
| HashBuckets.OrAdds | internal/embedding/embedding.go:248 | or-ing a byte into a shifted value adds it |
| HashBuckets.HornerStep | internal/embedding/embedding.go:247-249 | reducing at every byte keeps the remainder, and no intermediate value reaches 2^20 |
| HashBuckets.LocalEmbed | internal/embedding/embedding.go:170-195 | the vector is the normalised slot vector of the tokens, long tokens counted in bytes |
| HashBuckets.WeightLaw | internal/embedding/embedding.go:178-186 | a token weighs 1, a quarter more if it is long, and 0.15 more if it holds a digit |
| HashBuckets.SlotCollects | internal/embedding/embedding.go:178-192 | each slot holds the weights and half points of exactly what hashes to it |
| HashBuckets.SlotsConserve | internal/embedding/embedding.go:178-192 | the slots hold all weights and half a point per adjacent pair, whatever collides |
| HashBuckets.LocalNonZero | internal/embedding/embedding.go:170-195 | a text with a token never embeds to zero, no slot is negative, and the norm is at most 1 |
| HashBuckets.CompressEmbedding | internal/embedding/embedding.go:445-465 | the normalised vector of slot averages, empty for dimensions below 1 |
| HashBuckets.CountIs | internal/embedding/embedding.go:452-456 | slot counts differ by at most one: a slot holds every d-th value |
| HashBuckets.CompressionConserves | internal/embedding/embedding.go:445-465 | averages weighted with their counts add up to the original values |

## Left out

- DecisionTrace.TraceDecision: does not return the artifacts and transcript sources of the visited memories, two
  joins over tables that are not modelled.
- MemoryService.Service.PrepareStore: does not fill in the scope, check artifact spans or sign.
- MemoryService.Service.StoreInTx: does not write the verification state, signals, artifact spans and node index queue.
- MemoryService.Service.Store: leaves out the same tables as StoreInTx.
- MemoryService.Service.Promote: does not write artifact spans, nor take the source uri from one.
- MemoryService.Service.Publish: takes the redaction policy as valid; redaction is an arbitrary function of the text.
- SyncApply.Service.ApplyBatch: leaves out the namespace backfill of applied rows.
- LexicalIndex.Database.Insert: a connection without FTS5 on a database whose triggers are installed would fail on
  writes; this is not modelled.
- LexicalIndex.Database.Update: leaves out the same failure.
- Content hashes: SHA-256 is taken as injective, so contents are compared where the code compares hashes.
- Clocks, generated ids and the embedding provider are parameters; which items of a round the provider fails is too.
- Keyword classification, secret detection and redaction are arbitrary functions of the text.
- Base64, Ed25519 and the ranking of values inside cr-sqlite are arbitrary functions; the cell merge of cr-sqlite is a
  newest-version-wins merge addressed by the decoded primary key, and row deletions are not modelled.
- Signing of stored memories, artifact spans, signals, transcript artifacts and the sync-enabled check: no effect on
  the tables modelled here.
- The queue for memory nodes (`index_queue`, `memory_embeddings`) and `memory_fts` with its index: same loops and
  triggers over other columns. The full namespace backfill of the queue is not modelled either.
- Created and updated timestamps of rows, and trimming and default filling of ingest requests.
- Sync delivery end to end: the cursor that extraction reads is only written from inbound batches, so paging is a
  statement about `ExtractBatch` as a function of its cursor.
- Floating-point rounding: scores, roots and vectors are over real numbers.
- FNV-1a and the length of a token in bytes are arbitrary functions of the text.
- White space and lower case are ASCII in trimming and header names.
- The body buffer of a length header is not bounded; allocation failure for absurd lengths is not modelled.
- `ContextBuild`, `Explain`, `ListCandidates`, sync status and handshake checks, the superseded recall paths and
  the SQL candidate queries: single-branch or unused.
- HTTP servers and clients, the command line, process control and configuration loading.
