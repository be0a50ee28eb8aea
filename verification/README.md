# Verified model of the Legalise backend core

This project models, in Dafny, the parts of the Legalise backend whose correctness rests on more
than one function at a time, and proves what the code and its documentation promise about them:

- **The reconstructed audit timeline.** `reconstruct` merges three ordered tables page by page with
  a cross-source cursor. The specification is "sort every selected row by (time, source order, row
  id)"; the paged form is proved to refine it, over a fixed table and while the table grows.
  Modules `TimelineRows`, `TimelinePaging`, `TimelineDrain`.
- **The audit hash chain.** The canonical text, the append trigger under its per-scope lock run by
  interleaved transactions, the in-database verifier, the export and the offline verifier.
  Modules `Canonical`, `AuditChain`, `ChainProtocol`, `ChainExport`.
- **Chunking and indexing.** Boundary search, overlap and forced progress, and the stored index
  under failing embedders. Modules `Chunking`, `Indexing`.
- **Dependency cycles.** The depth-first search and its de-duplication. Module `Cycles`.
- **Matters, jobs, storage and grants.** One state machine of requests and worker steps, the grant
  ledger with its audit events, and the permission-expansion diff.
  Modules `Grants`, `Lifecycle`, `LifecycleService`, `Expansion`.
- **The sliding-window rate limiter.** Module `RateLimit`.

`dafny verify dfyconfig.toml` checks everything.

## How the model is set up

- Code that updates state is a class or a method with loops, proved against a function of the old
  state; the properties are lemmas about that function, over all inputs and all runs.
- Ids (UUIDs) are numbers or opaque text, timestamps are integers (microseconds). SQL compares row
  ids as UUIDs and Python compares their canonical text; the two orders agree on canonical text.
- SHA-256 is a function parameter. The tamper-evidence theorem assumes only that it does not collide
  on the texts hashed for the two files compared.
- The embedder is a function of the text; each batch call may raise. A clock reading is a parameter.
- HTTP requests are atomic. A worker job is two steps, start and finish, interleaved with requests.
  The queue delivers a job id once, and an enqueue that fails has not delivered it;
  `Lifecycle.RestartKeepsInvIff` and `Lifecycle.RefinishKeepsInvIff` say exactly what a second
  delivery of an ended job would break.
- Advisory locks are held to the end of the transaction, the chain head is read after the lock is
  taken, and different scopes may hash to one lock. Entry ids are never reused.
- The limiter's clock does not go backwards, and a route's limit does not change during a run.
- SQLAlchemy flushes a pending row before the next query, so a capability string a manifest lists
  twice is granted once.
- Storage objects are named by the matter whose prefix they lie under.

Where code and documentation disagree, or a promise holds only under a condition, the model follows
the code:

- The limiter's module text says one audit row is written per window. The code writes one whenever
  the count equals the limit, which can happen twice within an hour
  (`RateLimit.TwoAuditRowsInOneWindow`); `RateLimit.AuditedAgainIff` says exactly when.
- The comment on `_MODEL_ACCESS_ORDER` puts `required` below `delegated`; the table puts it above.
- The policy comment on `requires_reprompt` says any expansion asks again. Dropping gates does not:
  `Expansion.GatesCanBeDroppedSilently`.
- The timeline can be viewed one row per page, but while each view logs a row the query lists, such a
  drain never reaches the end. `TimelineDrain.ViewingEndsUnlessViewsAreListed` says exactly when
  every drain does: with two rows per page or more, always.
- `decode_cursor` says it turns every malformed cursor into a ValueError. A timestamp without a zone
  passes it and raises a TypeError later, exactly when a row remains; an id in another spelling than
  the canonical one passes too, and can cost the page rows (`TimelinePaging.Reconstruct`,
  `TimelinePaging.SkipsNothingIff`).
- The database verifier and the export each read the tables in several statements. A count mismatch or
  a failing file can therefore mean no more than an entry committed meanwhile, and it means exactly
  that on tables nobody tampered with (`ChainProtocol.EveryRunVerifies`, `ChainExport.EveryRunExports`).

## Model

| member | source | states |
|---|---|---|
| `TimelineRows.SortedUnique` | backend/app/core/audit_reconstruction.py:470-471 | rows with distinct (time, source order, id) keys have exactly one sorted listing, so "the timeline" is well defined |
| `TimelinePaging.StatusPushdownExact` | backend/app/core/audit_reconstruction.py:312-341 | stripping a source's prefix and comparing the status in SQL is the same as comparing the synthesised action |
| `TimelinePaging.WhereExact` | backend/app/core/audit_reconstruction.py:212-433 | each source's WHERE clause selects exactly the rows the documented source-agnostic filters describe, including the sources that return nothing |
| `TimelinePaging.CursorPredicateExact` | backend/app/core/audit_reconstruction.py:165-205 | the three cases together select exactly the rows whose global key exceeds the cursor |
| `TimelinePaging.QuerySourceExact` | backend/app/core/audit_reconstruction.py:212-251 | a source's query returns the first rows, up to its limit, of the whole timeline restricted to that source |
| `TimelinePaging.PullSources` | backend/app/core/audit_reconstruction.py:563-577 | whatever order the sources are visited in, the rows pulled are the first limit+1 timeline rows of every requested source, none twice |
| `TimelinePaging.MergeExact` | backend/app/core/audit_reconstruction.py:563-579 | sorting limit+1 rows per source reproduces the first limit+1 rows of the full timeline, and all of it when there are no more |
| `TimelinePaging.SkipsNothingIff` | backend/app/core/audit_reconstruction.py:152-162 | a cursor's spelling of its row id costs no row of any table iff it sorts no later than the next id's own text; a braced id always can |
| `TimelinePaging.RecheckRemovesNothing` | backend/app/core/audit_reconstruction.py:581-587 | the in-memory cursor filter removes none of the rows pulled, unless the cursor's spelling skips one that remains |
| `TimelinePaging.CutOfPullsIsPage` | backend/app/core/audit_reconstruction.py:579-600 | the page is the first min(limit, remaining) rows after the cursor, with a next cursor iff rows remain, exactly when the re-check skips no remaining row |
| `TimelinePaging.CursorRoundTrip` | backend/app/core/audit_reconstruction.py:95-162 | the cursor made from a page's last row decodes to that row's key, names its zone and spells its id canonically |
| `TimelinePaging.RequestedExactly` | backend/app/core/audit_reconstruction.py:538-546 | without names all three tables are asked, with names just those; the names accepted are the three |
| `TimelinePaging.TimelineAsPromised` | backend/app/core/audit_reconstruction.py:474-600 | column by column: a row of any of the tables is on the timeline iff its table is asked, it is of the matter and it meets every filter; earlier rows first, then by table, then by id |
| `TimelinePaging.RestAsPromised` | backend/app/core/audit_reconstruction.py:165-205 | what remains after a cursor is what is listed beyond the table, time and id it names |
| `TimelinePaging.Reconstruct` | backend/app/core/audit_reconstruction.py:474-600 | each of the four rejections happens exactly on its condition, in order; a cursor without a zone raises iff a row remains; otherwise the result is the exact page of the sorted union iff the cursor's spelling skips no remaining row, as no issued cursor does; a single page holds every row listed, of all three tables when none is named |
| `TimelineDrain.RestAfterCut` | backend/app/core/audit_reconstruction.py:165-205 | after a page ending at position k, exactly the rows beyond k remain |
| `TimelineDrain.Drain` | backend/app/core/exports.py:709-719 | following cursors ends, and the concatenated pages are every listed row, of all three tables when none is named, each once and in order, in the stated number of pages |
| `TimelineDrain.PageCountIsCeiling` | backend/app/core/exports.py:709-719 | that number of pages is the ceiling of rows over limit, one page when there are none |
| `TimelineDrain.NeverRepeats` | backend/app/api/audit.py:191-244 | while any rows are inserted between requests, the pages followed still list strictly increasing keys |
| `TimelineDrain.FinishedDrainIsComplete` | backend/app/api/audit.py:191-244 | a drain that ends has shown every row selected when it began, whatever was inserted meanwhile |
| `TimelineDrain.DrainBalance` | backend/app/api/audit.py:191-244 | in a viewing drain, what remains plus (limit - 1) per request plus the log rows that did not land ahead of the cursor is always what was there at the start |
| `TimelineDrain.ViewingDrainEnds` | backend/app/api/audit.py:191-244 | when each view logs one row and pages hold two or more, the number of pages is bounded by the rows present at the start, whatever timestamps the log rows get |
| `TimelineDrain.UnselectedViewsDrainEnds` | backend/app/api/audit.py:208-244 | when no log row lands ahead of the cursor, a finished drain has the pages it has over the fixed table, for every limit |
| `TimelineDrain.SingleRowPagesNeverEnd` | backend/app/api/audit.py:208-244 | with one row per page, two rows or more at the start and every view selected and logged later than all there is, each page is followed by another |
| `TimelineDrain.UnfinishedDrain` | backend/app/api/audit.py:208-244 | such drains exist, unfinished, in every length |
| `TimelineDrain.ViewingEndsIff` | backend/app/api/audit.py:191-244 | with views logged later than all there is, every drain ends iff limit is at least 2, or the timeline has at most one row, or some view escapes the query |
| `TimelineDrain.ViewingEndsUnlessViewsAreListed` | backend/app/api/audit.py:191-244 | the same on what a caller knows beforehand: limit, length, an end of the window, and filters that exclude views |
| `TimelineDrain.ShortTimelineEndsAtOnce` | backend/app/core/audit_reconstruction.py:589-594 | a timeline of at most one row is over after its first page |
| `TimelineDrain.AuditLog.GetReconstruction` | backend/app/api/audit.py:114-244 | not found, invalid invocation id and success exactly on their conditions; the page is computed before the view is logged; a successful view adds exactly its own row, a rejected one nothing |
| `TimelineDrain.AuditLog.ViewUpTo` | backend/app/api/audit.py:191-244 | viewing page by page until the end or `most` pages is a drain of the client; with limit at least 2 and `most` large enough it reaches the end; with single rows and every view listed it never does |
| `Canonical.DecimalRoundTrip` | backend/app/core/audit_chain.py:31-34 | the decimal length is all digits and reads back as the number |
| `Canonical.FieldRoundTrip` | backend/app/core/audit_chain.py:31-34 | a parser reads back exactly the value written and exactly what follows, even if the value holds digits, colons or newlines |
| `Canonical.LinesRoundTrip` | backend/app/core/audit_chain.py:132-135 | a parser undoes the rendering of any tuple of optional values |
| `Canonical.TextInjective` | backend/app/core/audit_chain.py:132-162 | equal canonical texts come from equal tuples |
| `Canonical.IntTextInjective` | backend/app/core/audit_chain.py:141-162 | different integers render differently |
| `Canonical.EntryTextIsNotLinkText` | backend/app/core/audit_chain.py:27-28 | no entry text equals any link text |
| `AuditChain.CanonicalFieldsInjective` | backend/app/core/audit_chain.py:103-130 | no column is left out: the hashed fields determine the entry |
| `AuditChain.AcceptedPinsEntries` | backend/app/core/audit_chain.py:218-354 | two entry tables accepted against the same rows agree in every column on every entry those rows name, unless the hash collides on their texts |
| `AuditChain.TamperingIsFound` | backend/app/core/audit_chain.py:293-344 | so any edit or removal of an entry that a row names makes the verifier reject |
| `AuditChain.LinkIssuesExact` | backend/app/core/audit_chain.py:255-290 | the version, sequence and previous-hash checks test exactly the next link of the row's scope |
| `AuditChain.RowsSoundStep` | backend/app/core/audit_chain.py:255-346 | reading one more row keeps the rows sound exactly when that row raises no issue |
| `AuditChain.IssuesNameFaults` | backend/app/core/audit_chain.py:261-344 | a row's issues carry exactly the codes due on it, and name the row |
| `AuditChain.NoIssuesIffSound` | backend/app/core/audit_chain.py:255-346 | no row raises an issue iff every row is backed by the entry it describes and every scope's rows are linked from sequence 1 |
| `AuditChain.VerifyAuditChain` | backend/app/core/audit_chain.py:218-354 | the issues are the count mismatch and each row's own against the last row read of its scope, in order; there are none iff the counts agree and the rows are sound, whatever each of its three reads saw |
| `ChainProtocol.NewRowLinks` | backend/alembic/versions/0030_audit_hash_chain.py:151-226 | the row the trigger writes describes its entry and extends its scope's chain by one, leaving other scopes linked |
| `ChainProtocol.CommitKeepsOther` | backend/alembic/versions/0030_audit_hash_chain.py:172-188 | one transaction's commit never invalidates the rows another has pending, because they cannot share a scope |
| `ChainProtocol.StepKeepsInv` | backend/alembic/versions/0030_audit_hash_chain.py:151-226 | begin, insert, commit and rollback each keep the chain invariant, even when scopes share a lock |
| `ChainProtocol.RunKeepsInv` | backend/alembic/versions/0030_audit_hash_chain.py:151-226 | so does every interleaving of them |
| `ChainProtocol.RunPublishes` | backend/alembic/versions/0030_audit_hash_chain.py:151-226 | after every run the committed entries are those of the transactions that committed, commit by commit, and nothing of one that rolled back |
| `ChainProtocol.LinkedUnique` | backend/app/core/audit_chain.py:229-233 | ORDER BY sequence has exactly one answer on a linked scope |
| `ChainProtocol.CountGrowsIff` | backend/app/core/audit_chain.py:240-249 | the number of entries in range differs between two moments iff one was committed in between |
| `ChainProtocol.EveryRunVerifies` | backend/app/core/audit_chain.py:218-354 | in every interleaving the committed chain is linked in every scope and its rows sound; the verifier accepts, overall and for any matter, iff no entry in range was committed between its count of entries and its count of rows |
| `ChainProtocol.AuditTables.InsertEntry` | backend/alembic/versions/0030_audit_hash_chain.py:381-389 | an insert adds the entry and exactly the triggered row, and keeps the tables valid |
| `ChainProtocol.AuditTables.Backfill` | backend/alembic/versions/0030_audit_hash_chain.py:245-315 | on a table of entries without a chain, the loop writes one row per entry in the order listed and leaves the chain valid |
| `ChainProtocol.QuietTablesStart` | backend/alembic/versions/0030_audit_hash_chain.py:381-390 | backfilled tables are a valid start for every run |
| `ChainExport.VerifyEntries` | backend/app/core/export_chain_verifier.py:123-147 | a complaint of a given kind names position i iff entry i has that fault |
| `ChainExport.CrossCheck` | backend/app/core/export_chain_verifier.py:159-182 | silent iff audit.json is absent or lists the same ids as the chain |
| `ChainExport.AuditAgreesListed` | backend/app/core/export_chain_verifier.py:159-184 | the ids agree iff each element's id is listed, a missing one as the text None, and nothing else is |
| `ChainExport.VerifyFile` | backend/app/core/export_chain_verifier.py:100-184 | no problem is reported iff the file passes: format, head, links, hashes, count and ids |
| `ChainExport.SameLinkSameEntry` | backend/app/core/export_chain_verifier.py:76-97 | one link hash pins down every hashed field of the entry, its sequence and its predecessor |
| `ChainExport.AgreeBack` | backend/app/core/export_chain_verifier.py:123-147 | from a shared link hash, two passing chains agree all the way back to the first entry |
| `ChainExport.HeadPinsChain` | backend/app/core/export_chain_verifier.py:123-157 | two non-empty passing files with one head hash are the same chain, unless the hash collides on their own texts: no edit, deletion, insertion or reordering |
| `ChainExport.HeadPinsDatabase` | backend/app/core/export_chain_verifier.py:123-157 | two databases whose matter rows are linked, backed and end in one chain hash hold the same rows and, in every column, the same entries, without a collision on their texts |
| `ChainExport.BuildChainFile` | backend/app/core/exports.py:494-541 | the export loop writes the inner join of rows and entries in order, with the last link as head |
| `ChainExport.ExportedEntriesOk` | backend/app/core/exports.py:494-519 | a linked and backed scope exports to entries that all pass offline |
| `ChainExport.ChainNamesEveryEntry` | backend/app/core/audit_chain.py:235-249 | equal counts and unique entry ids make the chain's ids exactly the matter's entry ids |
| `ChainExport.VerifiersAgree` | backend/app/core/exports.py:461-546 | whenever the database verifier accepts a non-empty matter, the export of that snapshot passes the offline verifier with its audit.json |
| `ChainExport.SnapshotExports` | backend/app/core/exports.py:461-546 | on one committed state the file passes iff audit.json lists exactly the matter's entries |
| `ChainExport.EveryRunExports` | backend/app/core/exports.py:461-506 | in every interleaving a matter with entries exports to a passing file iff no entry of it was committed between the read for audit.json and the read of the chain |
| `Chunking.CharactersListed` | backend/app/core/chunking.py:38-40 | white space, sentence terminators and closing marks, character by character |
| `Chunking.LastEndExact` | backend/app/core/chunking.py:53-68 | the break found is the end of a real boundary in the window and no boundary in the window ends later |
| `Chunking.BestBreakPrefers` | backend/app/core/chunking.py:43-70 | stated on the characters: the last blank line in the window wins, else the last line end, else the last sentence end, else the hard end |
| `Chunking.BestBreakMonotone` | backend/app/core/chunking.py:43-70 | moving the window forward never moves the break backward |
| `Chunking.EndsNeverDecrease` | backend/app/core/chunking.py:114-122 | a chunk that starts later never ends earlier |
| `Chunking.ChunkTextInLoop` | backend/app/core/chunking.py:73-143 | the loop computes the chunk function: error on a non-positive target, nothing for blank text, one chunk for short text, forced progress otherwise |
| `Chunking.ChunkTextGood` | backend/app/core/chunking.py:92-143 | offsets are exact slices of at most target characters, more than half of it unless last; only the last reaches the end; starts strictly increase, ends never decrease, no gap, overlap exact |
| `Chunking.ChunkTextCases` | backend/app/core/chunking.py:92-109 | an error iff the target is not positive, nothing iff the text is white space, one chunk of the whole text iff it fits |
| `Chunking.ChunksEndOnBoundaries` | backend/app/core/chunking.py:113-122 | every chunk but the last ends after the last blank line of its window, else the last line, else the last sentence, and at the hard end only when there is none |
| `Chunking.ChunksShareOverlap` | backend/app/core/chunking.py:109-141 | neighbouring chunks share the overlap asked for, clamped, and less only when the chunk before is that short |
| `Chunking.ChunksRebuildText` | backend/app/core/chunking.py:92-143 | the first chunk and each later one without its overlap spell out the text |
| `Chunking.SteadyProgress` | backend/app/core/chunking.py:137-141 | with overlap at most half the target, ends strictly increase and starts grow by at least target//2 + 1 - overlap |
| `Chunking.ChunkCountBound` | backend/app/core/chunking.py:111-143 | and the number of chunks is at most 1 + (n-1)/(target//2 + 1 - overlap) |
| `Indexing.EmbedAll` | backend/app/core/indexing.py:84-90 | batching by 64 equals a per-chunk map, and fails iff some needed batch fails |
| `Indexing.StoreRows` | backend/app/core/indexing.py:92-103 | one row per chunk, in order, with the embedding of its own text |
| `Indexing.IndexStepOthers` | backend/app/core/indexing.py:80-82 | indexing one document changes nothing of any other |
| `Indexing.IndexStepConsistent` | backend/app/core/indexing.py:46-113 | indexing keeps every document's rows what its status promises |
| `Indexing.ReindexIsPerDocument` | backend/app/core/indexing.py:116-139 | in a reindex each listed document ends as if indexed alone, whatever fails, and the rest are untouched |
| `Indexing.EveryRunConsistent` | backend/app/core/indexing.py:46-139 | after any sequence of uploads, body changes, indexings and reindexings, indexed documents store exactly their chunks with embeddings and empty, failed or pending ones store none |
| `Indexing.IndexedRowsRebuildText` | backend/app/core/indexing.py:46-113 | the rows of an indexed document spell out the body it was last indexed from |
| `Indexing.BodyIsIndexed` | backend/app/core/indexing.py:58-109 | indexing a document with text, when the embedder goes through on every 64 chunks, leaves it indexed with one row per chunk of its own body, each with its own embedding, and the rows spell out the body |
| `Indexing.NothingToIndex` | backend/app/core/indexing.py:64-77 | indexing a document without a body, or with a blank one, leaves it empty and without rows |
| `Indexing.FailureStoresNothing` | backend/app/core/indexing.py:84-113 | when a call it takes raises, the document is failed and nothing of it is stored |
| `Indexing.ReindexLikeIndexing` | backend/app/core/indexing.py:116-139 | a reindex leaves each document it lists as indexing that one alone would |
| `Indexing.NewBodyIsNext` | backend/app/core/indexing.py:58-64 | a new body is what the next indexing reads |
| `Indexing.DocumentIndex.IndexDocument` | backend/app/core/indexing.py:46-113 | delete, embed and insert in place come to the index step with the right status; a raising embedder is passed on and leaves `indexed_at` alone |
| `Indexing.DocumentIndex.ReindexMatter` | backend/app/core/indexing.py:116-139 | the reindex loop comes to indexing each document in turn, and the summary counts the outcomes |
| `Cycles.Neighbours` | backend/app/core/dependency_resolver.py:206 | the nodes searched next are exactly those an edge of the graph leads to |
| `Cycles.PushKeepsInv` | backend/app/core/dependency_resolver.py:204-205 | entering a node keeps `stack` a listing of `visiting` and a path of real edges |
| `Cycles.PopKeepsInv` | backend/app/core/dependency_resolver.py:208-210 | leaving a node keeps the invariant; while nothing was reported, every finished node's edges lead to earlier finished nodes |
| `Cycles.CycleFromStack` | backend/app/core/dependency_resolver.py:196-200 | the stack slice closed with the node is a simple cycle of real edges |
| `Cycles.Detector.Dfs` | backend/app/core/dependency_resolver.py:193-210 | every call terminates, restores stack and visiting, keeps the invariant, and visits its node or has reported a cycle |
| `Cycles.WalkLeadsBack` | backend/app/core/dependency_resolver.py:206-210 | with nothing reported, a walk only ever reaches nodes finished earlier |
| `Cycles.SameKeySameCycle` | backend/app/core/dependency_resolver.py:214-223 | two reported cycles with the same sorted vertices are the same list |
| `Cycles.RemoveRepeats` | backend/app/core/dependency_resolver.py:216-224 | the loop keeps the first cycle of every key |
| `Cycles.DetectCycles` | backend/app/core/dependency_resolver.py:185-224 | the result is empty iff the graph has no closed walk; each list is a simple cycle; none repeats; de-duplication drops only exact repeats |
| `Grants.CreateIsIdempotent` | backend/app/core/grants_lifecycle.py:365-427 | granting again adds no row and no event |
| `Grants.CreateKeepsSound` | backend/app/core/grants_lifecycle.py:304-433 | creating keeps keys unique and the ledger balanced on every matter |
| `Grants.RevokeRemovesOnlyThat` | backend/app/core/grants_lifecycle.py:458-476 | only the row with that id, of that user, at that matter goes |
| `Grants.RevokeKeepsSound` | backend/app/core/grants_lifecycle.py:436-497 | revoking keeps the ledger sound |
| `Grants.CascadeKeepsSound` | backend/app/core/matter_lifecycle.py:164-192 | the cascade removes exactly the matter's grants and keeps the ledger sound |
| `Grants.EveryRunSound` | backend/app/core/grants_lifecycle.py:304-497 | over every run, live grants on each matter equal created events less revocations less cascade counts, and keys are unique |
| `Grants.CheckIsAtOwnScope` | backend/app/core/capabilities.py:221-237 | a check is decided by the grants of its own exact scope alone |
| `Grants.GrantedUntilCascade` | backend/app/core/capabilities.py:221-261 | after a grant every declared string passes at that matter; after the cascade none does |
| `Grants.FoundRowsInTable` | backend/app/core/grants_lifecycle.py:365-378 | the rows reported as existing are rows of the table for keys that were asked for |
| `Grants.GrantedAsDeclared` | backend/app/core/grants_lifecycle.py:352-408 | the rows created are for declared strings, this user and this matter, and afterwards every declared string has its row |
| `Grants.GrantTable.CreateForCapability` | backend/app/core/grants_lifecycle.py:339-433 | success iff the capability is declared at matter scope; then every declared string is created, with one event naming the row, or reported as existing, and nothing else; otherwise no change |
| `Grants.GrantTable.RevokeGrant` | backend/app/core/grants_lifecycle.py:458-497 | a row goes iff it has the id, the caller as user and this very matter as scope; exactly that id goes and one event says so |
| `Grants.GrantTable.RevokeAllOf` | backend/app/core/matter_lifecycle.py:164-192 | the loop removes exactly the matter's rows and records their number once, if any |
| `Grants.GrantTable.RequireCapability` | backend/app/core/capabilities.py:221-272 | allowed iff a row has this user, module, capability and exact scope; a denial adds one event naming them, and no check changes a grant |
| `Lifecycle.NextKeepsInv` | backend/app/core/matter_lifecycle.py:69-198 | every request and worker step keeps the lifecycle invariant |
| `Lifecycle.WorkingMatterIsLive` | backend/app/core/matter_lifecycle.py:105-115 | a matter with an active export is not archived, so a finishing export writes under a live matter |
| `Lifecycle.TombstoneKeepsInv` | backend/app/core/matter_lifecycle.py:105-192 | the tombstone leaves nothing of the matter behind when it archives |
| `Lifecycle.ArchivedStaysEmpty` | backend/app/core/matter_lifecycle.py:69-198 | in every run an archived matter has no object, no grant and no active interactive job, and no user exceeds the cap |
| `Lifecycle.ArchivedForever` | backend/app/core/matter_access.py:33-61 | an archived matter stays archived for the rest of every run |
| `Lifecycle.StepIsForward` | backend/app/core/jobs.py:150-207 | archiving is final, owners never change, ended jobs never change |
| `Lifecycle.TombstoneAsPromised` | backend/app/core/matter_lifecycle.py:105-192 | table by table: nothing while an export is unfinished, nothing but the matter's objects when the purge fails, otherwise the matter archived, its objects and grants gone and all else kept |
| `Lifecycle.FailedPurgeLeavesMatterLive` | backend/app/core/matter_lifecycle.py:129-134 | a failed purge changes nothing but, possibly, the matter's own objects |
| `Lifecycle.RestartKeepsInvIff` | backend/app/worker.py:84-95 | starting an ended job again keeps the invariant iff it is a background job, or its matter is live and its creator below the cap |
| `Lifecycle.RefinishKeepsInvIff` | backend/app/worker.py:107-129 | once it has ended again, the invariant holds iff it is a background job, its matter is live, or it wrote no bundle |
| `LifecycleService.LoggedMove` | backend/app/core/jobs.py:150-207 | logging each status change keeps the audit log telling the whole life of every job: queued, then started unless it never could be, then ended once |
| `LifecycleService.LoggedPurge` | backend/app/core/matter_lifecycle.py:129-160 | and that of every matter: opened, closed at most once, purged at most once, the warning only when there was no export |
| `LifecycleService.Service.OpenMatter` | backend/app/api/matters.py:302-351 | the matter is the caller's and open, and one audit row says so |
| `LifecycleService.Service.CreateJob` | backend/app/core/jobs.py:90-147 | an export job is refused iff the user is at the cap, index jobs never are; a created job is logged as queued |
| `LifecycleService.Service.EnqueueOrMarkFailed` | backend/app/core/jobs.py:261-294 | the job is delivered, or failed, logged and answered with an error, never left queued |
| `LifecycleService.Service.UploadDocument` | backend/app/api/matters.py:384-581 | each answer exactly on its condition; the object, the job row, the queue and the job's trail after each, with the document kept when the queue is down; every invariant kept |
| `LifecycleService.Service.CreateExportJob` | backend/app/api/exports.py:103-143 | not found iff the matter is not the caller's live one, refused iff the caller has cap unfinished exports; the job row, the queue and the trail after each answer; every invariant kept |
| `LifecycleService.Service.CloseMatter` | backend/app/api/matters.py:801-850 | not found and conflict exactly on their conditions; an accepted close leaves the matter closed and all else as it was, and the log says so once, however often it is closed; every invariant kept |
| `LifecycleService.Service.GrantCapability` | backend/app/api/grants.py:115-205 | not found iff the matter is not live and the caller's, superusers aside; on success the declared strings are granted and nothing else; every invariant kept |
| `LifecycleService.Service.RevokeGrant` | backend/app/api/grants.py:213-232 | not found iff the matter or the caller's own grant at it is not there; on success exactly that id goes; every invariant kept |
| `LifecycleService.Service.StartDelivered` | backend/app/worker.py:53-95 | an invisible row leaves everything as it is, a missing matter fails the job, otherwise it runs; job row, queue and trail after each |
| `LifecycleService.Service.FinishRunning` | backend/app/worker.py:107-129 | the job ends as the pipeline did, a bundle is stored iff the export wrote it, the trail is queued, running and how it ended; every invariant kept |
| `LifecycleService.Service.TombstoneMatter` | backend/app/core/matter_lifecycle.py:69-198 | refusal, purge failure and success exactly on their conditions; on success the counts of exports and revoked grants, and the rows written: the deletion under the action given and the warning iff asked for and no export ever succeeded; every invariant kept |
| `LifecycleService.Service.DeleteMatter` | backend/app/api/matters.py:934-1012 | not found iff the matter is not the caller's live one; success archives it and logs `matter.deleted`, an error archives nothing and logs nothing; every invariant kept |
| `LifecycleService.Service.SweepMatter` | backend/app/tools/retention_sweep.py:127-147 | the same tombstone, logged as `matter.retention.purged` |
| `Expansion.Flatten` | backend/app/core/grants_lifecycle.py:88-174 | the extractor loops collect exactly the declared strings |
| `Expansion.RanksListed` | backend/app/core/grants_lifecycle.py:88-140 | the five tiers and the four levels of model access in their order, and no other names |
| `Expansion.WithinListed` | backend/app/core/grants_lifecycle.py:177-240 | key by key: an update is silent iff it reads, writes, sends and gates nothing new, adds no network use, and reaches no higher tier and no stricter model access |
| `Expansion.DetectExpansion` | backend/app/core/grants_lifecycle.py:177-240 | raises iff a tier is unknown; otherwise asks again iff the new snapshot permits something the old one did not; each of the eight reported differences is exact |
| `Expansion.CardIsFaithful` | backend/app/core/trust_ceremony.py:229-260 | the stored permission card of a valid manifest permits exactly what the manifest does, although it moves destinations, gates and the highest tier to the top |
| `Expansion.InstalledModule.Update` | backend/app/api/module_routes/installed_update.py:57-146 | an update is rejected, sent to a ceremony or stored exactly on its condition; whatever the updates, the installed manifest stays within the one the last ceremony granted |
| `Expansion.SilentChainNeverExpands` | backend/app/api/module_routes/installed_update.py:103-133 | no chain of manifests of any length, each compared with its predecessor's stored card and admitted silently, ends beyond its first manifest |
| `Expansion.SilentChainBoundsCapabilities` | backend/app/core/grants_lifecycle.py:99-142 | in particular everything each capability of the last version names is within the tier, model access, network use, reads, writes, destinations and gates of the first |
| `Expansion.GatesCanBeDroppedSilently` | backend/app/core/grants_lifecycle.py:51-64 | without its gates a valid manifest is still valid and its update passes silently, with no tier for the diff to raise on |
| `RateLimit.Limiter.Enforce` | backend/app/core/rate_limit.py:150-212 | delete, count, insert and audit in place come to the limiter's step and decision |
| `RateLimit.TableCountsAsHistory` | backend/app/core/rate_limit.py:169-184 | pruning forgets nothing a later call counts |
| `RateLimit.DecisionsMatchHistory` | backend/app/core/rate_limit.py:165-212 | every decision from the pruned table is the one the full history calls for |
| `RateLimit.AuditsMatchHistory` | backend/app/core/rate_limit.py:189-208 | so is every audit row |
| `RateLimit.DecidedByRecentOwn` | backend/app/core/rate_limit.py:165-210 | on the history alone: rejected iff the route has a limit and that many earlier attempts of its own, rejected ones included, lie within the 3600 seconds before; logged iff exactly that many do |
| `RateLimit.OthersDoNotMatter` | backend/app/core/rate_limit.py:177-184 | other routes and addresses never change a decision |
| `RateLimit.AtMostLimitAdmitted` | backend/app/core/rate_limit.py:165-210 | any closed window of 3600 s holds at most limit admitted attempts per route and address |
| `RateLimit.WindowBalance` | backend/app/core/rate_limit.py:165-187 | between two attempts of a key the count changes by attempts made less attempts expired |
| `RateLimit.TurnToRejectionIsAudited` | backend/app/core/rate_limit.py:189-208 | every change from admitted to rejected writes an audit row |
| `RateLimit.AuditedAgainIff` | backend/app/core/rate_limit.py:189-208 | a later attempt is audited again iff as many attempts expired as were made since, at least one |
| `RateLimit.TwoAuditRowsInOneWindow` | backend/app/core/rate_limit.py:37-39 | so two audit rows can fall within one window |

## Left out

- CursorRoundTrip: base64 and JSON are an invertible encoding or `Garbled`, so the round trip is that of the fields a cursor carries.
- Which rows a page shows when the cursor's spelling skips some: only that it is then not the right page.
- Timeline entry bodies (payload, actor, refs, costs) are not carried; selection and order do not depend on them.
- `estimate` of a page is bounded, not pinned, when more rows remain: it depends on how many rows each source contributed.
- The rendering of timestamps and UUIDs to text, and drift between the PL/pgSQL and Python recipes: both are one function here.
- JSON value types other than text in a hand-edited chain file: the offline verifier applies `str`, the model starts from the result.
- The offline verifier returns before the audit.json comparison on an empty chain; `VerifiersAgree` and `EveryRunExports` are about matters with at least one entry.
- Superuser rewriting, TRUNCATE and role grants of the audit tables: the model has only inserts.
- Building the dependency graph from manifests: the search takes the graph as given. The `except ValueError` branch of the search is never reached, because the stack lists the visiting set, and has no counterpart.
- UploadDocument: the document, version and body rows and their audit rows are not tables of the model; the stored object and the index job are.
- TombstoneMatter: the title and the extra payload of the deletion row are not carried.
- Upload validation, evaluation limits on uploads, text extraction, document versions and file materialisation: an upload is accepted or a no-op.
- Requests that interleave inside one another, and an upload whose storage write races a delete: requests are atomic.
- The guided-demo path, which can pick an archived matter, is not a step.
- `revoke`, `list_granted` and `grant_many` in capabilities.py ignore scope or wrap `grant`; they are not in the ledger's runs.
- Module installation and enablement checks before a grant.
- Audit rows of uploads and indexing: those of jobs, close and delete are modelled.
- Update checks other than the manifest schema's (entrypoint, dependencies) are one input.
- Sorting of reported differences: they are sets.
- Which limit a route has (environment overrides) and how the client address is found: both are inputs.
- Embedding numerics.
