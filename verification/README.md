# The managed-content engine, modelled and proved

This project models the part of the backend that keeps documents, their index, their search index,
their category tree and their conversations consistent, and proves what that code is for.  Each
database transaction is one atomic step; crashes, exceptions and other handlers come between
steps.  Rows that reference one document (or one attachment version, or one message) are kept
together in one record.  Clocks, random ids, hashes and Unicode normalisation are arguments.

| file | what it models |
|---|---|
| `ReclassificationPlan.dfy`, `ReclassificationEngine.dfy` | the saga that moves one published document to another category in the vector index, the parents database, the app database and the exported view, with compensation and boot recovery |
| `ContentLifecycle.dfy`, `ContentSteps.dfy`, `ContentStore.dfy` | upload, revision, publication, archive, restore and move of documents, the single publication worker, boot recovery |
| `AttachmentRecords.dfy`, `AttachmentContents.dfy`, `AttachmentIndex.dfy` | the attachment search index, field by field, and the leased OCR queue that feeds it |
| `Floors.dfy`, `TermMatching.dfy`, `FloorWords.dfy`, `Standing.dfy`, `StandingWords.dfy`, `Respelling.dfy`, `MissedWords.dfy`, `AttachmentSearch.dfy`, `TermMeaning.dfy`, `RecordSearch.dfy` | floor spellings, the match predicate and what it means, exactly which words its narrowing by n-grams serves, and what a search of the index returns |
| `CategoryForest.dfy`, `CategoryNumbers.dfy`, `CategoryStore.dfy` | the category forest, sibling numbers, two-phase renumbering |
| `KnowledgeScope.dfy`, `BulkRoots.dfy` | which categories a chat may search; which categories a bulk operation covers |
| `ConversationThread.dfy`, `ConversationRewind.dfy`, `ConversationRecord.dfy`, `ConversationRuntime.dfy` | versioned conversations: new turns, regenerations, edits |
| `ExternalMedia.dfy` | reconciling a share with a scan |
| `ObjectStore.dfy` | content objects shared by versions and previews, and their purge |
| `RateLimit.dfy` | the token bucket |

`dafny verify dfyconfig.toml` checks everything.

## How the model is set up

- **Faults of the saga.** Every store operation draws its fate from a schedule: it succeeds, fails
  before or after its write, is the point where the process dies before or after its write, or (a
  payload write) reaches only some of the points.  Between operations the schedule lets handlers
  rename or deactivate categories, change other items, and change this item while no job of it is
  active.  All results hold for every schedule.
- **What is assumed of callers.** A publication is requested for unarchived items only:
  `create_publication_job` never reads `archived_at` (`api/content_store.py:2877-2932`), and
  `RequestKeepsIff` says exactly what goes wrong otherwise.  Its read of the version row before
  `BEGIN IMMEDIATE` is modelled as part of the transaction.  A conversation's turns are serialised
  by its lock.  A share's scan lists each path once.  Listings by the category sort key are
  arguments: what `sorted` returns.
- **Where the code falls short of its promise** the code is modelled as it is, and the exact
  condition is proved: `SettleReachesSourceIff` (a torn payload write or a taken file name defeats a
  rollback, which then ends as `reclassification_rollback_failed`), `ReturnKeepsIff` (a rollback
  that brings a document back beside a namesake; `ReturnBesideNamesake` is an input),
  `RequestKeepsIff`, `ServedIff` and `FloorWordsIff` (words for which the n-gram narrowing loses
  texts; `UndergroundIsMissed` and `TwelfthFloorIsMissed` are inputs), `MoveListsIff` (a move that
  keeps its temporary code; `KeepTemporaryCode` runs into it), `RewindsOneTurn` (answers from
  before versions were kept; `LegacySourcesAreForgotten` is an input; an empty category choice
  comes back as no choice), `RegenerationReplacesAnswer` (an answer without sources shows those of
  the answer it replaces), `RetryIsExact` (a bucket that is not refilled).
- **What a step leaves is said field by field.** Where code and contract share a function of the
  model, a second statement says what that function leaves in the rows without naming it:
  `ContentSteps`, `AttachmentContents`, `ConversationRecord` and `TermMeaning` for their modules,
  and the contracts of the saga and of the category table.  Refusals are stated the same way: each
  code says which check failed.
- **Which words the narrowing serves.** Flooring rewrites floors before a text is compared with a
  word, but the grams are those of the text as stored.  A word's first three characters *stand* in
  its own floored text if they are there at a place that no floor can cover, whatever text comes
  before or after, or at the end of a floor none of whose spellings hides them.  `ServedIff` proves
  that, over all texts, exactly the floors 1 to 9 and the words that stand lose nothing, but for
  the one kind of word named under "Left out"; `OrdinaryWordsStand` says what that is for words
  that begin like no part of a floor, and `PlainWordsIff` what it is over texts that flooring
  leaves alone.
- **The file name index.** Searches for namesakes compare the newest file names; the unique index
  compares a column that items older than it do not have set.  The two agree once every column is
  set, and `ContentStore.Drive` says what holds before that.

## Model

| member | source | states |
|---|---|---|
| `ReclassificationEngine.Engine.Drive` | api/content_reclassification.py:453-634 | over any run of requests, worker turns and boots under any faults and interference: a job that ended `succeeded` left all four stores at its target; one that ended `failed` with any code but a failed rollback left all four at its source if they agreed when it was created; after a completed boot no job is active |
| `ReclassificationEngine.Engine.RecoverAfterCuts` | api/content_reclassification.py:453-527 | boot recovery cut off at any operation, any number of times, leaves in the end exactly what one uninterrupted rollback leaves |
| `ReclassificationEngine.Engine.Recover` | api/content_reclassification.py:614-634 | a boot that completes leaves no active job, and one that is cut off leaves every store either as it was or as rollback wants it; without faults the job fails with the code of the restart exactly if rollback reaches the source everywhere |
| `ReclassificationEngine.Engine.Run` | api/content_reclassification.py:545-611 | without faults a pending job succeeds if and only if the final transaction's checks hold; otherwise it fails with the code that names the check, as a namesake in the target gives `content_filename_conflict`; success leaves all stores at the target, the name the item's own, every step recorded in the job row, and the exported view listing exactly the published items |
| `ReclassificationEngine.Engine.RunPending` | api/content_reclassification.py:549-611 | the body of a run and its rollback: how the job ended, from the inputs, without faults |
| `ReclassificationEngine.Engine.Attempt` | api/content_reclassification.py:553-608 | the guarded body finishes exactly when the commit is admissible; otherwise the job is still running and the stores are in flight |
| `ReclassificationEngine.Engine.Publish` | api/content_reclassification.py:575-608 | from retagged indexes and a candidate view: done means `succeeded` with all four stores at the target |
| `ReclassificationEngine.Engine.RetagIndexes` | api/content_reclassification.py:555-574 | done means points and parents are at the target, counted, and the candidate view shows the item there; the item row is untouched |
| `ReclassificationEngine.Engine.Submit` | api/content_reclassification.py:80-168 | accepted exactly when permitted, no job is active and the item and target qualify; the job row fixes the identity of both categories, column by column; a refusal gives the code of a check that fails |
| `ReclassificationEngine.Engine.Rollback` | api/content_reclassification.py:453-527 | a succeeded job is left alone; a completed rollback ends the job as failed, without faults with the code it was given exactly if all stores can be brought back to the source |
| `ReclassificationEngine.Engine.RollbackActive` | api/content_reclassification.py:461-527 | without torn writes every store ends as it was or as rollback wants it; without faults all four as rollback wants them, and the code is the given one exactly if that is the source everywhere |
| `ReclassificationEngine.Engine.FinishRollback` | api/content_reclassification.py:462-527 | the job ends with the given code exactly if no compensation failed, and otherwise as a failed rollback that names the stages; without faults that is exactly if all four stores can be brought back to the source |
| `ReclassificationEngine.Engine.Compensate` | api/content_reclassification.py:462-512 | three independent compensations; the failures list names exactly those that failed, is empty only if everything is at the source and, without faults, whenever it can be |
| `ReclassificationEngine.Engine.RollbackPoints` | api/content_reclassification.py:462-484 | done means every point carries the source tag; no fault other than a torn write can leave points on both sides |
| `ReclassificationEngine.Engine.RollbackParents` | api/content_reclassification.py:485-506 | reading one row decides for all, because their update is one transaction |
| `ReclassificationEngine.Engine.RollbackView` | api/content_reclassification.py:507-514 | the candidate is discarded, and item and view go back |
| `ReclassificationEngine.Engine.RestoreAppAndView` | api/content_reclassification.py:427-443 | done means row and exported view show the source; a return that the file name index refuses leaves the view alone |
| `ReclassificationEngine.Engine.CommitItem` | api/content_reclassification.py:330-386 | the item moves only if nothing it was planned on changed and no namesake is in the target; otherwise nothing moves |
| `ReclassificationEngine.Engine.CompleteJob` | api/content_reclassification.py:389-424 | success is declared only for an item that is at the target, and recorded together with what the stores hold |
| `ReclassificationEngine.Engine.PatchPoints` | api/content_reclassification.py:260-281 | done means all points carry the wanted tag; without torn writes they are all as before or all settled, even if the call failed |
| `ReclassificationEngine.Engine.FetchPoints` | api/content_reclassification.py:227-241 | the paged scroll returns every point once, in order |
| `ReclassificationEngine.Engine.PatchParents` | api/content_reclassification.py:291-327 | all parent rows move or none |
| `ReclassificationEngine.Engine.StageVerify` | api/content_reclassification.py:581-607 | read-back passes only for the counts written and the target tags |
| `ReclassificationEngine.Engine.UpdateJob` | api/content_reclassification.py:194-213 | one row update; exactly when a terminal status was written, it is recorded together with what the stores hold |
| `ReclassificationEngine.Engine.Activate` | api/content_view.py:108-133 | done means the exported view is the generation and nothing is left of the old one; however a swap fails or is cut off, the view is not lost: the old one is exported or set aside, or the new one is exported |
| `ReclassificationEngine.Engine.RebuildView` | api/content_view.py:136-143 | done means the view lists exactly the published items, this one where the app database has it, and no generation is left over |
| `ReclassificationEngine.Engine.PrepareView` | api/content_view.py:50-96 | the generation shows the published, unarchived items, this one overridden |
| `ReclassificationPlan.SettleIsFixed` | api/content_reclassification.py:453-527 | a second rollback of the same job finds nothing to do |
| `ReclassificationPlan.PartialRollbackKeepsGoal` | api/content_reclassification.py:453-527 | a rollback that did only some of its writes has the same goal as one that did none |
| `ReclassificationPlan.SettleReachesSourceIff` | api/content_reclassification.py:462-514 | exactly when rollback can reach the source everywhere |
| `ReclassificationPlan.RetaggedSettles` | api/content_reclassification.py:462-514 | a rollback of retagged indexes, before the item was committed, reaches the source everywhere, with exactly the published items in the view |
| `ReclassificationPlan.ExportedShows` | api/content_view.py:50-96 | an exported view lists every published, unarchived item under its category and nothing else |
| `ReclassificationPlan.ReturnBlockedIff` | api/db_migrations.py:559-567 | a return is blocked exactly if the unique index would refuse the row at its source |
| `ReclassificationPlan.ClassifyIs` | api/content_reclassification.py:530-542 | a failure is recorded under its own code, an exception of a store under the code of the stage it struck |
| `ContentStore.Drive` | api/content_store.py:2253-2932 | any run of handlers, worker and boots keeps every document sound and the rows of the file name index apart, and never lets a head name an older version; file names are unique per category once every column is set, and before that only a rollback's return can end it |
| `ContentStore.HeadNumbersNeverFall` | api/content_publication.py:238-277 | the version number of a head never goes down over a run, archive and restore included |
| `ContentStore.EnteredIsUnique` | api/db_migrations.py:559-567 | once every column is set, the unique index keeps file names unique |
| `ContentStore.NamedKeeps` | api/content_store.py:180-207 | rewriting one document whose name is free keeps all documents sound, the index, and names unique |
| `ContentStore.NamesUniqueIff` | api/content_store.py:180-207 | unique file names means: no two unarchived documents of a category have the same newest file name |
| `ContentStore.NamesakesIff` | api/content_store.py:180-207 | two documents are namesakes exactly if both are unarchived, in one category, under one newest file name |
| `ContentStore.IndexUniqueIff` | api/db_migrations.py:559-567 | what the index keeps apart: the set columns of unarchived documents of one category |
| `ContentStore.ReplaceRefusal` | api/content_store.py:2316-2340 | why a row that replaces its namesake is refused |
| `ContentStore.RewrittenKeeps` | api/content_store.py:2764-2838 | archiving the namesake and writing the row: the index refuses it only where two namesakes already were |
| `ContentStore.ReturnKeepsIff` | api/content_reclassification.py:427-443 | exactly when bringing a document back keeps file names unique: no namesake is in the source category |
| `ContentStore.RefusedIff` | api/db_migrations.py:565-567 | the index refuses a return exactly where a namesake is and both columns are set |
| `ContentStore.ReturnBesideNamesake` | api/content_reclassification.py:427-443 | a concrete document older than the column that is brought back beside a namesake |
| `ContentStore.ReplacedFreesName` | api/content_store.py:2310-2340 | archiving the namesake found, if it is the only one, frees the name |
| `ContentStore.Store.FindConflict` | api/content_store.py:180-207 | finds a namesake if and only if there is one |
| `ContentStore.Store.Upload` | api/content_store.py:1781-1862 | accepted exactly for an active category and a free, valid name; the row, field by field; a refusal names the check that fails |
| `ContentStore.Store.ArchiveItem` | api/content_store.py:2503-2527 | accepted exactly if it may be archived; head gone, its live publication withdrawn, nothing else changed; a refusal names the check that fails |
| `ContentStore.Store.ReplaceConflict` | api/content_store.py:2316-2340 | only the very version the caller agreed to replace is archived, and nothing else changes; a refusal says why not |
| `ContentStore.Store.Revise` | api/content_store.py:2701-2874 | the new version exists, the old one is superseded unless it is the head, its namesake is archived, nothing else changed; a refusal gives the code of a check that fails, of a namesake that cannot be replaced, or of the index because of a second namesake |
| `ContentStore.Store.RestoreInto` | api/content_store.py:2310-2376 | restored in place of the namesake found; otherwise nothing changed, not even the namesake |
| `ContentStore.Store.Restore` | api/content_store.py:2253-2399 | exact outcome and exact refusals of a restore, also into another category, with what each code says |
| `ContentStore.Store.MoveItem` | api/content_store.py:2530-2624 | a draft moves exactly if it was never published and its name is free in the target; a refusal names the check that fails |
| `ContentStore.Store.Request` | api/content_store.py:2877-2932 | accepted exactly for a publishable version, which is then the newest |
| `ContentStore.Store.StartJob` | api/content_publication.py:112-159 | the worker takes a runnable job and marks its publication as indexing; when Office processing is off the job, its publication and its version are failed at once and nothing else changes; any other job is skipped |
| `ContentStore.Store.ReportStage` | api/content_publication.py:81-100 | a stage update of the running job is never refused |
| `ContentStore.Store.EndJob` | api/content_publication.py:174-199 | published: the job is done, its publication live, its version published and the head, the version of the former head superseded; otherwise the job is failed, its publication broken, its version failed and the head as it was; all other rows are untouched |
| `ContentStore.Store.RequestMove` | api/content_reclassification.py:80-168 | accepted exactly if published, idle and free of namesakes in the target; a refusal names the check that fails |
| `ContentStore.Store.CommitMove` | api/content_reclassification.py:330-386 | the committed move keeps file names unique |
| `ContentStore.Store.UndoMove` | api/content_reclassification.py:427-443 | the return is refused exactly when the unique index has the name in a set column, and keeps file names unique exactly if it is refused or meets no namesake |
| `ContentStore.Store.BootRecover` | api/content_publication.py:338-364 | every job that was running is failed with its publication and version, waiting ones still wait, all other rows are untouched |
| `ContentLifecycle.Archive` | api/content_store.py:2402-2500 | an archived document has no head and keeps its versions; soundness is kept |
| `ContentLifecycle.Revised` | api/content_store.py:2804-2850 | a revision keeps the document sound and cannot lower what the head may name |
| `ContentLifecycle.Restored` | api/content_store.py:2348-2371 | restoring an archived document keeps it sound, with nothing published |
| `ContentLifecycle.Moved` | api/content_store.py:2589-2608 | a draft moved to another category stays sound, with its column set again |
| `ContentLifecycle.RequestPublication` | api/content_store.py:2877-2932 | only the newest version can be requested; one active job at most |
| `ContentLifecycle.Promote` | api/content_publication.py:233-297 | the promoted version is the newest and becomes the head, through its own publication |
| `ContentLifecycle.Fail` | api/content_publication.py:300-335 | a failed job leaves the old head in place and the document sound; what its rows become is in `ContentSteps.FailIs` |
| `ContentSteps.FailIs` | api/content_publication.py:300-335 | the job is failed, its publication broken, its version failed, and no other row changes |
| `ContentSteps.PromoteIs` | api/content_publication.py:233-297 | the job is done, its publication live, its version published and the head, the former head's other version superseded, and no other row changes |
| `ContentSteps.BootIs` | api/content_publication.py:338-364 | exactly the running jobs are failed with their publications and versions |
| `ContentSteps.ArchiveIs` | api/content_store.py:2402-2500 | an archived document has no head, the live publication of its head is withdrawn, and no other row changes |
| `ContentSteps.ReviseIs` | api/content_store.py:2804-2850 | one draft version more; the newest before is superseded unless it is the head |
| `ContentSteps.ArchiveRefusal` | api/content_store.py:2402-2460 | each refusal of archiving names a check that fails |
| `ContentSteps.ReviseRefusal` | api/content_store.py:2701-2800 | each refusal of a revision names a check that fails |
| `ContentSteps.MoveRefusal` | api/content_reclassification.py:80-168 | each refusal of a reclassification names a check that fails |
| `ContentLifecycle.UpdateStage` | api/content_publication.py:81-100 | active jobs stay active and alone |
| `ContentLifecycle.Booted` | api/content_publication.py:338-364 | boot keeps a document sound and no job running |
| `ContentLifecycle.BeginMove` | api/content_reclassification.py:80-168 | only a published, idle document starts moving |
| `ContentLifecycle.RequestKeepsIff` | api/content_store.py:2877-2932 | a publication request keeps a document sound if and only if it is not archived, and otherwise the worker can give an archived item a head |
| `AttachmentIndex.Index.Drive` | api/image_ocr_jobs.py:31-213 | any interleaving of workers, handlers and clock: every document holds, field by field, what the version is to be found by; at most one active job per version and it is the newest attempt, jobs end once, heads never fall back, lost leases stay lost |
| `AttachmentIndex.LostStaysLost` | api/image_ocr_jobs.py:54-79 | an expired, re-leased, cancelled or finished lease can never be used again |
| `AttachmentIndex.EndsOnce` | api/image_ocr_jobs.py:181-213 | a job that took a terminal status never changes, and the head's attempt never decreases |
| `AttachmentIndex.Index.LeaseOcr` | api/image_ocr_jobs.py:54-74 | after expired leases are given back, the oldest pending job of all is leased under a fresh token, or none is pending |
| `AttachmentIndex.Index.OldestPending` | api/image_ocr_jobs.py:62-62 | minimal by creation time and id among all pending jobs |
| `AttachmentIndex.Index.FinishOcr` | api/image_ocr_jobs.py:181-213 | accepted exactly from the worker whose token the running job bears, before its lease ends; stale, failed, found or empty by the state of the version; found text is stored, in its place, with its grams; other ends and refused calls leave head and index as they were |
| `AttachmentIndex.Index.CancelOcr` | api/image_ocr_jobs.py:77-79 | nothing of the version waits or runs afterwards, and its index stays fresh |
| `AttachmentIndex.Index.EnqueueOcr` | api/image_ocr_jobs.py:31-51 | accepted exactly for unarchived images; a new attempt with the next number unless one is waiting or running; returns the one active job |
| `AttachmentIndex.Index.UpdateSearchMetadata` | api/content_search.py:216-226 | accepted exactly within the limits; description, project, joined tags and joined aliases are stored each in its own place; a refusal names the check that fails |
| `AttachmentIndex.Index.Reconcile` | api/content_search.py:93-103 | at most the limit is indexed, the result counts exactly the versions indexed, and fewer than the limit means every published attachment has a document |
| `AttachmentIndex.Index.CreateVersion` | api/content_store.py:1857-1860 | a new version is stored field by field with its file name and title in the index, and its image queued, in the same transaction |
| `AttachmentRecords.FinishedKeeps` | api/image_ocr_jobs.py:181-213 | failed and stale attempts touch neither head nor index; good ones replace both and keep the index fresh |
| `AttachmentRecords.IndexedKeeps` | api/content_search.py:68-90 | indexing makes document and terms what a fresh computation gives; `AttachmentContents.ContentsAre` says what that is |
| `AttachmentContents.ContentsAre` | api/content_search.py:68-90 | a sound document holds, each in its own place and with exactly their grams, the normalised file name, title, aliases, tags, project, description and the text of the newest attempt that ended well |
| `AttachmentContents.JoinedAppends` | api/content_search.py:76-77 | tags and aliases are joined with a space between them |
| `AttachmentContents.JoinedOne` | api/content_search.py:76-77 | no words join to nothing, one word to itself |
| `AttachmentContents.FinishIs` | api/image_ocr_jobs.py:181-213 | how an attempt ends and what that leaves: text of the newest attempt on an unchanged, current version is stored, any other end leaves head, document and terms alone |
| `AttachmentContents.DescribeIs` | api/content_search.py:216-226 | the metadata given is stored, each part in its own place, under the next revision |
| `AttachmentContents.EnqueueIs` | api/image_ocr_jobs.py:31-51 | a new attempt is queued at the end with the next number, unless one is waiting or running |
| `AttachmentContents.RequeueIs` | api/image_ocr_jobs.py:59-61 | exactly the expired leases are given back |
| `AttachmentContents.CancelIs` | api/image_ocr_jobs.py:77-79 | exactly the waiting and running jobs are cancelled |
| `AttachmentRecords.JobsRewritten` | api/content_search.py:74-75 | the index depends on the jobs through the ones that ended well alone |
| `AttachmentRecords.EnqueuedKeeps` | api/image_ocr_jobs.py:41-51 | attempts are numbered without gaps and at most one is active |
| `AttachmentRecords.RequeuedKeeps` | api/image_ocr_jobs.py:59-61 | giving back expired leases changes no finished job and no index |
| `AttachmentRecords.LeasedKeeps` | api/image_ocr_jobs.py:66-69 | a lease keeps the record sound and its token is new |
| `AttachmentRecords.CancelledKeeps` | api/image_ocr_jobs.py:77-79 | cancelling changes no finished job, no head and no index |
| `AttachmentRecords.DescribedKeeps` | api/content_search.py:216-226 | revisions count from 1 and the index is fresh |
| `AttachmentRecords.MovesTwice` | api/image_ocr_jobs.py:54-213 | what may become of jobs and heads composes over time |
| `AttachmentRecords.OnlyMissingAreOutOfDate` | api/content_search.py:93-99 | no step leaves a stale document: reconciliation can only find versions never indexed |
| `AttachmentRecords.IndexServesSearch` | api/content_search.py:68-90 | a sound record is indexed in the sense the search's completeness needs |
| `AttachmentRecords.SearchOverRecordsIsScan` | api/content_search.py:68-184 | over any sound records the narrowed search returns what testing every record returns, for the words the narrowing serves |
| `AttachmentSearch.SearchIsScan` | api/content_search.py:126-184 | the narrowed search returns what testing every row returns, for the words the narrowing serves; `TermMeaning.ScanReturns` says what that is |
| `AttachmentSearch.AcceptedIsCandidate` | api/content_search.py:144-184 | an accepted attachment passes the candidate filter, if a stored field that matches is one the word is served in |
| `TermMeaning.MatchIsAffirmed` | api/content_search.py:48-61 | a match means a place of the word that is not inside a longer number and that none of the seven negations, with spaces after it, stands in front of; for words whose occurrences cannot overlap, exactly that |
| `TermMeaning.ScanReturns` | api/content_search.py:126-184 | testing every row returns exactly those in which every word is matched by the path or by a field |
| `TermMeaning.ScanInOrder` | api/content_search.py:126-184 | and keeps their order |
| `TermMeaning.DeniedIsNotReturned` | api/content_search.py:57-60 | a row whose every text denies the word or lacks it is returned by neither |
| `TermMeaning.NoneOfIt` | api/content_search.py:57-60 | a concrete text that says there is none of it does not match |
| `TermMeaning.SecondOfTwoIsSkipped` | api/content_search.py:57-57 | a concrete word whose occurrences overlap: an affirmed one is skipped behind a denied one |
| `RecordSearch.RecordIsReturnedIff` | api/content_search.py:126-184 | the narrowed search returns a version exactly if every word is matched by its path, its stored document or, while it has none, its file name or title |
| `RecordSearch.RecognisedTextIsMatched` | api/content_search.py:74-79 | a word that the text an image was read to last affirms is matched |
| `MissedWords.ServedIff` | api/content_search.py:38-158 | over all texts a word loses nothing exactly if it means one of the floors 1 to 9 or its first three characters stand |
| `StandingWords.StandingWordsLoseNothing` | api/content_search.py:38-158 | a word that stands finds every text, however its floors are spelled |
| `StandingWords.OrdinaryWordsStand` | api/content_search.py:38-158 | a word that begins like no part of a floor stands exactly if flooring keeps its first three characters together |
| `Standing.StandingWasThere` | api/content_search.py:38-45 | a gram that stands in a floored text was in the text before flooring |
| `Respelling.Unspelled` | api/content_search.py:38-45 | every floored text is, up to the end of a floor it only begins, what flooring makes of one with every floor spelled another way |
| `Respelling.WasThere` | api/content_search.py:38-45 | what the respelled text still contains stood outside the floors |
| `MissedWords.UndergroundIsMissed` | api/content_search.py:38-158 | a concrete word and a text with a b-number that the narrowing loses |
| `FloorWords.FloorWordsIff` | api/content_search.py:144-158 | a floor word loses no text exactly if it means one of the floors 1 to 9 |
| `FloorWords.FloorWordsLoseNothing` | api/content_search.py:144-158 | single-floor words find every text in every spelling |
| `FloorWords.PlainWordsIff` | api/content_search.py:144-158 | another word loses no text that flooring leaves alone exactly if flooring keeps its first three characters together |
| `FloorWords.PlainWordsLoseNothing` | api/content_search.py:48-65 | a match in a text that flooring leaves alone leaves the word's gram in the index |
| `FloorWords.FloorsAreSpelled` | api/content_search.py:38-45 | a floor found after flooring stood in the text in one of the listed spellings |
| `FloorWords.TwelfthFloorIsMissed` | api/content_search.py:144-158 | a concrete word and text that the narrowing loses |
| `Floors.FloorTextTwice` | api/content_search.py:38-45 | flooring is idempotent |
| `Floors.CopiedPrefix1` | api/content_search.py:44-44 | text of the result in front of a floor token was copied from the input (Chinese floors) |
| `Floors.CopiedPrefix2` | api/content_search.py:45-45 | the same for b-numbers, with the character before |
| `Floors.Sub1Canonical` | api/content_search.py:44-44 | after the first substitution every Chinese floor is spelled one way |
| `Floors.Sub2KeepsCanonical` | api/content_search.py:45-45 | the second substitution creates no other spelling |
| `Floors.Sub2Fixed` | api/content_search.py:45-45 | no b-number is left for a second pass |
| `CategoryForest.MovedKeeps` | api/content_store.py:1254-1357 | a move keeps the forest, its levels, and no live category under a deleted one |
| `CategoryForest.MoveShiftsSubtree` | api/content_store.py:1254-1357 | a move shifts exactly the moved subtree by one constant and keeps it together |
| `CategoryForest.DeletedKeeps` | api/content_store.py:759-797 | a delete leaves no live category under a deleted one |
| `CategoryForest.CreatedKeeps` | api/content_store.py:836-912 | a new category extends the forest by one live leaf |
| `CategoryForest.CreatedIff` | api/content_store.py:868-935 | a category is created exactly under an active parent that mirrors no share and with a free name; its row, field by field; a refusal names the check that fails |
| `CategoryForest.MayMove` | api/content_store.py:1254-1299 | a permitted target is active and outside the moved subtree |
| `CategoryForest.ReachedIff` | api/content_search.py:15-22 | a recursive query reaches a row exactly if every step up from it is admitted |
| `CategoryForest.AllAdmittedIsUnder` | api/content_store.py:1270-1288 | the descendants query finds exactly the subtree |
| `CategoryForest.LiveAdmittedIsUnder` | api/content_store.py:447-456 | the live-descendants query misses no live descendant |
| `CategoryNumbers.NumberedOrder` | api/content_store.py:239-252 | zero-padded numbers list the siblings in exactly one order, the numbered one |
| `CategoryNumbers.TemporaryOrder` | api/content_store.py:239-252 | a row with a temporary code is listed last |
| `CategoryNumbers.SortedIsUnique` | api/content_store.py:239-244 | a strict order is the only result sorting can have |
| `CategoryNumbers.ParseNumber` | api/content_store.py:247-252 | a padded code reads back as its position |
| `CategoryNumbers.NumberLength` | api/content_store.py:247-252 | the codes of siblings have one length: two digits, or as many as their count has |
| `CategoryNumbers.ListingOrder` | api/content_store.py:239-244 | numbers come first by their values, other codes by their letters whatever the case; names decide between equal codes and ids between equal names |
| `CategoryNumbers.LowerIs` | api/content_store.py:244-244 | codes are compared with their ASCII letters in lower case |
| `CategoryNumbers.StringLessIff` | api/content_store.py:239-244 | strings are compared by the first character in which they differ |
| `CategoryNumbers.WithoutIsOthers` | api/content_store.py:1310-1313 | taking a category out leaves the others in their order |
| `CategoryStore.MoveListsIff` | api/content_store.py:1308-1347 | a move is listed where asked for exactly if some new sibling differs from its snapshot or the last place was asked for; otherwise the temporary code stays |
| `CategoryStore.KeepTemporaryCode` | api/content_store.py:1308-1347 | two categories created and one moved, after which it still has the temporary code |
| `CategoryStore.Catalogue.RewritePositions` | api/content_store.py:277-312 | renumbering numbers all rows or, if nothing differs from the snapshot, writes nothing; codes of live siblings stay unique |
| `CategoryStore.Catalogue.WriteTemporaries` | api/content_store.py:290-294 | codes are unique after every single update of the first phase |
| `CategoryStore.Catalogue.WriteNumbers` | api/content_store.py:295-311 | codes are unique after every single update of the second phase |
| `CategoryStore.CodeFreeIff` | api/db_migrations.py:1065-1069 | the unique index accepts an update exactly if no other live sibling bears the code |
| `CategoryStore.TooManyIff` | api/content_store.py:247-275 | siblings can be numbered up to 99,999 of them; the limit on the length of a code never matters |
| `CategoryStore.MoveChecksIff` | api/content_store.py:1240-1306 | the checks of a move let through exactly what is allowed, and each refusal names a check that fails |
| `CategoryStore.RequestedIsAsked` | api/content_store.py:1308-1328 | the new siblings as asked for: the moved category directly in front of the given one or last, the others in their order |
| `CategoryStore.RewrittenStamps` | api/content_store.py:284-311 | renumbering gives every row that it changes a new version, unless the move gave it one before |
| `CategoryStore.Catalogue.MoveCategory` | api/content_store.py:1227-1376 | accepted exactly for an admissible parent, a free name, a live sibling to precede and at most 99,999 siblings; the moved tree; the category directly in front of the one given or last, the other siblings in their listed order; the siblings left behind numbered in theirs; no row changed without a new version; a refusal names the check that fails and changes nothing |
| `CategoryStore.Catalogue.ShiftLevels` | api/content_store.py:1349-1357 | following row by row gives the moved tree |
| `CategoryStore.Catalogue.CreateAt` | api/content_store.py:875-951 | accepted exactly if the parent and the name are, and if it is confirmed or leaves all numbers as they are; afterwards the siblings list with the new one at its position and the others in their order, numbered 1..n; unconfirmed, no other code changed; no row changed without a new version |
| `CategoryStore.Catalogue.CreateWithCode` | api/content_store.py:897-936 | accepted exactly for an admissible parent and a free name and code; the row, field by field |
| `CategoryStore.Catalogue.UpdateNumber` | api/content_store.py:1171-1224 | accepted exactly for the current version, a position that exists and a confirmation if it moves; afterwards the siblings list with the category at its position and the others in their order; no row changed without a new version |
| `CategoryStore.Catalogue.DeleteCategory` | api/content_store.py:759-816 | accepted exactly if confirmed, current and unblocked; exactly the live subtree is deleted; the remaining siblings close ranks in their order; no row changed without a new version |
| `KnowledgeScope.VisibleIffEffective` | api/content_search.py:15-31 | the attachment search's query and the chat's memoised check admit the same categories on every forest |
| `KnowledgeScope.Resolver.ResolveCategoryScope` | api/knowledge_scope.py:30-98 | without a selection exactly what the attachment search shows; otherwise exactly the effective part at or below the selection, or the first token's error |
| `KnowledgeScope.Resolver.Walk` | api/knowledge_scope.py:90-98 | the stack walk ends and collects exactly the effective descendants of the selection |
| `KnowledgeScope.Resolver.Select` | api/knowledge_scope.py:74-88 | every token names a usable category, or the first that does not decides the error |
| `KnowledgeScope.NamedIs` | api/knowledge_scope.py:38-80 | a token names the row with that id, else the last row with that key, else the last row with that name |
| `KnowledgeScope.Resolver.IsEffective` | api/knowledge_scope.py:48-59 | the memoised recursion computes the check on the whole chain of ancestors |
| `KnowledgeScope.Resolver.IsFilterEffective` | api/knowledge_scope.py:61-72 | the same for the filter flag |
| `KnowledgeScope.PushKeeps` | api/knowledge_scope.py:92-97 | replacing an effective category by its children loses nothing still to be found |
| `KnowledgeScope.PopKeeps` | api/knowledge_scope.py:92-97 | dropping one that is not effective loses nothing either |
| `KnowledgeScope.WalkGetsLighter` | api/knowledge_scope.py:92-97 | why the walk ends: a category outweighs all its children |
| `BulkRoots.NormalizeRoots` | api/content_bulk_operations.py:66-95 | accepted exactly if every reference is good, or the first bad one's error; the roots are selected categories that cover exactly the selection's active subtrees, without overlap |
| `BulkRoots.RootsCover` | api/content_bulk_operations.py:66-112 | normalisation changes nothing about what is covered, across inactive categories too |
| `BulkRoots.RootsDisjoint` | api/content_bulk_operations.py:66-112 | no category lies below two roots |
| `BulkRoots.ListedOnce` | api/content_bulk_operations.py:98-112 | the subtree query lists no category twice |
| `BulkRoots.SubtreeIffActive` | api/content_bulk_operations.py:98-112 | the subtree query lists exactly what is active all the way up to the root |
| `BulkRoots.RedundantIff` | api/content_bulk_operations.py:81-94 | the upward walk finds a selected ancestor exactly if one lies above through active categories |
| `BulkRoots.IsRedundant` | api/content_bulk_operations.py:83-92 | the loop decides that |
| `BulkRoots.Collect` | api/content_bulk_operations.py:70-79 | every category once, or the first bad reference's error |
| `BulkRoots.CheckedIs` | api/content_bulk_operations.py:70-78 | a reference is good exactly if its category is there, active, live and of the version named; the two errors tell which it is not |
| `ConversationRewind.RewindsOneTurn` | api/conversation_runtime.py:615-676 | regenerating after any regenerations and edits starts from the messages and turn count before the turn, and from the same sources and query exactly if the answer before has versions |
| `ConversationRewind.WholeConversationRewinds` | api/conversation_runtime.py:242-676 | in a conversation begun under versioning the whole session is restored at every turn |
| `ConversationRewind.RedoneKeeps` | api/conversation_runtime.py:312-530 | regenerations and edits only add versions to the latest turn; numbering stays gapless and heads name the newest |
| `ConversationRewind.NewTurnKeeps` | api/conversation_runtime.py:531-587 | a new turn leaves all earlier rows as they are |
| `ConversationRewind.RegenerationReplacesAnswer` | api/conversation_runtime.py:102-115 | afterwards the thread shows the new answer in place of the old, its sources exactly if it has some or the message had none |
| `ConversationRewind.EditReplacesTurn` | api/conversation_runtime.py:102-115 | afterwards the thread shows the new question and its answer |
| `ConversationRewind.RewindForEditIs` | api/conversation_runtime.py:679-699 | an edit starts from the same session as a regeneration |
| `ConversationRewind.RegenerateIs` | api/conversation_runtime.py:441-530 | a regeneration adds one answer version and repoints the head |
| `ConversationRewind.EditIs` | api/conversation_runtime.py:312-440 | an edit adds one question version and one answer version bound to it |
| `ConversationRewind.OtherPlacesRefused` | api/conversation_runtime.py:621-637 | only the latest turn can be done over |
| `ConversationRecord.NewTurnRecords` | api/conversation_runtime.py:531-587 | the two rows a new turn adds, field by field |
| `ConversationRecord.RegenerationRecords` | api/conversation_runtime.py:441-530 | one more version of the latest answer, bound to the wording shown; an answer without versions keeps what it said so far as version 1 |
| `ConversationRecord.EditRecords` | api/conversation_runtime.py:312-440 | one more wording of the latest question and one more version of its answer, bound to it; a question without versions keeps its wording so far as version 1 |
| `ConversationRecord.ShownIs` | api/conversation_runtime.py:102-115 | a message is shown by its newest version, and as stored if it has none |
| `ConversationRecord.RewoundMessages` | api/conversation_runtime.py:640-661 | doing the latest turn over starts from the messages before it as shown, but for their policies |
| `ConversationRewind.LegacySourcesAreForgotten` | api/conversation_runtime.py:662-673 | a concrete conversation whose sources are not restored |
| `ConversationThread.MaxIndex` | api/conversation_runtime.py:385-389 | the next version index continues a gapless numbering |
| `ConversationRuntime.Conversation.Handle` | api/conversation_runtime.py:242-699 | requests keep the thread sound |
| `ConversationRuntime.Conversation.PersistTurn` | api/conversation_runtime.py:279-587 | the statements of the three branches add up to the specified thread |
| `ConversationRuntime.Conversation.StoreNewTurn` | api/conversation_runtime.py:531-587 | first branch |
| `ConversationRuntime.Conversation.StoreRegeneration` | api/conversation_runtime.py:441-530 | second branch |
| `ConversationRuntime.Conversation.StoreEdit` | api/conversation_runtime.py:312-440 | third branch |
| `ConversationRuntime.Conversation.HydrateSession` | api/conversation_runtime.py:242-262 | the session shows the heads of all messages |
| `ConversationRuntime.Conversation.PrepareRegeneration` | api/conversation_runtime.py:615-676 | the session before the latest turn, or a refusal |
| `ConversationRuntime.Conversation.PrepareUserEdit` | api/conversation_runtime.py:679-699 | the same from the question |
| `ExternalMedia.Source.Reconcile` | api/external_media.py:236-425 | after a successful scan the available entries are exactly the scanned files, one per path, and the counters are right; a failed one changes nothing |
| `ExternalMedia.Source.Apply` | api/external_media.py:288-374 | the loop gives every entry its fate and adds exactly the entries needed |
| `ExternalMedia.Source.MarkMissing` | api/external_media.py:376-382 | only what was available and not seen goes missing |
| `ExternalMedia.ScannedIsAvailable` | api/external_media.py:288-374 | every scanned file is available |
| `ExternalMedia.AvailableIsScanned` | api/external_media.py:376-382 | nothing else is |
| `ExternalMedia.StillOnePerPath` | api/external_media.py:277-382 | never two available entries for a path |
| `ExternalMedia.HistoryIsKept` | api/external_media.py:285-382 | entries keep their identity and a superseded one never returns |
| `ExternalMedia.LostCopyReturns` | api/external_media.py:299-312 | a lost copy that returns gets its old entry back, of several the one discovered last, and nothing else happens at its path |
| `ExternalMedia.AvailableBecomes` | api/external_media.py:290-319 | an available entry whose path was scanned is seen again, or superseded if the file is another |
| `ExternalMedia.UnseenBecomes` | api/external_media.py:376-382 | an entry whose path was not scanned goes missing if it was available, and stays as it is otherwise |
| `ExternalMedia.MissingStays` | api/external_media.py:299-312 | other missing entries stay missing |
| `ExternalMedia.NewFileGetsEntry` | api/external_media.py:313-374 | a file without an entry to keep or to bring back gets a new one |
| `ExternalMedia.NewEntryIsOfNewFile` | api/external_media.py:313-374 | no other file gets one |
| `ExternalMedia.ChangedAreSuperseded` | api/external_media.py:313-319 | the changed counter counts exactly the entries superseded |
| `ExternalMedia.ScanTwice` | api/external_media.py:236-425 | rescanning an unchanged share adds, changes and loses nothing |
| `ExternalMedia.LostAsBefore` | api/external_media.py:298-312 | looking up a lost copy mid-scan gives what it gave before the scan |
| `ObjectStore.Store.DeleteAppRecords` | api/content_trash_cleanup.py:516-558 | exactly the objects whose last reference goes are dropped, and references stay exact both ways |
| `ObjectStore.Store.PurgeItems` | api/content_trash_cleanup.py:561-643 | a batch keeps references exact whatever fails; the counters add up; exactly the deleted items' versions are gone |
| `ObjectStore.Store.PurgeOne` | api/content_trash_cleanup.py:590-634 | a failure before the transaction changes nothing; one after it leaves files, never dangling rows |
| `ObjectStore.Store.Register` | api/content_store.py:1811-1841 | an upload keeps references exact, also when it shares an object or does not commit |
| `ObjectStore.Store.Rename` | api/content_store.py:2793-2833 | a revision without new bytes shares the object |
| `ObjectStore.Store.AssociatePreview` | api/content_attachments.py:137-151 | replaced previews stay referenced through the history |
| `ObjectStore.OnlyOwnHashes` | api/content_trash_cleanup.py:516-526 | the hashes collected from an item are the only ones that can lose a reference |
| `ObjectStore.ExactIff` | api/content_trash_cleanup.py:516-526 | exact references mean: the bytes, the preview and every former preview of every version are stored, and nothing else is |
| `ObjectStore.LastReferencesIff` | api/content_trash_cleanup.py:516-558 | what is dropped with an item is what it refers to and no other item's version does |
| `ObjectStore.RemainingIs` | api/content_trash_cleanup.py:583-634 | a version is left exactly if its item was not deleted |
| `RateLimit.WindowBound` | api/rate_limit.py:52-72 | any window grants at most the capacity and what flows in during it |
| `RateLimit.RetryIsExact` | api/rate_limit.py:68-72 | the reported wait is exactly when the refused cost is granted, if it fits and the bucket is refilled |
| `RateLimit.After` | api/rate_limit.py:56-67 | tokens stay within 0 and the capacity |
| `RateLimit.FirstCall` | api/rate_limit.py:59-62 | a user's first call finds a full bucket |
| `RateLimit.LaterCall` | api/rate_limit.py:63-69 | a later one finds what was left and what flowed in since, up to the capacity |
| `RateLimit.WaitIs` | api/rate_limit.py:70-72 | a refused call reports the time in which its deficit flows in, or a minute if nothing does |
| `RateLimit.RateLimiter.TryAcquire` | api/rate_limit.py:52-72 | one call, one bucket, the others untouched |
| `RateLimit.RateLimiter.Serve` | api/rate_limit.py:52-72 | the bound for one user under any mix of requests of all users |

## Left out

- Qdrant, SQLite, file system and OCR service internals: stores are atomic or fail; file names in the exported view and read-only modes are not modelled, only which item is shown under which category.
- Views rebuilt by other jobs, and jobs of other items between an export and its activation: the view claim is for this item.
- `retry_reclassification_job` and jobs submitted through it: a new job under the same rules.
- Media transcripts in archive, restore, move and purge: more cases of the same kind; their file name column is never set.
- `force_delete_category`, the bulk archive and force-delete workers: they cancel jobs from outside.
- `update_category` and `rename_category`: they change names, codes and flags in place, not the structure; `update_category` can also reactivate a deleted row.
- Name and regular-expression checks of categories and titles, audit events, upload batches, permissions beyond a flag.
- Attachment query grammar, ranking, snippets and the result limit: they act on the same set of rows.
- Conversation titles, time stamps and abstention records.
- Mirrored folders of a share and replacement requests: they follow from the entries.
- RateLimit.RateLimiter.TryAcquire: floats are reals, so rounding is not modelled.
- CategoryStore.Catalogue.MoveCategory: takes the sorted listings as arguments; that a sorted listing exists is not proved for arbitrary codes.
- BulkRoots.NormalizeRoots: returns the roots in the order of the selection, not sorted by path.
- KnowledgeScope.Resolver.ResolveCategoryScope: returns a set of keys, not a sorted list, and takes tokens already stripped.
- ExternalMedia.Source.Reconcile: does not model the status and counters of the source and of the scan's run, only the entries and the result.
- MissedWords.ServedIff: leaves open words whose first three characters could be the end of a floor, do not stand, and are found a second time in the floored word, as in a word that names a floor twice: whether one text can hide both places depends on what stands next to each floor.
- CategoryStore.Catalogue.CreateWithCode: when name and code both clash with different siblings, which of the two errors is reported is not modelled.
- CategoryNumbers.LowerIs: codes and names are compared as stored; their NFKC normalisation and the case folding of letters beyond ASCII are not modelled.
