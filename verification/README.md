# The pipeline worker's publishing core, verified

The worker in `cmd/olw_worker` turns a project's raw files into a new wiki generation and publishes it. This project
models the parts of it where a mistake loses data or mixes up identities, and proves what they guarantee:

- **Journaled local publish** (`PublishJournal`, `RollbackPass`, `WorkspacePublish`). A vault with live outputs, stage and
  backup directories and a journal. Every rename, removal and journal write may succeed, fail with or without its effect,
  or be where the process dies; a removal that does not go through leaves anything of what it was removing.
- **Publishing to a bucket** (`ObjectStore`, `CloudProtocol`, `CloudInvariant`, `CloudSteps`, `CloudTheorems`,
  `CloudConflicts`, `CloudReceipts`, `CloudProgress`). Any number of workers share a lease, upload create-only generation
  objects, swap the current manifest and merge receipts. Each worker's program is a set of functions on its local state;
  the steps of different workers interleave freely, workers start and die at any time, and a request whose issuer saw an
  error may be served at any later time, more than once, or never.
- **Stable concept identities** (`WikiIndex`, `SyntoEntities`, `SyntoReading`, `ConceptMigration`, `ConceptReconcile`,
  `ConceptTheorems`, `ConceptResults`, `ConceptLifecycle`, `LifecycleTheorems`, `LifecyclePlans`). Regenerated IDs
  go back to the stable ones; concepts move between active and dormant, run after run.
- **Stable source identities** (`SourceReconcile`, `SourceCollapse`, `SourceTheorems`).
- **The live stream** (`ByteStrings`, `Utf8`, `StreamRedactor`, `RedactionTheorems`, `LiveEncoding`, `LiveTheorems`,
  `LivePipeline`, `LiveTransparency`). Secrets are redacted and bytes are escaped and framed while the output is still
  being written.
- **Text transformers**: the wikilink rewriter (`Wikilinks`, `WikilinkTheorems`, `WikilinkReading`, `ConceptRoutes`)
  and the annotation trailer (`Annotations`, `AnnotationTheorems`).
- **Bounded logs** (`PipelineLog`): failure records and the diagnostic sink.

`Options` and `Texts` hold what several of these share.

Code that works by changing things is modelled by classes and loops (`Vault`, `Store`, `Redactor`, `LiveStream`,
`Pipeline`, `DiagnosticSink`, and the planners' loops over maps); each method is proved equal to a specification, and the
results below are about these specifications. The members named `...Exactly` read what a specification gives, and when it
succeeds, off its inputs. Where Go iterates over a sorted key list, the loops here pick keys in any
order, and the outcome is proved not to depend on it.

Some guarantees that one might expect do not hold for all inputs; each is replaced by its exact condition:

- Redaction does not depend on how a stream is cut into writes if and only if no secret ends early inside another one
  (`RedactionTheorems.ChunkingIsInvisible`; `InnerSecretExposed` gives the failing writes).
- After a rollback that died or met failures, another one restores the old outputs if and only if no entry marked both
  published and replaced has had its backup moved back (`RollbackPass.RepeatedRollback`); once backups have been dropped,
  if and only if every replaced output survives in the backup or, unpublished, in its place
  (`WorkspacePublish.Vault.Rollback`; `LosingRollback` is a run that loses an output).
- A worker that is told of a commit conflict can still see its manifest become the current one if and only if its
  manifest write failed without an answer and the manifest it was built on is still current
  (`CloudConflicts.ConflictIsFinalWhenAnswered`; `CloudTheorems.ConflictCanBeCommitted` is such a run).
- An entity keeps its concept ID through a run if and only if it does not vanish while its slug goes to another concept
  (`LifecycleTheorems.BindingSurvives`; `UsurpedEntityIsForgotten` is a run in which it is lost).
- Reconciling a reconciled map again changes nothing if and only if no redirect target carries outer white space
  (`ConceptTheorems.ReconcilingAgainChangesNothing`; `SpacedTargetIsNotStable` is a map for which it fails). Distinct
  prior IDs are not needed for it.
- Stripping an annotation trailer gives back the page, and the transform is idempotent, if and only if nothing was
  appended or the page does not end in a carriage return (`AnnotationTheorems.StrippingUndoesAppending`,
  `TransformingTwiceIsOnce`).
- Recording a failure twice changes nothing the second time if and only if the log then has an event line, or is
  full-sized and the record is the same (`PipelineLog.AppendingIsOnce`; `SpoiledRecordIsRepeated` is a record that its own
  redaction has spoiled).

## Model

| member | source | states |
|---|---|---|
| WorkspacePublish.Vault.Publish | cmd/olw_worker/workspace_publish.go:370-481 | Wherever a publish stops, also inside its own rollback, one undisturbed recovery leaves all old outputs, or all new ones (the stage laid over the old) if the committed journal reached the disk: without condition when no rollback was begun or it went through, and otherwise exactly when the replaced outputs can still be had, which is put in terms of the journal's marks and of where the outputs are. When nothing goes wrong it succeeds exactly if the stage is there, the backup name is unused, the logs fit and no symbolic link stands where a staged output has to go; a link there always makes it fail, and then the old outputs stay |
| WorkspacePublish.Vault.Recover | cmd/olw_worker/workspace_publish.go:494-518 | A recovery that succeeds leaves exactly the outputs that the journal settles on, and no journal; one that fails or dies anywhere keeps what is known of the prior outputs, and with it the exact condition under which the next one restores them. When nothing goes wrong it succeeds exactly if there is no journal or a valid one |
| WorkspacePublish.Vault.Run | cmd/olw_worker/main.go:525-632 | Recover, stage and publish in this order: after any earlier publish that died anywhere, a run ends in what that one settled on or in its own generation laid over it, exactly under the conditions of publish and recovery; when nothing goes wrong, exactly if the journal is valid, the names are, and no link is in the way |
| WorkspacePublish.Vault.Rollback | cmd/olw_worker/workspace_publish.go:555-594 | The outputs are those of the pass, entry by entry, wherever it dies and whatever fails; what a later rollback by the journal on the disk relies on is kept throughout, even when that journal is one flag behind; the journal goes only when nothing has failed |
| WorkspacePublish.Vault.WriteJournal | cmd/olw_worker/workspace_publish.go:483-492 | A journal write takes effect whole or not at all, whatever it reports |
| PublishJournal.NewJournalFits | cmd/olw_worker/workspace_publish.go:131-155 | The journal that a publish starts with is valid exactly when its logs are few enough, all different, and named after valid executions |
| RollbackPass.QuietPass | cmd/olw_worker/workspace_publish.go:565-580 | A rollback pass in which every operation is done meets no failure |
| PublishJournal.RollbackRestores | cmd/olw_worker/workspace_publish.go:555-594 | Rolling a journal back gives the old outputs exactly when each replaced output is in the backup as it was, or unpublished in its place |
| PublishJournal.UndoRestores | cmd/olw_worker/workspace_publish.go:555-594 | A journal that leads back to the old outputs, entry by entry, restores all of them when rolled back |
| RollbackPass.PassKeeps | cmd/olw_worker/workspace_publish.go:565-580 | Every removal, complete or partial, and every restore keeps what rolling back by the disk's journal relies on |
| RollbackPass.RollbackIsExact | cmd/olw_worker/workspace_publish.go:555-594 | When a full rollback gives the old outputs: while no backup was dropped, when no backup of an entry both published and replaced is missing; while none was torn, when every replaced output is in the backup or unpublished in its place |
| RollbackPass.RepeatedRollback | cmd/olw_worker/workspace_publish.go:555-594 | A pass that died anywhere or met any failures, by a journal at most one flag ahead of the disk's, and then a full pass by the disk's: the old outputs are back exactly when no entry both published and replaced has had its backup moved back |
| WorkspacePublish.LosingRollback | cmd/olw_worker/workspace_publish.go:555-594 | A concrete rollback that dies after restoring an output, which every later successful recovery removes |
| CloudTheorems.ManifestsFormOneChain | cmd/olw_worker/cloud_publish.go:823-878 | For every interleaving, even with a lease reclaimed from a live holder, the manifests ever committed form one chain that ends in the current one; the first names none |
| CloudTheorems.CommitNamesWhatItOverwrites | cmd/olw_worker/cloud_publish.go:836-876 | Each step that changes the current manifest puts one in its place whose previous generation ID is that of the manifest it overwrites; the current manifest never goes away |
| CloudTheorems.CommittedFilesResolve | cmd/olw_worker/cloud_publish.go:840-858 | Every file entry of a manifest that was ever current resolves, then and in every later state, to an object with the recorded generation, size and digest |
| CloudTheorems.CommitListsItsOutputs | cmd/olw_worker/cloud_publish.go:840-868 | A manifest that becomes current lists exactly the outputs of the run that proposed it, each with its size and digest |
| CloudTheorems.OneHolder | cmd/olw_worker/lease_liveness.go:99-144 | With a truthful liveness probe at most one running worker believes that it holds the lease, and the lease object is its own |
| CloudTheorems.LeaseGoesByItsOwnDelete | cmd/olw_worker/lease_liveness.go:149-191 | A lease object disappears only by its creator's release or by a reclaim whose issuer read that very object and whose holder is an execution of this job, held by no running worker if the probe is truthful; it is never overwritten |
| CloudTheorems.ReceiptsAreNeverLost | cmd/olw_worker/cloud_publish.go:1465-1529 | However receipt merges interleave, a source's receipt changes only by a run that records that source, and its last-ingested fields only by a successful one |
| CloudTheorems.ReceiptsNeedAVerdict | cmd/olw_worker/cloud_publish.go:525-550 | Success receipts are issued only by a run whose manifest commit was confirmed and is in the chain; a run whose commit outcome is unknown never issues any |
| CloudTheorems.ConfirmedIsCommitted | cmd/olw_worker/cloud_publish.go:880-898 | A commit confirmed by its answer or by read-back is in the chain and all its files resolve |
| CloudTheorems.ConflictCanBeCommitted | cmd/olw_worker/cloud_publish.go:868-875 | There is a run of one worker, with any probe, in which a commit reported as conflicting becomes the current manifest: its write failed without an answer and was served after the read-back |
| CloudConflicts.ConflictIsFinalWhenAnswered | cmd/olw_worker/cloud_publish.go:868-898 | In every run, the manifest of a worker that was told of a conflict can still become current exactly when its manifest write had failed without an answer and the manifest it was built on is still current; a conflict that was the answer to the write is final |
| CloudConflicts.ConflictedCommitsWereLate | cmd/olw_worker/cloud_publish.go:868-898 | Whenever the manifest of such a worker becomes current, the store is serving a write that was left without an answer |
| CloudConflicts.ProposedByAWrite | cmd/olw_worker/cloud_publish.go:868-898 | Whoever was told of a conflict has made a manifest write, to which the above applies |
| CloudTheorems.AttemptsAreBounded | cmd/olw_worker/cloud_publish.go:1479-1529 | Receipt merges and lease releases are tried at most three times |
| CloudReceipts.NobodyLetsGoSilently | cmd/olw_worker/cloud_publish.go:420-552 | In every run, a worker that has held the lease and knows its verdict issues no lease delete and does not finish before it has looked the receipts up and written, for all its snapshots, a success or a failure by that verdict; unless the receipts object does not decode, a call for it failed without an answer, or three writes of it lost a race |
| CloudReceipts.VerdictIsRecorded | cmd/olw_worker/cloud_publish.go:525-550 | When a manifest write was answered or read back, the success is what is recorded in this way; when the read-back found another manifest, the failure is |
| CloudReceipts.LeaseIsGivenBack | cmd/olw_worker/cloud_publish.go:307-314 | No worker that has held the lease finishes before its lease object was deleted, or three deletes of it were issued |
| CloudProgress.UndisturbedRun | cmd/olw_worker/cloud_publish.go:420-552 | From any idle bucket whose manifest and receipts decode, with the lease free or held by an execution of the job that is reported dead, a worker with an unused generation ID whose calls are answered gets the lease, uploads its outputs, makes the manifest that lists them current, merges its success receipts and deletes its lease, and leaves all other objects alone; also when the answer to the manifest write is lost and the write is read back |
| CloudProgress.OvertakenRun | cmd/olw_worker/cloud_publish.go:525-540 | A worker whose manifest was built on one that is no longer current commits nothing, merges its failure receipts and deletes its lease |
| CloudProgress.ReclaimsExactly | cmd/olw_worker/lease_liveness.go:59-191 | A contender deletes a lease exactly when it decodes, its holder is an execution of the job, and that is reported as terminal or not found; a lease that has gone it tries to create |
| CloudSteps.StepKeeps | cmd/olw_worker/cloud_publish.go:420-552 | Every step of every worker, and every late request, keeps the protocol's invariant |
| CloudSteps.ChainServed | cmd/olw_worker/cloud_publish.go:864-868 | A conditional manifest write that goes through was built on the very manifest that it replaces |
| CloudSteps.PendingOk | cmd/olw_worker/cloud_publish.go:307-314 | A worker only issues requests that are in order: deletes of a lease generation it read or created, proposals built on what it read, receipts merged from what it read |
| ObjectStore.ConditionalHits | cmd/olw_worker/cloud_publish.go:260-291 | A generation-matched write or delete goes through exactly when the object is still the one its issuer had seen |
| CloudProtocol.Serve | cmd/olw_worker/cloud_publish.go:260-291 | One call on the store is what the protocol means by serving a request |
| ObjectStore.Store.Write | cmd/olw_worker/cloud_publish.go:260-281 | A write is refused exactly when its condition fails, and otherwise gets a fresh generation |
| ObjectStore.Store.Delete | cmd/olw_worker/cloud_publish.go:282-291 | A delete is refused exactly when the object is missing or of another generation |
| ObjectStore.Merge | cmd/olw_worker/cloud_publish.go:1465-1495 | The merge loop computes the merged receipts, skipping tombstones and sources that have changed meanwhile |
| ObjectStore.MergedKeeps | cmd/olw_worker/cloud_publish.go:1481-1495 | A merge leaves the receipts of all other sources alone, and a failure merge leaves every last-ingested field alone |
| ObjectStore.MergedRecords | cmd/olw_worker/cloud_publish.go:1465-1477 | A merge records every current source: a success with all that was ingested, a failure with the failed fingerprint |
| ObjectStore.MergedExactly | cmd/olw_worker/cloud_publish.go:1465-1495 | After a merge a source has the record of its last snapshot that is current and no tombstone, a failure on top of what it had; and without such a snapshot what it had |
| ConceptReconcile.ReconcileConceptIDMap | cmd/olw_worker/concept_reconcile.go:257-472 | The reconciliation succeeds exactly when prior rows, entities, names and redirects are valid and apart, and then gives the one renamed map |
| ConceptReconcile.ValidateConceptEntityMap | cmd/olw_worker/concept_reconcile.go:40-57 | An entity map passes exactly when its IDs are known and valid and no entity belongs to two IDs |
| ConceptReconcile.ReconciledOnce | cmd/olw_worker/concept_reconcile.go:257-472 | There is only one result: the order in which concepts and redirects are visited does not matter |
| ConceptResults.PriorExactly | cmd/olw_worker/concept_reconcile.go:257-285 | Prior rows are accepted exactly when they are valid, IDs and slugs correspond one to one in them, and no entity belongs to two IDs |
| ConceptResults.TranslatesExactly | cmd/olw_worker/concept_reconcile.go:316-366 | Stable IDs are given exactly when the prior rows are accepted, every concept is valid and, unless a prior row has its entity, takes neither another entity's slug nor a prior ID under a new slug, slugs differ, and no two concepts go back to the same prior one |
| ConceptResults.StableIDExactly | cmd/olw_worker/concept_reconcile.go:341-364 | A concept gets the ID of the prior row with its entity; if there is none, of the one with its slug; and else its own |
| ConceptResults.EntityExactly | cmd/olw_worker/concept_reconcile.go:368-391 | A concept ends up with its generated entity; without one, with that of the last prior row of its slug that has any; and else with none |
| ConceptTheorems.SlugsAndIDsCorrespond | cmd/olw_worker/concept_reconcile.go:324-366 | In the result, slugs and stable IDs correspond one to one, and the slugs are the generated ones |
| ConceptTheorems.PriorIDsAreNotReused | cmd/olw_worker/concept_reconcile.go:344-364 | In an entity-bound run a prior ID goes only to its own entity, or from an unbound concept to the one that has its slug |
| ConceptTheorems.EntityMapStaysValid | cmd/olw_worker/concept_reconcile.go:368-391 | The result passes the entity-map validation again: no entity ends up with two IDs, also when entities are inherited by slug |
| ConceptTheorems.RedirectsAreFlat | cmd/olw_worker/concept_reconcile.go:393-434 | Following the redirects of the result takes one hop from an ID that is not active to one that is |
| ConceptTheorems.ReconcilingAgainChangesNothing | cmd/olw_worker/concept_reconcile.go:257-472 | Reconciling the result again with the same rows gives the same map exactly when no redirect target has outer white space |
| ConceptTheorems.TrimmedBeforeOrAfter | cmd/olw_worker/concept_reconcile.go:403-419 | That condition can be read off the first run's input: the translated redirect targets are trimmed |
| ConceptTheorems.SpacedTargetIsNotStable | cmd/olw_worker/concept_reconcile.go:403-419 | A concrete map whose redirect target has outer white space after a successful reconciliation |
| ConceptLifecycle.PlanConceptLifecycle | cmd/olw_worker/concept_reconcile.go:695-786 | The planner fails exactly when a page that has to go dormant cannot be found; otherwise its map, writes and removals are the specified ones |
| LifecyclePlans.ActiveExactly | cmd/olw_worker/concept_reconcile.go:705-758 | A concept stays active, with its slug, exactly when it is bound to an entity that is active; otherwise it is dormant under its slug, its page is written among the dormant ones and removed from the wiki |
| LifecyclePlans.DormantExactly | cmd/olw_worker/concept_reconcile.go:716-762 | Dormant afterwards are, with the slugs they had last, just the concepts that lost their support, those that have vanished, and those that were dormant before and are not active |
| LifecyclePlans.BindingsExactly | cmd/olw_worker/concept_reconcile.go:748-753 | A vanished concept takes its entity along; no other binding changes, and nothing else in the map |
| LifecyclePlans.WritesExactly | cmd/olw_worker/concept_reconcile.go:764-776 | What is written are the pages of the dormant concepts and nothing else: that of the last prior row of the slug, or if it has none the one in the wiki |
| LifecyclePlans.MissingExactly | cmd/olw_worker/concept_reconcile.go:764-772 | The page of a dormant concept is missing exactly when neither of the two is there |
| LifecyclePlans.RemovalsExactly | cmd/olw_worker/concept_reconcile.go:716-783 | Removed are just the wiki pages of dormant concepts, those of prior concepts that go by another slug now, and the dormant pages of concepts that are no longer dormant |
| LifecyclePlans.NothingSinks | cmd/olw_worker/concept_reconcile.go:705-783 | When all concepts are bound to active entities and no prior slug is missing, nothing falls dormant; and if no slug changes identity and dormant concepts are carried over, nothing is written and no wiki page removed |
| LifecycleTheorems.ListConcepts | cmd/olw_worker/concept_reconcile.go:324-366 | The list handed to the planner holds each reconciled concept once, under its stable ID and slug |
| LifecycleTheorems.NobodyIsForgotten | cmd/olw_worker/concept_reconcile.go:704-756 | Active and dormant IDs are disjoint, and every prior ID is active or dormant or has its slug owned by a different stable ID |
| LifecycleTheorems.RemovalsHitNothingLive | cmd/olw_worker/concept_reconcile.go:719-780 | While no slug changes identity and the dormant concepts of the generated map are carried over from before, no planned removal hits an active concept's page or a dormant page written by the same plan |
| LifecycleTheorems.RebuiltMapsCarry | internal/wikiindex/wikiindex.go:699-733 | An index rebuild carries the dormant concepts over in this sense |
| LifecycleTheorems.BindingSurvives | cmd/olw_worker/concept_reconcile.go:695-786 | Through one entity-bound run a bound entity keeps its ID, active or dormant, exactly unless it vanishes while its slug goes to another concept |
| LifecycleTheorems.EntitiesKeepTheirIDs | cmd/olw_worker/concept_reconcile.go:788-1000 | Over any number of runs, each run's output map being the next one's prior, an entity once bound stays bound to its ID for as long as its slug is not usurped |
| LifecycleTheorems.UsurpedEntityIsForgotten | cmd/olw_worker/concept_reconcile.go:719-746 | A run in which a surviving concept takes over a vanished concept's slug and the vanished entity is forgotten |
| LifecycleTheorems.NextMapIsReadable | cmd/olw_worker/concept_reconcile.go:59-105 | While no slug changes identity and the dormant concepts are carried over, the map that a run leaves is one that the next run's snapshot accepts |
| SyntoEntities.MapEntityIDs | cmd/olw_worker/synto_adapter.go:1406-1559 | The entity map read off INDEX.json is injective; it binds a concept to the entity of the article that has exactly its slug, and never against the article that has its ID; only ordinary articles are left out; it succeeds exactly when nothing disagrees |
| SyntoEntities.EntityForSlug | cmd/olw_worker/synto_adapter.go:1561-1568 | The entity found for a slug has that slug, and none is found only when none has |
| SyntoReading.MapsExactly | cmd/olw_worker/synto_adapter.go:1406-1559 | The mapping succeeds exactly when prior rows, edges and articles are valid and pairwise different in what must differ, every active entity has its article, every concept can be bound to an article or is one without an entity, and no two are bound to one slug |
| ConceptMigration.PlanDirectRedirects | cmd/olw_worker/concept_reconcile.go:1042-1118 | Succeeds exactly when all wanted redirects are valid and consistent and lead to live entities, and then gives exactly the wanted ones |
| ConceptMigration.RedirectsExactly | cmd/olw_worker/concept_reconcile.go:1054-1105 | The redirects are just those of the generated map and of the active prior concepts, trimmed, and those from an active legacy ID to the entity that has its folded slug |
| ConceptMigration.MigratesExactly | cmd/olw_worker/concept_reconcile.go:1042-1118 | A migration exists exactly when generated concepts are entities with different folded slugs, active prior rows are valid, and all these redirects agree and lead from legacy IDs that are not active to entities that are |
| ConceptMigration.DirectRedirectsAreFlat | cmd/olw_worker/concept_reconcile.go:1054-1114 | Every redirect leads in one hop from a legacy ID that is not active to an active entity |
| ConceptMigration.LegacyConceptsResolve | cmd/olw_worker/concept_reconcile.go:1077-1105 | Each active prior legacy concept whose slug survives resolves to that slug's entity |
| ConceptMigration.AugmentLegacyEntities | cmd/olw_worker/concept_reconcile.go:579-682 | Gives an unbound legacy concept the one entity with exactly its sources when both are unique, and fails exactly on a bad proof or an entity that another concept has |
| ConceptMigration.AugmentingIsSound | cmd/olw_worker/concept_reconcile.go:666-681 | Only unbound active rows change, by an entity with exactly their sources, and entities stay apart |
| WikiIndex.NormalizeReachesFixedPoint | cmd/olw_worker/source_reconcile.go:138-147 | The bounded walk ends at a fixed point exactly when an unbounded one would reach any, and then at the same one |
| WikiIndex.AcyclicEnds | cmd/olw_worker/source_reconcile.go:138-147 | For acyclic translations the bounded walk always ends at a fixed point |
| SourceReconcile.ReconcileSourceIDMap | cmd/olw_worker/source_reconcile.go:32-136 | Succeeds exactly when sources are valid and apart and redirects do not collide, and then gives the one renamed map |
| SourceTheorems.SourceIDExactly | cmd/olw_worker/source_reconcile.go:77-102 | A source gets the ID that its raw path had, or keeps its own; its slug and its data go with it |
| SourceTheorems.SourcesFitExactly | cmd/olw_worker/source_reconcile.go:32-98 | Source IDs can be given exactly when in the prior sources IDs and raw paths correspond one to one, every generated source is valid and takes no known ID for a new raw path, and no two have one raw path |
| SourceCollapse.CollapseRegeneration | cmd/olw_worker/source_reconcile.go:165-288 | Folds exactly the pairs of known raw paths and fails exactly when one of them is not provably one source or shares a page, in whatever order the raw paths come |
| SourceTheorems.IDsKeepTheirRawPaths | cmd/olw_worker/source_reconcile.go:77-102 | No source ID, tombstones included, ever moves to another raw path, and a known raw path keeps its ID |
| SourceTheorems.OnePagePerRawPath | cmd/olw_worker/source_reconcile.go:85-88 | After the reconciliation every raw path has exactly one source |
| SourceTheorems.PairEndsAsOneSource | cmd/olw_worker/source_reconcile.go:205-277 | A provable regenerated pair ends with the prior ID on the new slug, the old slug a redirect of that ID, and the old page removed |
| SourceTheorems.RemovedPagesAreNotWritten | cmd/olw_worker/source_reconcile.go:408-473 | No page is both removed and written |
| StreamRedactor.Redactor.Write | cmd/olw_worker/live_stream.go:338-359 | A write, taken in blocks, emits and holds back what the pass over each block says |
| StreamRedactor.Redactor.FirstSecret | cmd/olw_worker/live_stream.go:396-409 | Finds the leftmost secret, and the longest one there |
| StreamRedactor.Redactor.LongestSecretPrefixSuffix | cmd/olw_worker/live_stream.go:411-429 | Finds the longest tail that begins a longer secret |
| RedactionTheorems.StreamedSource | cmd/olw_worker/live_stream.go:338-394 | For any secrets and writes nothing is lost or invented: text and marked secrets put together are the input |
| RedactionTheorems.RedactionIsSound | cmd/olw_worker/live_stream.go:338-394 | For any secrets and writes only secrets are replaced, and no stretch between two markers contains a secret |
| RedactionTheorems.PendingIsShort | cmd/olw_worker/live_stream.go:411-429 | What is held back between writes stays shorter than the longest secret |
| RedactionTheorems.StreamIsMask | cmd/olw_worker/live_stream.go:338-394 | When no secret ends early inside another, the output is leftmost-longest replacement over the whole input, however it was cut |
| RedactionTheorems.ChunkingIsInvisible | cmd/olw_worker/live_stream.go:338-394 | That holds for all ways of cutting exactly when no secret ends early inside another |
| RedactionTheorems.InnerSecretExposed | cmd/olw_worker/live_stream.go:361-394 | Otherwise two writes that differ from it: the outer secret but its last byte, then that byte |
| LiveEncoding.LiveStream.EncodeLiveData | cmd/olw_worker/live_stream.go:193-220 | Splits the stream into runes and escapes, keeping an incomplete rune for later |
| LiveEncoding.LiveStream.Emit | cmd/olw_worker/live_stream.go:165-172 | An emission moves the encoder's state and output as specified |
| LiveTheorems.RoundTrip | cmd/olw_worker/live_stream.go:193-243 | A reader of the three escapes gets back exactly the bytes that were encoded, invalid UTF-8 and the escape rune included |
| LiveTheorems.EncodedConcat | cmd/olw_worker/live_stream.go:193-220 | Encoding does not depend on where the stream was cut, not even within a rune |
| LiveTheorems.FedTwice | cmd/olw_worker/live_stream.go:165-243 | Two emissions have the effect of one with both texts |
| LiveTheorems.FramedBounded | cmd/olw_worker/live_stream.go:222-243 | Laying out tokens keeps every line prefix below the limit |
| LivePipeline.LiveOutputReadsBack | cmd/olw_worker/live_stream.go:139-180 | For any secrets and writes, decoding the live output gives exactly the redacted text, and no physical line exceeds 16384 bytes |
| LivePipeline.LiveOutputIgnoresCuts | cmd/olw_worker/live_stream.go:139-180 | When no secret ends early inside another, the bytes on the live destination do not depend on how the text was cut |
| LiveTransparency.OrdinaryTextIsCopied | cmd/olw_worker/live_stream.go:193-243 | Redacted text in valid UTF-8, without the escape rune and with lines that leave room for a continuation mark, reaches the live destination byte for byte |
| LiveTransparency.DecodesExactly | cmd/olw_worker/live_stream.go:193-220 | A rune is decoded exactly when the bytes begin with the encoding of a Unicode scalar value, and then it is that one |
| LiveTransparency.WaitsExactly | cmd/olw_worker/live_stream.go:193-220 | Bytes are held for more input exactly when they are a proper beginning of such an encoding |
| LivePipeline.Pipeline.Close | cmd/olw_worker/live_stream.go:303-325 | Closing flushes redactor and encoder once |
| Utf8.FullRuneIsStable | cmd/olw_worker/live_stream.go:193-220 | Once a rune is complete, what follows does not change how it decodes |
| Wikilinks.RewriteWikilinks | cmd/olw_worker/concept_reconcile.go:1463-1506 | The scanning loop computes the segment-wise rewriting |
| Wikilinks.ScanFencedCodeBlock | cmd/olw_worker/concept_reconcile.go:1508-1559 | The fence scanner ends where the fence at that offset ends |
| Wikilinks.ScanInlineCodeSpan | cmd/olw_worker/concept_reconcile.go:1582-1607 | The span scanner ends at the first backtick run of the same length, or after one backtick |
| WikilinkTheorems.SegmentsAreTheText | cmd/olw_worker/concept_reconcile.go:1463-1506 | Fences, code spans, links and single characters together are the whole page |
| WikilinkTheorems.RewriteRelinks | cmd/olw_worker/concept_reconcile.go:1463-1506 | The result is the same segments with only the routed links replaced: code is copied |
| WikilinkTheorems.UnroutedPagesAreUntouched | cmd/olw_worker/concept_reconcile.go:1463-1506 | A page without a routed link is returned unchanged |
| WikilinkTheorems.SegmentsKept | cmd/olw_worker/concept_reconcile.go:1463-1619 | The rewritten page splits into the very segments of the page, routed links relinked: rewriting turns no text into code or links, and no code into text |
| WikilinkTheorems.RewritingTwiceIsOnce | cmd/olw_worker/concept_reconcile.go:1418-1506 | Rewriting twice is rewriting once when route targets are plain and no source |
| WikilinkReading.RewriteExactly | cmd/olw_worker/concept_reconcile.go:1439-1506 | The new page is the old one segment by segment; of a link, when what precedes its first bar or hash is routed after trimming, that part is replaced by the route and all the rest kept, and every other link, all code and all text stay |
| WikilinkReading.RewrittenLinks | cmd/olw_worker/concept_reconcile.go:1439-1506 | With plain routes these are also the links of the new page when it is read again |
| WikilinkReading.SegmentExactly | cmd/olw_worker/concept_reconcile.go:1463-1506 | Every segment is what the text from its place on begins with; fences are looked for at the start of a line only |
| WikilinkReading.NextExactly | cmd/olw_worker/concept_reconcile.go:1463-1506 | A text begins with its fence, else its code span, else a link that closes before any newline at the first closing brackets, else one character |
| WikilinkReading.FenceExactly | cmd/olw_worker/concept_reconcile.go:1508-1580 | A fence is three or more backticks or tildes after spaces and quote markers without four spaces in a row; it ends after the first later line of nothing but such markers, at least as many of them, and blanks, or with the text |
| WikilinkReading.SpanExactly | cmd/olw_worker/concept_reconcile.go:1582-1607 | A code span ends with the first later run of exactly as many backticks as it begins with; without one it is a single backtick |
| ConceptRoutes.BuildRoutes | cmd/olw_worker/concept_reconcile.go:1422-1437 | Exactly the links of renamed concepts are routed, bare and, for a safe slug, with it; each goes to the same link under the new ID, for the last concept that asks for it |
| ConceptRoutes.RoutesAreUnique | cmd/olw_worker/concept_reconcile.go:1422-1437 | This determines the routes |
| ConceptRoutes.RoutesAreOneHop | cmd/olw_worker/concept_reconcile.go:1422-1437 | Routes lead one hop if no new link of a renamed concept is an old link of one, and only then when no two concepts ask for the same link |
| ConceptRoutes.PlainIDsAreUnchained | cmd/olw_worker/concept_reconcile.go:1422-1437 | With IDs that hold no dash and no space at the end it is enough that no new ID is the old ID of a renamed concept |
| ConceptRoutes.RewritingTwiceWithRoutesIsOnce | cmd/olw_worker/concept_reconcile.go:1418-1459 | The same for the routes of a reconciliation whose IDs and slugs hold no bracket, backtick, newline, `#` or bar, and in which no new link is an old one |
| Annotations.StripSystemAnnotationTrailer | cmd/olw_worker/source_reconcile.go:840-892 | The loop over the lines computes the specified stripping |
| Annotations.SplitSourceLines | cmd/olw_worker/source_reconcile.go:902-915 | The loop computes the lines with their ends |
| AnnotationTheorems.StrippingUndoesAppending | cmd/olw_worker/source_reconcile.go:800-892 | Stripping an appended trailer gives back the exact page if and only if the page does not end in a carriage return, for marker-free page, ID and body |
| AnnotationTheorems.ForeignOrAlteredIsRefused | cmd/olw_worker/source_reconcile.go:840-892 | A page with an appended trailer is refused exactly when the trailer is of another source than the owner, or its digest is not that of its normalised body; otherwise the trailer is taken off |
| AnnotationTheorems.StrippingLeavesNoMarker | cmd/olw_worker/source_reconcile.go:840-892 | Whatever page stripping accepts, no marker is left and stripping again changes nothing |
| AnnotationTheorems.TransformingTwiceIsOnce | cmd/olw_worker/source_reconcile.go:800-810 | For a page that stripping accepts, and an ID and body without markers, stripping and appending twice is doing it once exactly when nothing is appended or the stripped page does not end in a carriage return |
| AnnotationTheorems.TransformingPlainPages | cmd/olw_worker/source_reconcile.go:800-810 | On a marker-free page that does not end in a carriage return the transform appends the trailer, and doing it again changes nothing |
| AnnotationTheorems.MaterializedSourcesStrip | cmd/olw_worker/synto_adapter.go:301-308 | The raw source can be had back from what the other writer of the trailer made of it |
| PipelineLog.Compose | cmd/olw_worker/cloud_publish.go:1359-1394 | A composed failure log stays within its limit and keeps the record whole on its own line after a prefix of the child's log, all of it unless the result is full; it fails exactly when record and marker cannot fit |
| PipelineLog.AppendFailure | cmd/olw_worker/cloud_publish.go:1254-1357 | Recording a failure leaves a log that has the event alone, and otherwise composes the record with the child's part, earlier markers taken off |
| PipelineLog.ChildPartExactly | cmd/olw_worker/cloud_publish.go:1329-1338 | The child's part is the log, cut at the limit, without the truncation markers at its end; it counts as cut exactly when there was one or the log was too long |
| PipelineLog.AppendingIsOnce | cmd/olw_worker/cloud_publish.go:1254-1357 | After a failure was recorded, recording one again changes nothing exactly when the log then has an event line, or is full-sized and the record is the same; it has one when the written record is still an event line |
| PipelineLog.SpoiledRecordIsRepeated | cmd/olw_worker/cloud_publish.go:1305-1357 | A record that redaction has made undecodable as an event is written a second time |
| PipelineLog.BoundedTwice | cmd/olw_worker/cloud_publish.go:1426-1432 | A bounded log is whole, or exactly limit-sized and ending in the marker; bounding again changes nothing |
| PipelineLog.DiagnosticSink.Write | cmd/olw_worker/main.go:964-1000 | What a sink takes is emitted or pending, in order and without loss; it refuses only when its buffer is full, and has then taken the beginning of the data |
| PipelineLog.DiagnosticSink.SafeEmit | cmd/olw_worker/main.go:1042-1060 | All that is due is emitted exactly when no secret, whole or begun, goes on past it; otherwise what comes before a place where one may begin |
| PipelineLog.DiagnosticSink.Close | cmd/olw_worker/main.go:1001-1035 | Closing hands over the bounded form of everything emitted |
| PipelineLog.SinkOutputIsWholeOrMarked | cmd/olw_worker/main.go:1010-1035 | The sink's output is the whole redacted text, or exactly limit-sized, a prefix of it followed by the truncation marker |

## Left out

- Clocks, random IDs, JSON, YAML and SQLite: models start from decoded values; timestamps and IDs are arbitrary, and no result needs them to be fresh.
- SHA-256 is any function; for annotations, one whose values are 64 hexadecimal digits.
- `generation.Manifest.Validate`, `storage.RetryGenerationCleanup`'s timeouts and `sourcestatus` validity: a run may fail at the points where they would refuse.
- The file system below renames and atomic writes: symlinks, permissions, fsync and temporary names.
- Staging, its validation, and the failure log that is published beside the outputs (`stageWorkspaceOutputs`, `publishWorkspaceFailureLog`).
- The bucket protocol is a step relation and not a class, because what matters in it is how workers interleave between their store calls; the store itself and the merge loop are imperative.
- Reading inputs and generation objects into a workspace, and the materialization budget: a run may give up there. What it would read of a committed generation is covered by `CloudTheorems.CommittedFilesResolve`.
- Failure logs and diagnostics in the bucket are writes by someone else to names that no result depends on; so are the raw files and annotations.
- Writers to the bucket other than workers (the service that rebuilds a generation) are not part of the protocol.
- A read-back compares decoded manifests; the comparison of raw bytes that precedes it decides the same.
- `enrichSyntoIndexWithAgentConcepts`, `filterUnmappedLegacyConcepts`, frontmatter and cache rewriting, and the evidence that two source pages are one source: the last is a parameter of `SourceCollapse`.
- LifecycleTheorems.RemovalsHitNothingLive: supposes that dormant concepts in the generated map are carried over from the prior one; the index rebuild does so (`internal/wikiindex/wikiindex.go`), other generated maps need not.
- LifecycleTheorems.NextMapIsReadable: supposes the same.
- PipelineLog.AppendingIsOnce: supposes that a record holds no newline and is not the text of the truncation marker; its JSON encoding, also after redaction, sees to both.
- ConceptReconcile.ReconcileConceptIDMap: leaves out the checks on a final entity ID and on two entities for one stable ID, which cannot fail after the checks before them; the list of reconciled concepts is unordered.
- Source paths of a concept are a set; the code compares sorted lists without duplicates.
- Text is a sequence of characters in the wikilink and annotation models: bytes that are not valid UTF-8 do not occur there. The live stream is modelled on bytes.
- The live pipeline's mutex and its second, durable destination, and what happens when a destination fails; secrets are taken in the order given.
- Several secrets that overlap at a cut: `DiagnosticSink.SafeEmit` looks at each in turn, and nothing is said about those it has looked at before it moved the cut.
- HTTP, authentication, configuration, command lines and deployment.
