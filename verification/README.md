# A verified model of a code-search index

This project models the parts of a local code-search service in which a mistake loses or corrupts data: how an
index generation is published and recovered, how the index stores are maintained incrementally, how the chunks of a
file are merged, how writers exclude one another, and five smaller kernels. The models follow the code branch by
branch; what is proved about them holds for every input, every run and every reachable state. `dafny verify
dfyconfig.toml` checks everything.

| module | models |
|---|---|
| `Faults`, `PublicationDisk`, `Publication` | the commit protocol of `CodeIndexManager` and its manifests, one durable change at a time, with a power cut or an I/O error possible at each |
| `IndexStore`, `FilePaths` | append-only vectors, the parallel id list with stale slots, metadata, full-text rows; path matching |
| `PathOrder`, `Merkle`, `Incremental`, `IncrementalRuns` | snapshots, change detection, and incremental runs against a full rebuild |
| `SourceText`, `ChunkLevel`, `ChunkLevelProperties`, `ChunkForest`, `ChunkMerging` | containment-aware merging of a file's chunks |
| `WriterLock` | the re-entrant, fork-aware file lock as an event machine over processes, threads and open file descriptions |
| `Vectors`, `PageRank`, `PageRankScorer`, `PageRankOrder` | the Personalized PageRank iteration, the scores made from it, and their independence of enumeration order |
| `DocumentCache` | the content-addressed cache in front of document encoding |
| `Frames`, `DirtyState` | the byte formats behind the dirty fingerprint and the index generation |
| `VoyageBatches` | grouping texts into requests |

Methods follow the code's loops and updates; each is tied to a function or a predicate, and the lemmas prove what
the code promises about that function. The environment is arbitrary: in `Publication` every durable change may fail
before or after it lands, as a plan chosen beforehand says, and so may every fallible action in `IncrementalRuns`; the
list of durable states reached is what a power cut can leave behind.

## Assumptions

- SHA-256 is injective. Blobs are compared instead of their digests, and the bytes fed to a digest stand for it.
- A file replacement, an unlink and a rename are single durable steps; directory trees and SQLite rows may disappear
  in pieces.
- The directory lock is held where the code takes it, and a generation token is unused when it is drawn
  (`FreshTokenExists` shows that there always is one).
- Chunks depend on path and hashed content only, ids are distinct and not shared between files, and the metadata
  names file and project (`WellBehaved`; `OneChunkPerFileIsWellBehaved` shows that the conditions can be met). A file
  that fails to chunk yields no chunks.
- Scores are exact reals. Encoders are deterministic per text, for given provider, model, input mode and dimension.

## What the models show about the code

Where the code does less than its comments say, the model keeps the code and proves exactly when the claim holds.

- Recovery with nothing ever committed removes root files with their `-wal` and `-shm` files, but not `-journal`
  files, which materialising does remove (`SidecarsAfterRecovery`).
- `clear_index` can be cut between the removal of `current.json` and `prior.json`. The comment in the code says that
  it then fails closed; in fact a verified prior manifest brings the older epoch back, and a manifest that does not
  verify, or verifies without validating, blocks recovery when it is the one left (`WhenClearIsSafe`, `ClearCanRevert`,
  `ClearCanBlock`).
- `save_index` can raise although its generation is committed: an error after the promotion of the manifest ends in
  the exception path, which then restores the new generation. `Publication.IndexStorage.FailAfterCommit` shows it for
  every index; by the contract of `SaveIndex` it happens exactly when all changes before the promotion succeed, the
  promotion lands, and it or the removal of the marker reports an error.
- A transaction starts with no vectors and no ids in memory, and only a removal or a batch of chunks loads them. A call
  that finds nothing but new files without chunks (empty or unsupported ones) therefore meets the truncation guard with
  an empty list: with five stored ids or more it is refused, the snapshot does not advance, and the same happens again
  on every call until another change or a full run comes (`GuardRefusesIff`, `ChunklessFilesBlock`, `EmptyFileBlocks`).
- A stop between `save_index` and `save_snapshot`, or inside the writing of the snapshot, leaves the next incremental
  run exact if and only if every path is reconciled (`AfterStopIffReconciled`); a file deleted in between keeps its
  chunks (`DeletedFileKeepsChunks`).
- A batch that names an id twice leaves two full-text rows for it (`RepeatedIdBreaksFts`).
- An absolute removal target matches every stored relative path that is a suffix of it
  (`AbsoluteTargetIsSuffixMatch`, `AbsoluteTargetCanOverreach`).
- The reset after a fork takes no lock. A thread whose check of the pid was overtaken by another thread of the child
  discards the state of a lock that may be in use. That is harmless if and only if no thread of the process is inside
  or has stored its handle and is about to be counted: runs whose late resets keep to this are exclusive throughout
  (`MutualExclusion`), and after any other late reset a second thread can get inside (`LateResetIsSafeIff`,
  `ClobberLetsSecondIn`, `LateResetBreaksExclusion`). That nobody is inside is not enough (`NobodyInsideIsNotEnough`).
  `OnlyCreatorsUnlock` holds for all runs.
- The stack of context pids is shared by the threads of a process and copied by a fork. Popped out of turn it makes
  the last holder leave without releasing (`LastLeaveReleasesIff`, `InheritedBlockCanStrandTheLock`).
- Two cache configurations that differ only in dimension share their rows and evict each other's; answers stay right
  (`EmbedTwice`).
- Texts are deduplicated only when the cache can be opened; without it a repeated text is encoded as often as it occurs
  (`EmbedDocuments`).
- `derive_index_generation` is injective on identities whose revision and fingerprint hold no NUL, which captured
  ones never do; in general it is not, and `GenerationIsUniqueIff` says for which identities it is.
- A piece of at least 2668 texts can be estimated above the service's own limit of 32000 tokens per document, since
  floors are summed when it is built (`PieceEstimateIsTight`).

## Model

| member | source | states |
|---|---|---|
| PublicationDisk.ReadingDependsOnNamed | search/epoch_manifest.py:309-424 | what a reader gets, manifest and freshness, depends only on the two slots and the generations they name |
| PublicationDisk.ReadingIsExact | search/epoch_manifest.py:309-424 | a reader gets a manifest if and only if one of the two verifies: the current one, as fresh, or else the prior one, as stale, however bad current.json is; missing means both are absent, and anything else is corrupt |
| PublicationDisk.VerifiedFiles | search/epoch_manifest.py:262-290 | a manifest that verifies speaks of the very files in its generation |
| PublicationDisk.PruningKeepsTheReading | search/indexer.py:2270-2343 | deleting files outside the retained generations changes neither what a reader gets nor whether each of the two manifests verifies, nor the retained set |
| PublicationDisk.ShrinkingAndVerification | search/epoch_manifest.py:262-290 | deleting files never makes a manifest verify and never breaks one whose generations are kept |
| PublicationDisk.CommitKeepsTheRecoveryPoint | search/epoch_manifest.py:182-240 | at every crash point of a commit a reader gets the old choice or the new manifest, always verified; as long as one slot verified before, also when current had rotted and only prior was good, one does at every crash point |
| PublicationDisk.RecoveryKeepsTheChoice | search/indexer.py:960-990 | recovery keeps what the manifests select |
| PublicationDisk.RecoveryIsAllOrNothing | search/indexer.py:960-990 | from any crash point of a save recovery settles with all roots from one generation, the new one exactly when its manifest had replaced current.json, and is idempotent |
| PublicationDisk.RecoveredIsConsistent | search/indexer.py:724-787 | what recovery mirrors has as many ids as index records, as its manifest says, and databases that open |
| PublicationDisk.SidecarsAfterRecovery | search/indexer.py:2200-2224 | after an undisturbed recovery no side file is left if and only if a generation was selected or there was no rollback journal |
| PublicationDisk.ChoicesDuringClear | search/indexer.py:2814-2840 | what is selected when only one of the two manifests has been removed |
| PublicationDisk.WhenClearIsSafe | search/indexer.py:2815-2828 | no cut of a clear leaves a choice that recovery refuses if and only if each manifest present verifies and validates; none reverts if and only if a prior one that verifies stands for the same files or none |
| PublicationDisk.ClearCanRevert | search/indexer.py:2819-2828 | a concrete disk on which a cut clear brings the older epoch back |
| PublicationDisk.ClearCanBlock | search/indexer.py:2815-2828 | a concrete disk, both manifests verified, on which a cut clear makes recovery refuse for good |
| Publication.CrashPointKept | search/indexer.py:798-863 | changing root and side files under the marker keeps every state recoverable to the same choice |
| Publication.CrashPointKeptByPruning | search/indexer.py:2270-2343 | so does deleting generations no verified manifest names |
| Publication.NewManifestVerifies | search/indexer.py:2089-2167 | the manifest built from a staged generation verifies and stands for exactly the staged files |
| Publication.FreshTokenExists | search/indexer.py:2567-2569 | an unused generation token always exists |
| Publication.NewManifestValidates | search/indexer.py:724-787 | a staged generation is validated exactly when its ids, index records and stored vectors agree in number and its databases open |
| Publication.LeavesUnsavedIff | search/indexer.py:468-481 | a body leaves something unsaved if and only if some mutation has no publishing save after it |
| Publication.LastSaveIsLast | search/indexer.py:468-481 | which save decides what a transaction publishes |
| Publication.IndexStorage.WriteMarker | search/indexer.py:865-890 | raises the marker and nothing else |
| Publication.IndexStorage.ClearMarker | search/indexer.py:892-897 | drops the marker and nothing else, only when the roots are settled |
| Publication.IndexStorage.MarkWorkingSetDirty | search/indexer.py:899-914 | the marker is up before any root file changes |
| Publication.IndexStorage.RemoveSidecars | search/indexer.py:835-844 | removes all six SQLite side files and touches no other |
| Publication.IndexStorage.MirrorRoots | search/indexer.py:846-857 | ends with the roots equal to the manifest contents, absent artifacts removed |
| Publication.IndexStorage.MaterializeGeneration | search/indexer.py:798-863 | the files of one generation, as they are on disk, become the roots; no side files; recoverable at every step |
| Publication.IndexStorage.DiscardWorkingSet | search/indexer.py:2200-2224 | removes every root file with its WAL and SHM files, and no rollback journal |
| Publication.IndexStorage.RemoveGeneration | search/indexer.py:2226-2240 | a directory tree disappears in pieces without touching the recovery point |
| Publication.IndexStorage.RemoveGenerations | search/indexer.py:2333-2343 | removes the unreferenced generations, skipping those that fail |
| Publication.IndexStorage.Prune | search/indexer.py:2270-2343 | leaves exactly the generations that a verified current or prior manifest names, or nothing changed when none verifies; each manifest verifies as before |
| Publication.IndexStorage.WriteCandidateGeneration | search/indexer.py:2048-2087 | the candidate directory ends with exactly the staged artifacts |
| Publication.IndexStorage.StageGeneration | search/indexer.py:2574-2585 | a validated generation under its published name, or only an unreferenced directory |
| Publication.IndexStorage.CommitManifest | search/epoch_manifest.py:182-240 | candidate written, a verified current rotated to prior, candidate promoted; every crash point is one of `CommitCrash`; the manifest is current if and only if all changes before the promotion succeed and the promotion lands |
| Publication.IndexStorage.RestoreLastPublished | search/indexer.py:2169-2198 | roots equal to the current manifest if it verifies and else to a prior one that does, or empty when none was ever committed, or an error when no manifest verifies or the one selected does not validate; any other failure is an I/O error |
| Publication.IndexStorage.RollBack | search/indexer.py:2805-2811 | restored likewise, and the marker dropped |
| Publication.IndexStorage.Recover | search/indexer.py:960-990 | ends settled on a current manifest that verifies, or else on a prior one that does, whatever was interrupted, and fails on a validated one only by an I/O error; wherever it is cut, the side files that stay are those an undisturbed recovery keeps or has yet to remove |
| Publication.IndexStorage.RecoverNothing | search/indexer.py:968-977 | nothing was ever committed: everything staged or mirrored goes |
| Publication.IndexStorage.RecoverChosen | search/indexer.py:987-990 | the selected generation is mirrored, the marker dropped, the rest pruned |
| Publication.IndexStorage.MirrorAndCommit | search/indexer.py:2587-2593 | success means the new generation is selected, mirrored and the marker gone; the durable changes before the promotion are counted |
| Publication.IndexStorage.PublishStaged | search/indexer.py:2571-2593 | the guarded part of a save: success means the new generation is settled; it succeeds, and it commits, exactly as the fates of its changes say |
| Publication.IndexStorage.DropUnreferenced | search/indexer.py:2614-2628 | failure cleanup never removes a generation a manifest names, and leaves neither the staging directory nor an unreferenced published one |
| Publication.IndexStorage.AbandonSave | search/indexer.py:2594-2628 | the exception path leaves everything recoverable to one choice |
| Publication.IndexStorage.SaveIndex | search/indexer.py:2457-2637 | every outcome of a save, with the guards: published if and only if the generation is sound and no change up to the removal of the marker fails; committed if and only if it is sound, all changes before the promotion succeed and the promotion lands; otherwise skipped, refused with the old state restored, or failed and recoverable; what is published has as many ids as index records |
| Publication.IndexStorage.FailAfterCommit | search/indexer.py:2590-2612 | for every index and every generation that validates, a save that raises and yet leaves that generation committed and mirrored |
| Publication.IndexStorage.RepairRootMirrors | search/indexer.py:550-570 | a writer starts from roots equal to the selected generation |
| Publication.IndexStorage.Begin | search/indexer.py:483-504 | an interrupted publication is finished and the roots repaired before anything is mutated |
| Publication.IndexStorage.RunStep | search/indexer.py:2786-2811 | one action of a transaction body does what it says and keeps every durable state recoverable |
| Publication.IndexStorage.Leave | search/indexer.py:468-481 | a marker still up at the end is rolled back |
| Publication.IndexStorage.PublicationTransaction | search/indexer.py:445-481 | every way out of a transaction leaves marker absent and roots equal to a verified generation or empty, or else recoverable; a forgotten save raises, and nothing else is called forgotten |
| Publication.IndexStorage.RecoverUntilDone | search/indexer.py:960-990 | recovery may itself be cut any number of times; it still ends on the same choice, with the side files gone that one undisturbed recovery removes |
| Publication.IndexStorage.SaveThenPowerCut | search/indexer.py:2566-2637 | a save cut after any durable change and then recovered holds the old generation or the new one, the new one exactly when its manifest was promoted; beside a new generation no side file is left, beside the old one none or just those it had |
| Publication.IndexStorage.ClearIndex | search/indexer.py:2814-2840 | ends empty; every crash point on the way is a `ClearPoint` |
| IndexStore.AddKeepsValid | search/indexer.py:1487-1610 | adding a batch keeps the id list as long as the vectors and every live entry pointing to the last slot of its id |
| IndexStore.LiveAfterAdd | search/indexer.py:1543-1554 | what becomes live: the last item of an id in the batch wins over earlier ones and over older entries |
| IndexStore.AddKeepsFtsExact | search/indexer.py:1568-1610 | with distinct ids full-text rows stay exactly one per live id |
| IndexStore.RepeatedIdBreaksFts | search/indexer.py:1568-1610 | and only then: a repeated id leaves two rows |
| IndexStore.RemoveFacts | search/indexer.py:1915-2004 | removing a file drops exactly its live chunks and keeps both invariants; vectors and ids are untouched |
| IndexStore.RemovalByProject | search/indexer.py:1939-1964 | a removal for one project spares the same path of another, no project means all, and a chunk without a path is never removed |
| IndexStore.HistoryKeepsInvariants | search/indexer.py:1487-2004 | both invariants hold after every history of adds, removals and resets |
| IndexStore.StaleCount | search/indexer.py:2764-2783 | live count never exceeds the vectors, and the difference is exactly the number of stale slots |
| IndexStore.RatioMeasuresStaleness | search/indexer.py:2764-2783 | the ratio is zero if and only if nothing is stale, and passes 0.5 exactly when more than half the live count is stale |
| IndexStore.RebuildIsLossless | search/indexer.py:1384-1444 | every slot is named if and only if nothing is stale, and then the only agreeing list is the original one |
| IndexStore.IndexStores.AppendItems | search/indexer.py:1535-1554 | the loop over a batch appends vectors and ids and points the metadata at them |
| IndexStore.IndexStores.ReplaceRows | search/indexer.py:1568-1610 | full-text rows of the batch replace older rows of the same ids |
| IndexStore.IndexStores.AddEmbeddings | search/indexer.py:1487-1610 | the stores in place equal `Add` on the old ones |
| IndexStore.IndexStores.FindFileChunks | search/indexer.py:1939-1964 | finds exactly the live ids of the file, once each |
| IndexStore.IndexStores.RemoveFileChunks | search/indexer.py:1915-2004 | the stores in place equal `Remove` on the old ones, and the count returned is the number dropped |
| IndexStore.IndexStores.FillSlots | search/indexer.py:1413-1421 | fills exactly the slots the metadata names |
| IndexStore.IndexStores.MaybeRebuildChunkIds | search/indexer.py:1384-1444 | the list is rebuilt if and only if every slot is named, and is otherwise left alone; the lost list of a valid store comes back if and only if nothing is stale |
| FilePaths.PlainTargetIsExact | search/indexer.py:1868-1913 | a relative removal target matches exactly the chunks of that file |
| FilePaths.NormalizeIsExact | search/indexer.py:1868-1871 | normalising turns every backslash and drops exactly the slashes at the end |
| FilePaths.AbsoluteForms | search/indexer.py:1872-1877 | absolute means a leading slash or a drive |
| FilePaths.RelativeTarget | search/indexer.py:1880-1913 | a relative target matches by equality when a relative path is stored, and only otherwise by the end of the absolute one |
| FilePaths.AbsoluteTargetIsSuffixMatch | search/indexer.py:1880-1913 | an absolute target matches by equality or by suffix |
| FilePaths.AbsoluteTargetCanOverreach | search/indexer.py:1880-1913 | a concrete target that matches another file |
| PathOrder.SortedListIsUnique | merkle/change_detector.py:73-81 | sorting a set of paths has one result |
| PathOrder.AtMostIsLexicographic | merkle/change_detector.py:73-81 | the order is lexicographic by code point |
| Merkle.NodeRoundTrip | merkle/merkle_dag.py:74-94 | a node survives serialisation |
| Merkle.FillingOrderIsIrrelevant | merkle/merkle_dag.py:242-355 | the node maps filled while building and while loading are the same |
| Merkle.SnapshotRoundTrip | merkle/merkle_dag.py:320-355 | loading a saved tree with distinct paths gives the same path-to-node map |
| Merkle.BuiltNodesAreExact | merkle/merkle_dag.py:242-300 | the map finds every node of the tree under its path and nothing else |
| Merkle.FileHashesOfTree | merkle/merkle_dag.py:297-307 | the hashes compared are those of the files of the tree, directories left out |
| Merkle.SplitCommon | merkle/change_detector.py:76-85 | the loop splits the common paths into modified and unchanged |
| Merkle.DetectChanges | merkle/change_detector.py:56-92 | four sorted lists that describe old and new exactly |
| Merkle.ChangesPartition | merkle/change_detector.py:56-92 | every path of either side is in exactly one list, the right one |
| Merkle.FileLists | merkle/change_detector.py:228-249 | what is reindexed and what is removed |
| Merkle.ChangesTakeOldToNew | merkle/change_detector.py:228-249 | applying the removals and then the reindexing turns the old map into the new one |
| Incremental.RepresentationIsUnique | search/incremental_indexer.py:740-839 | the chunks of a tree determine the live index |
| Incremental.RebuildRepresents | search/incremental_indexer.py:635-653 | a full rebuild holds exactly the chunks of the tree |
| Incremental.RepresentsMeans | search/incremental_indexer.py:463-497 | that is the chunks of the supported files, and nothing of the others |
| Incremental.NothingStale | search/incremental_indexer.py:257-273 | and has no stale slot |
| Incremental.PatchedLive | search/incremental_indexer.py:336-359 | exactly which chunks survive an incremental run when snapshot and index disagree |
| Incremental.PatchIsRebuildIffReconciled | search/incremental_indexer.py:316-371 | an incremental run equals a full rebuild if and only if every path is reconciled |
| Incremental.PatchRefinesRebuild | search/incremental_indexer.py:316-371 | with snapshot and index in step it always does, and keeps every store invariant |
| IncrementalRuns.CallKeepsStep | search/incremental_indexer.py:176-389 | a successful call leaves snapshot and index in step |
| IncrementalRuns.CallsRefineRebuild | search/incremental_indexer.py:176-389 | after any sequence of successful calls over changing trees live ids and metadata equal one full rebuild of the latest tree |
| IncrementalRuns.FullRunCompacts | search/incremental_indexer.py:257-273 | a compacting run leaves nothing stale, so compaction does not repeat |
| IncrementalRuns.FullNeededIff | search/incremental_indexer.py:205-273 | on a valid store a full run is taken exactly when asked for, without a snapshot, on an unexpectedly empty index, or when more than half the live count is stale |
| IncrementalRuns.RebuildingCallEndsClean | search/incremental_indexer.py:205-273 | a success of such a call ends with exactly the chunks of its tree and nothing stale, whatever snapshot and stores said before |
| IncrementalRuns.PatchingCallKeepsVectors | search/incremental_indexer.py:336-359 | any other success keeps the ids and vectors it finds and appends those of new and changed files alone |
| IncrementalRuns.UnchangedTreeIsLeftAlone | search/incremental_indexer.py:291-307 | a call that finds the tree of the snapshot changes nothing |
| IncrementalRuns.ForcedCallOutcome | search/incremental_indexer.py:592-611 | a forced call is refused exactly when there are supported files and none yields a chunk, and declares an empty corpus exactly when there are none |
| IncrementalRuns.GuardRefusesIff | search/indexer.py:2509-2528 | the truncation guard refuses an incremental call if and only if no file is removed, no chunk is added and at least five ids are stored |
| IncrementalRuns.ChunklessFilesBlock | search/incremental_indexer.py:336-359 | with snapshot and index in step, a call that finds only new files without chunks fails, although the index is already right |
| IncrementalRuns.EmptyFileBlocks | search/incremental_indexer.py:336-359 | such states exist, for any five or more indexed files and an empty one added |
| IncrementalRuns.AfterStopIffReconciled | search/incremental_indexer.py:356-372 | after a stop between index and snapshot the index of the next incremental run is exact if and only if every path is reconciled |
| IncrementalRuns.AfterTornSnapshotIff | search/incremental_indexer.py:356-372 | after a stop inside the writing of the snapshot it is exact if and only if every chunk of the index has the id of a chunk that its file has now |
| IncrementalRuns.DeletedFileKeepsChunks | search/incremental_indexer.py:356-372 | the failing family: a file deleted in between keeps its chunks |
| IncrementalRuns.IncrementalIndexer.SaveSnapshot | merkle/snapshot_manager.py:86-118 | tree file, then metadata file, neither atomic |
| IncrementalRuns.IncrementalIndexer.Publish | search/indexer.py:2509-2637 | refused by the guard, nothing loaded and nothing saved, or the working stores become the published ones; a failure falls back to what is published |
| IncrementalRuns.IncrementalIndexer.PublishThenSnapshot | search/incremental_indexer.py:356-372 | the snapshot changes only after the index built from its tree is published |
| IncrementalRuns.IncrementalIndexer.RemoveFiles | search/indexer.py:1915-1936 | file by file, possibly stopping in between; the first removal loads the vectors and the ids |
| IncrementalRuns.IncrementalIndexer.AddItems | search/indexer.py:1487-1501 | a batch that is not empty loads the stores and is added; an empty one does neither |
| IncrementalRuns.IncrementalIndexer.Rebase | search/indexer.py:483-504 | a transaction starts with neither vectors nor ids in memory |
| IncrementalRuns.IncrementalIndexer.BuildWorking | search/incremental_indexer.py:330-359 | from stores that are not loaded, the mutations end with what `save_index` is specified to find, loaded or not |
| IncrementalRuns.IncrementalIndexer.Index | search/incremental_indexer.py:176-424 | a success ends where the functions say, with exactly the chunks of the tree whenever a rebuild was due; a call fails only when they refuse it or an error strikes, and a refused one changes nothing durable; at every durable state on the way the snapshot is never ahead of the index |
| SourceText.SplitJoin | chunking/chunk_merging.py:75-76 | splitting a file into lines loses nothing |
| SourceText.SplitLines | chunking/chunk_merging.py:75-76 | and no line holds a newline |
| SourceText.JoinWeight | chunking/chunk_merging.py:37-39 | the weight of joined lines is the sum of theirs |
| SourceText.BlankSpan | chunking/chunk_merging.py:185-186 | a run of lines is blank if and only if each line is |
| ChunkLevel.SegmentsKeepChunks | chunking/chunk_merging.py:175-228 | the segments carry the chunks, each once and in order |
| ChunkLevel.SegmentsCover | chunking/chunk_merging.py:183-228 | with gap capture every contentful line past the covered ones lies in a segment |
| ChunkLevel.GapsMeetNoChunk | chunking/chunk_merging.py:183-228 | no gap meets a chunk of its level or a covered line |
| ChunkLevel.PackKeepsSegments | chunking/chunk_merging.py:247-270 | packing keeps every segment in order |
| ChunkLevel.PackIsGreedy | chunking/chunk_merging.py:247-270 | each group obeys budget and hole rule and is closed only when the next segment could not join |
| ChunkLevel.GroupFacts | chunking/chunk_merging.py:175-270 | the groups of a level are genuine segments in file order, all of them |
| ChunkLevel.MergedTitleLists | chunking/chunk_merging.py:289-343 | a merged title lists the non-empty titles of its group in order, joined by " + " |
| ChunkLevelProperties.EmitReaches | chunking/chunk_merging.py:284-286 | an output reaches from its first segment to the furthest end |
| ChunkLevelProperties.EmitWithinBudget | chunking/chunk_merging.py:247-286 | a merged group of two or more aligned segments is within the budget, overlapping or not |
| ChunkLevelProperties.LevelCoversFile | chunking/chunk_merging.py:175-286 | every contentful line lies in a root output, whatever the chunks |
| ChunkLevelProperties.LevelIsFaithful | chunking/chunk_merging.py:272-286 | each output is the exact text of its lines or a chunk handed back |
| ChunkLevelProperties.LevelWithinBudget | chunking/chunk_merging.py:247-286 | the budget for every output of a level |
| ChunkLevelProperties.LevelSpansOnlyBlanks | chunking/chunk_merging.py:236-286 | lines spanned beyond the segments of a group are blank |
| ChunkLevelProperties.LevelKeepsChunks | chunking/chunk_merging.py:272-286 | each chunk sits in exactly one group and inside its output |
| ChunkLevelProperties.LevelStaysDisjoint | chunking/chunk_merging.py:166-286 | outputs of disjoint siblings are disjoint and in order |
| ChunkLevelProperties.ChunkVersusOutput | chunking/chunk_merging.py:166-286 | a chunk lies inside one output of its level and apart from the others |
| ChunkLevelProperties.LevelInside | chunking/chunk_merging.py:119-127 | without gap capture an output stays within the bounds of its chunks |
| ChunkLevelProperties.NeighboursTooHeavy | chunking/chunk_merging.py:252-270 | two neighbouring root groups together burst the budget |
| ChunkLevelProperties.PairsWeigh | chunking/chunk_merging.py:252-270 | half as many pairs as groups bound the total weight |
| ChunkLevelProperties.RootOutputCount | chunking/chunk_merging.py:247-286 | at most 2 * (nws(file) / (max_nws + 1)) + 1 root outputs |
| ChunkForest.ParentIsSmallestContainer | chunking/chunk_merging.py:93-103 | the stack gives each chunk its smallest strict container as parent |
| ChunkForest.ContainsIsProper | chunking/chunk_merging.py:146-152 | to contain is to have all lines of the other and more |
| ChunkForest.SiblingsAreDisjoint | chunking/chunk_merging.py:93-103 | siblings of a laminar file are line-disjoint |
| ChunkForest.EachChunkHasOneLevel | chunking/chunk_merging.py:93-134 | each chunk belongs to exactly one level, once |
| ChunkForest.ChildOutputsInside | chunking/chunk_merging.py:113-127 | every output of a container's children lies inside it, whatever the input |
| ChunkForest.OutputsInside | chunking/chunk_merging.py:107-127 | so does every output of every level below |
| ChunkForest.OutputsAreLaminar | chunking/chunk_merging.py:91-134 | any two outputs of a laminar file are nested or disjoint |
| ChunkForest.GapsMeetNoInput | chunking/chunk_merging.py:129-132 | no captured gap meets any chunk of the file, nested ones included |
| ChunkForest.RootCount | chunking/chunk_merging.py:129-132 | the bound on root outputs for a file with line-disjoint roots |
| ChunkForest.FileIsCovered | chunking/chunk_merging.py:129-132 | every contentful line lies in some output |
| ChunkForest.OutputsAreFaithful | chunking/chunk_merging.py:272-286 | every output is the exact text of its lines or an input chunk |
| ChunkForest.OutputsWithinBudget | chunking/chunk_merging.py:247-286 | an output over the budget is an input chunk or a captured gap on its own |
| ChunkForest.OutputCount | chunking/chunk_merging.py:247-286 | the bound on all outputs of a file of line-disjoint chunks |
| ChunkForest.FileIsAllLevels | chunking/chunk_merging.py:107-133 | the outputs of a file are the outputs of the root level and of the children of every chunk, each level once |
| ChunkForest.ChunkIsEmitted | chunking/chunk_merging.py:107-133 | every chunk, however deeply nested, lies in an output of its own level |
| ChunkMerging.SortIsStable | chunking/chunk_merging.py:93-133 | chunks with the same key keep their order |
| ChunkMerging.PopStack | chunking/chunk_merging.py:97-98 | pops to the open containers of the chunk |
| ChunkMerging.BuildForest | chunking/chunk_merging.py:93-103 | the stack loop builds exactly the children lists and roots |
| ChunkMerging.BuildSegments | chunking/chunk_merging.py:175-228 | the segment loop |
| ChunkMerging.PackSegments | chunking/chunk_merging.py:247-270 | the packing loop |
| ChunkMerging.EmitGroups | chunking/chunk_merging.py:272-286 | the emission loop |
| ChunkMerging.MergeSiblings | chunking/chunk_merging.py:155-286 | one level, with the early return |
| ChunkMerging.EmitLevel | chunking/chunk_merging.py:107-127 | the level and all levels below it |
| ChunkMerging.MergeFileChunks | chunking/chunk_merging.py:42-134 | the whole file: all levels, each once, every chunk in an output of its own level; coverage, fidelity, laminarity, budget, output count and final order |
| WriterLock.StepKeepsOwned | search/indexer.py:191-333 | every step of every process and thread, late resets included, keeps each file a thread or a handle stands for created by its process |
| WriterLock.OnlyCreatorsUnlock | search/indexer.py:203-217 | in every run whatever, no process unlocks a description it inherited |
| WriterLock.StepKeepsInv | search/indexer.py:191-333 | every step keeps the lock invariant, unless it is a late reset that discards a lock in use |
| WriterLock.RunKeepsInv | search/indexer.py:191-333 | so does every run without such a step |
| WriterLock.MutualExclusion | search/indexer.py:191-333 | at most one thread of one process is inside a block it entered, in every state of a run whose late resets discard no lock in use |
| WriterLock.DepthFollowsFileLock | search/indexer.py:271-316 | in such a run a positive depth means that a file lock of the process's own is held; while one is, the depth is zero exactly for a thread on its way in or out |
| WriterLock.VacantLockIsFree | search/indexer.py:288-316 | in such a run the re-entrant lock is free whenever nobody of the process has the writer lock or is on the way in or out |
| WriterLock.LockFollowsLevels | search/indexer.py:288-316 | without late resets a thread holds it exactly as often as it has levels, plus one on the way in or out |
| WriterLock.VacantLockCanBeTaken | search/indexer.py:271-316 | so in every such state with the file free any idle thread can get inside |
| WriterLock.ReleaseCountsDown | search/indexer.py:288-316 | one release frees the last level, and only counts down before |
| WriterLock.AcquireReleaseRoundTrip | search/indexer.py:271-316 | entering and leaving a block restores everything: file unlocked and closed, lock free, thread idle |
| WriterLock.NestedRoundTrip | search/indexer.py:271-316 | a nested block leaves the state as it was |
| WriterLock.FailedAcquireRoundTrip | search/indexer.py:271-287 | and so does an acquisition that fails in `flock` |
| WriterLock.UnlockFreesTheFile | search/indexer.py:256-269 | a release frees the file even while a child has its description open |
| WriterLock.ResetOnlyCloses | search/indexer.py:203-217 | a reset closes the inherited description and takes the file lock from nobody who has it open |
| WriterLock.ForeignLeaveResets | search/indexer.py:288-298 | leaving an inherited block only discards what was inherited, and the parent keeps the file |
| WriterLock.ExitFreesIffLast | search/indexer.py:203-217 | the file lock dies with the last process that has its description open, and not before |
| WriterLock.LateResetIsSafeIff | search/indexer.py:203-217 | a reset that was overtaken keeps the invariant if and only if no thread of the process is inside or has stored its handle and is about to be counted |
| WriterLock.ClobberLetsSecondIn | search/indexer.py:203-217 | and otherwise some continuation always brings a second thread inside |
| WriterLock.LateResetBreaksExclusion | search/indexer.py:203-217 | a run of a forked child after which two threads are inside |
| WriterLock.NobodyInsideIsNotEnough | search/indexer.py:288-316 | a run in which the late reset comes while nobody is inside, and still two threads end up inside |
| WriterLock.LastLeaveReleasesIff | search/indexer.py:325-333 | the outermost leave releases if and only if the popped context is the process's own |
| WriterLock.InheritedBlockCanStrandTheLock | search/indexer.py:288-333 | a run after which nobody is in a block and the file stays locked |
| PageRank.WalkLosesMass | search/ppr_scorer.py:246-252 | a walk keeps vectors non-negative and never gains mass |
| PageRank.WalkEntry | search/ppr_scorer.py:246-252 | after a walk each node has what its neighbours gave, each an equal part for every edge |
| PageRank.WalkKeepsLinkedMass | search/ppr_scorer.py:246-252 | a walk keeps the whole mass of the nodes that have neighbours, and drops the rest |
| PageRank.WalkMinus | search/ppr_scorer.py:246-252 | walking is linear |
| PageRank.WalkShrinks | search/ppr_scorer.py:246-252 | and does not increase the L1 norm |
| PageRank.IterateBounds | search/ppr_scorer.py:242-254 | every iterate is non-negative, has mass between 1 - beta and 1, and gives each node at least (1 - beta) * seed |
| PageRank.StepContracts | search/ppr_scorer.py:245-254 | one step shrinks distances by beta |
| PageRank.RunsApproach | search/ppr_scorer.py:245-254 | two runs from any two vectors approach geometrically |
| PageRank.StoppingError | search/ppr_scorer.py:245-254 | stopping after n iterations is within 2 * beta^n in L1 of every later iterate |
| PageRankScorer.NumberNodes | search/ppr_scorer.py:206 | distinct numbers below the node count |
| PageRankScorer.LinksAreSymmetric | search/ppr_scorer.py:210-217 | edges count in both directions equally |
| PageRankScorer.BuildAdjacency | search/ppr_scorer.py:209-217 | each list holds each neighbour exactly as often as edges join the two |
| PageRankScorer.RawSeedMass | search/ppr_scorer.py:222-236 | the raw seed is non-negative and holds exactly the similarity put into it |
| PageRankScorer.RawSeedReaches | search/ppr_scorer.py:224-236 | every node of a candidate with positive similarity gets a positive seed |
| PageRankScorer.DividedIsGood | search/ppr_scorer.py:237-240 | the normalised seed is non-negative and sums to 1 |
| PageRankScorer.BuildSeed | search/ppr_scorer.py:222-240 | the seed loops |
| PageRankScorer.WalkOnce | search/ppr_scorer.py:246-252 | the walk in place, skipping nodes without mass |
| PageRankScorer.PowerIterate | search/ppr_scorer.py:242-254 | the iteration in place |
| PageRankScorer.PathScores | search/ppr_scorer.py:256-266 | mean score per path and the largest of them |
| PageRankScorer.Normalise | search/ppr_scorer.py:268-271 | division by the largest score, if positive |
| PageRankScorer.NormalisedRange | search/ppr_scorer.py:268-271 | normalised scores lie in [0, 1] and the best is exactly 1 |
| PageRankScorer.SeededPathScores | search/ppr_scorer.py:242-266 | below full damping a candidate with positive similarity scores above 0 |
| PageRankScorer.Expand | search/ppr_scorer.py:173-203 | the one-hop subgraph, or only the candidates' nodes above the cap; its rows join two nodes as often as the table does, once for each end among the candidates' nodes |
| PageRankScorer.FromIsExact | search/ppr_scorer.py:181-184 | the rows read for outgoing edges, each as often as it is listed |
| PageRankScorer.IntoIsExact | search/ppr_scorer.py:185-188 | the rows read for incoming edges |
| PageRankScorer.InsideIsExact | search/ppr_scorer.py:199-203 | the rows kept above the cap |
| PageRankScorer.BuildSubgraph | search/ppr_scorer.py:173-217 | the adjacency lists hold every node of the subgraph exactly as often as the table joins the two, both ways |
| PageRankScorer.ScoreLocated | search/ppr_scorer.py:173-271 | the scores are the normalised means of the iterate for the seed and for that subgraph of the table |
| PageRankScorer.Score | search/ppr_scorer.py:123-278 | empty if and only if fewer than two paths have nodes or no similarity is positive; otherwise the normalised means over the subgraph of the table, in [0, 1] for exactly the paths with nodes, with a 1 among them when beta < 1 |
| PageRankScorer.MeanIsBetween | search/ppr_scorer.py:256-266 | a path scores between the least and the greatest rank of its nodes |
| PageRankOrder.RawSeedEntry | search/ppr_scorer.py:222-236 | what each node gets of the seed: an equal part of a candidate's positive similarity for every time the path lists it |
| PageRankOrder.RanksAreDetermined | search/ppr_scorer.py:205-266 | any two numberings of the nodes give the same ranks |
| PageRankOrder.ScoresAreDetermined | search/ppr_scorer.py:173-271 | so the scores are a function of the inputs, although sets are enumerated on the way |
| DocumentCache.Evict | embeddings/embedder.py:897-912 | the oldest rows go until the cap holds, and no others |
| DocumentCache.WritingKeepsSound | embeddings/embedder.py:1009-1021 | writing encodings keeps every row the encoding of its text at the row's own dimension |
| DocumentCache.SpaceSeparates | embeddings/embedder.py:889-895 | two embedders share their rows if and only if provider, model and input mode agree |
| DocumentCache.RowsAfterWriting | embeddings/embedder.py:1009-1021 | exactly the rows of the texts are replaced, by rows dated now |
| DocumentCache.WrittenRowsHit | embeddings/embedder.py:975-988 | written texts are served afterwards, and so is everything served before |
| DocumentCache.SettledServes | embeddings/embedder.py:971-1023 | after an undisturbed call below the cap every text has a row of the caller's dimension |
| DocumentCache.EmbeddingCache.LookUp | embeddings/embedder.py:971-990 | finds exactly the rows of the caller's dimension, or nothing when reading fails |
| DocumentCache.EmbeddingCache.Misses | embeddings/embedder.py:994-1001 | the texts without a vector, each once |
| DocumentCache.EmbeddingCache.Merge | embeddings/embedder.py:1009-1010 | the vectors found, completed by the new ones |
| DocumentCache.EmbeddingCache.EmbedDocuments | embeddings/embedder.py:941-1033 | a call that returns gives every text's own encoding by the caller's model and input mode at its dimension, in order; with the cache open each distinct text is encoded at most once, exactly when no usable row was read; the new table is stated, and a failure leaves it alone |
| DocumentCache.EmbeddingCache.Serve | embeddings/embedder.py:941-1033 | over any history of calls by any configurations with rows lost at any time, every answer is the plain encoding and, while the cache is open, no call encodes a text twice |
| DocumentCache.EmbeddingCache.EmbedTwice | embeddings/embedder.py:889-988 | what a second call pays: nothing for the same model at the same dimension, everything at another one, and for another model or input mode what it would have paid anyway |
| Frames.NumberRoundTrip | search/index_identity.py:227-238 | the length field is recovered for lengths below 2^64 |
| Frames.BigEndianAt | search/index_identity.py:227-238 | its most significant byte comes first |
| Frames.StreamRoundTrip | search/index_identity.py:227-238 | any list of frames with NUL-free labels is recovered from the concatenated bytes |
| Frames.ParseIsExact | search/index_identity.py:227-238 | and the parser accepts nothing else |
| Frames.UntrackedRoundTrip | search/index_identity.py:262-288 | path, kind and digest are recovered from an untracked payload |
| Frames.SubmoduleRoundTrip | search/index_identity.py:316-330 | so are the four fields of a submodule payload |
| DirtyState.RecordsSplit | search/index_identity.py:241-246 | the status records are the NUL-free parts of the status |
| DirtyState.UntrackedPathsAreExact | search/index_identity.py:241-246 | the untracked paths are the rests of exactly the records that start with `?? `, each as often as it occurs |
| DirtyState.UntrackedPathsAreNulFree | search/index_identity.py:241-246 | an untracked path never contains the separator of its payload |
| DirtyState.DirtyFingerprint | search/index_identity.py:392-447 | feeds the digest exactly the frames of the state, or answers clean, exactly when there is neither a status nor a submodule payload |
| DirtyState.FingerprintDeterminesState | search/index_identity.py:392-447 | different dirty states feed different bytes |
| DirtyState.GenerationDeterminesIdentity | search/index_identity.py:450-465 | the generation recovers repository, NUL-free revision and NUL-free fingerprint |
| DirtyState.GenerationIsUniqueIff | search/index_identity.py:450-465 | no other identity has the same generation if and only if no field holds a NUL |
| VoyageBatches.FloorsLoseLittle | embeddings/voyage_context_embedder.py:30-32 | summing floors loses at most 3/4 of a token per text |
| VoyageBatches.SplitOversizedGroup | embeddings/voyage_context_embedder.py:35-51 | consecutive pieces in order, each one text or within the limit by its summed estimates, closed only when the next text would not fit |
| VoyageBatches.SplitIsUnique | embeddings/voyage_context_embedder.py:35-51 | that contract has one result |
| VoyageBatches.PieceEstimate | embeddings/voyage_context_embedder.py:35-51 | a piece of n >= 2 texts is estimated at no more than 30000 + 3n/4 |
| VoyageBatches.PieceEstimateIsTight | embeddings/voyage_context_embedder.py:30-51 | and some piece of every length reaches that |
| VoyageBatches.PackGroups | embeddings/voyage_context_embedder.py:68-84 | greedy batches of at most 500 groups, of two or more only within 100000 tokens |
| VoyageBatches.PrepareVoyageBatches | embeddings/voyage_context_embedder.py:54-84 | flattening the batches gives the texts back in order, and every group and batch is within its limit |

## Left out

- Legacy manifests, the bootstrap of an unmanifested index and the quarantine of corrupt files: they add branches
  without a new property.
- Temporary files of a publication, fsync calls, the empty `fts5.db` that opening the store creates after a recovery,
  and the full-text cleanup errors that are swallowed.
- What counts as a validated generation beyond digests and record counts (FAISS readability, SQLite integrity) is one
  predicate of the manifest.
- FAISS, SQLite, tree-sitter, numpy and HTTP: a vector count, maps, an abstract chunk function and an encoding function.
- Merged chunks carry range, text and title; kinds, tags, docstrings, decorators and parent names are not modelled.
- The forest is a set of children lists of positions in the sorted list, not node objects that share references.
- The directory walk of the Merkle tree, its ignore rules and symlinks, and equality of root hashes, which does not
  imply equal file maps.
- The lock model has no thread death, no reuse of process ids and no Windows locking loop.
- Floating-point rounding of scores, the lookup of nodes in the graph database, and the blend of scores into the
  candidates, which is one multiplication.
- The order in which untracked paths are hashed is a parameter of `DirtyFingerprint`; sorting them by bytes, reading
  their contents and Git's own output are outside the model. So are payloads of 2^64 bytes or more, for which the code
  raises.
- The float32 bytes of a cached vector, and what a provider returns for an empty batch when the cache cannot be opened.
- Query cache, rerankers, signal boosts, MCP tools, logging and configuration: heuristics or plumbing.
- CallsRefineRebuild: assumes a tree that does not change during a call and no stop between index and snapshot; what
  happens otherwise is `AfterStopIffReconciled`. Calls that are refused or fail before the index is published leave
  everything durable as it was (`Index`).
- MutualExclusion: holds for runs without a late reset that discards a lock in use, because with one it is false; see
  `ClobberLetsSecondIn`.
- DepthFollowsFileLock: the same; the depth is zeroed by such a reset while the file lock is held.
- LockFollowsLevels: holds for runs without late resets; after one that was harmless a thread may be inside under the
  discarded lock, and `VacantLockIsFree` is what remains.
- LastLeaveReleasesIff: speaks of the states that such runs reach.
- The steps of the lock model: the body of a reset, the check of the depth together with opening the file, a re-entrant
  count, and a leave up to the unlocking of the file are one step each.
- PublishOrAbandon: a `BaseException` that is no `Exception`, such as a keyboard interrupt, skips the rollback of
  `save_index` and only runs its clean-up; the transaction around it then rolls back. The model has only errors that
  `except Exception` catches.
- Whether an index file exists is not distinguished from an index without ids: a removal that finds no index leaves the
  stores unloaded in the code and loads empty ones in the model, with the same stores in the end.
