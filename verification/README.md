# filigree: verified models of its stateful protocols

filigree keeps an issue tracker, scan findings, observations and code annotations in a per-project SQLite
database. This project models the parts of it that run over more than one step — a file migration that may die
half-way, a handle cache shared by threads, an append-only event log with undo, scan ingest with its post-commit
cascade, and several smaller state machines — and proves what those protocols keep over whole runs.

SQLite tables are maps and sequences of rows. One `BEGIN IMMEDIATE ... COMMIT` is one atomic step; crashes,
retries and other callers come between steps. An object whose methods update its fields in place is a class
whose methods are proved equal to functions on a value of its state; the theorems are about those functions and
about all sequences of their calls.

| file | models |
|---|---|
| `StoreMigration.dfy` | `migrate_store_to_weft`: moving a legacy store forward, one file operation per step |
| `ProjectCache.dfy` | `ProjectStore`: threads interleaving `get_db`, `reload`, `list_projects`, `close_all` |
| `ChangeFeed.dfy` | the paged change feed over events and deletion tombstones |
| `EventLog.dfy` | event recording, compare-and-swap undo, compaction |
| `DependencyGraph.dfy` | dependency and parent links, the searches that keep them acyclic, the graph stages of import |
| `ScanIngest.dfy` | the write window of a scan ingest, its retry wrapper, sweep, identities and accounting |
| `FingerprintSchemes.dfy` | the fingerprint scheme recorded per scan source |
| `Cascade.dfy` | closing and reopening issues after ingests and stale sweeps |
| `EntityBindings.dfy` | signed bindings between issues and code entities |
| `Promotion.dfy` | promoting an observation in three transactions |
| `Annotations.dfy` | re-anchoring an annotation by position and by search |
| `Timestamps.dfy` | canonical UTC text as an ordering key, and its normalisation |
| `Wrappers.dfy` | `Option` and `Result` |

`dafny verify dfyconfig.toml` checks everything.

## What the hypotheses are

- Migration: one attempt runs at a time, the presence of `.filigree.conf` is fixed over a run, there is no
  `store_dir` override, and every writer resolves the canonical database anew for each write. A writer that
  blocked on the migration's fence and commits to the unlinked file afterwards is excluded, as the code documents
  that loss. Metadata files are not fenced, and their writers act at any moment. Temporary files of the atomic
  copies are not part of a disk's state.
- Cache: `load` runs before any thread; the monotonic clock does not go back.
- Undo and stack results that speak of the top of the stack assume timestamps that do not decrease in insertion
  order, and for single logs the exact condition is stated; a concrete log shows what goes wrong otherwise. Issue
  ids are not empty and contain no colon, as the code assumes when it splits an event's value.
- Cascade: an issue's status changes are searched newest first in insertion order, which is their order by
  (created_at, id) while the clock does not step back.
- Change feed: real event ids are below 2^62, and the store is fixed while a consumer pages through it; appends in
  between have a theorem of their own.
- JSON encoding, the registry, the closure gate, the workflow's transition rules and the reading of files are
  parameters.

## Where the code does not do what one might expect

- A metadata directory (`scanners`, `templates`) is copied once. On an install without a conf, an interrupted run
  followed by a change of the legacy directory leaves the old copy in the new store
  (`StoreMigration.DirectoryIsFreshIff`, `StoreMigration.StaleDirectoryIsReachable`).
- On an install without a conf, a metadata file written after the attempt has copied it, say a rotated token, is
  lost unless the copy happens to hold the same (`StoreMigration.MetadataIsCarriedForward`,
  `StoreMigration.LateTokenIsLost`).
- After an attempt that died past its commit every later run is a no-op, so the legacy database, its sidecars and
  the dead token that were still there stay (`StoreMigration.HuskStaysIff`, `StoreMigration.LegacyDatabaseCanStay`).
- On an install with a conf, between the snapshot and the end of the copies, metadata that has not been copied yet
  is not visible in the resolved store (`StoreMigration.MetadataVisibleIff`,
  `StoreMigration.MetadataCanBeInvisible`).
- A project registered under a path that `Path` spells differently, such as one with a slash at its end, is never
  cached: `get_db` opens it, finds it stale and starts again (`ProjectCache.ServedIff`,
  `ProjectCache.RespelledProjectIsNeverServed`, `ProjectCache.TrailingSlashIsStale`).
- Undoing a status change back to an open status strips `close_reason` from the fields even if it was there before
  the change (`EventLog.UndoRestoresIssueIff`, `EventLog.UndoStripsACloseReason`).
- Undoing the removal of a dependency stored with a blank kind brings it back as `blocks`
  (`EventLog.UndoRestoresGraphIff`, `EventLog.BlankKindComesBackAsBlocks`).
- With a clock that steps back, undo reverses an older edit than the newest (`EventLog.CandidateIsTopIff`,
  `EventLog.ClockStepBackUndoesTheOlderEdit`), and compaction can drop an `undone` marker while keeping its event
  (`EventLog.CompactionRevivesNothingIff`, `EventLog.ClockStepBackRevives`).
- Compacting with `keep_recent=0` lets `event_seq` start again (`EventLog.CompactionKeepsNextSeqIff`).
- `bulk_insert_dependency` without validation can close a cycle (`DependencyGraph.UnvalidatedInsertIsSoundIff`).
- An event appended with the timestamp of a tombstone already delivered is never delivered
  (`ChangeFeed.AppendedEventIsDelivered`).
- The scheme handshake reads and records in separate transactions, so two first ingests of a source can both pass
  it (`FingerprintSchemes.StepKeepsSchemesIff`, `FingerprintSchemes.RacedBaselineIsOverwritten`).
- The cascade checks outside the transaction that reopens, which looks at the status again but not at who closed,
  and undo leaves no status change behind, so a reopen can overturn a person's decision
  (`Cascade.ReopenOverturnsIff`, `Cascade.UninterruptedReopenIff`, `Cascade.SplitReopenOverturnsPerson`,
  `Cascade.ReopenCanOverturnUndo`).
- A regress is forgotten by a crash between the ingest's commit and its reopens, by a reopen that fails when its
  debt comment fails as well, by a person who makes a finding of a cascade-closed issue active, and by an undo back
  into a cascade's close (`Cascade.ForgetsIff` and four runs).
- A crash between an ingest's commit and its closes leaves an issue open with every finding resolved, and only a
  stale sweep that ages one of them makes it due again (`Cascade.DueAgainIff`, `Cascade.CrashLeavesAnIssueOpen`).
- A promotion can be audited twice (`Promotion.OvercountsIff`, `Promotion.PromotionCanBeAuditedTwice`). A comment
  in `promote_observation` says that a retry after the observation was deleted gets "not found"; the code returns
  the existing issue, and that is what `Promotion.RetryReturnsTheIssue` states.
- The anchor search counts overlapping occurrences of a snippet as one (`Annotations.SingleMatchIsUniqueIff`).

## Model

| member | source | states |
|---|---|---|
| StoreMigration.ProjectRoot.SnapshotUnderFence | src/filigree/core.py:1031-1044 | Refuses without touching the disk exactly when a writer holds the legacy database; otherwise publishes a fresh snapshot whenever the legacy database is there, so the run continues as the step model says |
| StoreMigration.ProjectRoot.CopyMetadataFiles | src/filigree/core.py:1065-1076 | The loop over the four metadata files leaves what the step model leaves after them: refreshed while legacy is canonical, copied once otherwise |
| StoreMigration.ProjectRoot.CopyMetadataDirs | src/filigree/core.py:1077-1081 | The loop over the two directories copies only what is missing |
| StoreMigration.ProjectRoot.CommitConf | src/filigree/core.py:1087-1090 | The conf rewrite that commits the move |
| StoreMigration.ProjectRoot.RemoveLegacyDb | src/filigree/core.py:1097-1100 | The unlink loop over the database and its sidecars, as the three unlink steps |
| StoreMigration.ProjectRoot.MigrateStoreToWeft | src/filigree/core.py:878-1120 | The whole method equals the uninterrupted run of the step model, with its no-op and refusal branches |
| StoreMigration.OutcomeIff | src/filigree/core.py:931-1006 | When a run migrates, for every disk and environment: a legacy directory, a conf that is absent or names the legacy or the weft database, some database, a move not yet complete, no symlink, no serving daemon and no active writer on a present legacy database; when each refusal comes, in the source's order; and an install whose conf names a database of its own is never touched |
| StoreMigration.NoOpNames | src/filigree/core.py:931-967 | Which store a run with nothing to do names |
| StoreMigration.WriteCommitsIff | src/filigree/core.py:1031-1044 | A writer commits at any moment but between the fence and the removal of the legacy database |
| StoreMigration.NoWriteIsLost | src/filigree/core.py:931-1100 | Over every run of migration steps, crashes anywhere, re-runs and writes, from any vanilla legacy layout with or without a conf, the canonical database holds every committed write |
| StoreMigration.MetadataIsCarriedForward | src/filigree/core.py:1045-1081 | With metadata writers active at any moment: metadata written to weft after weft became the store is never overwritten, and once the move is committed weft holds the latest content of a file (on conf installs also of a directory) exactly when the entry was not written late, that is to a confless legacy store after the attempt had passed it and other than the copy; everything else has a weft counterpart |
| StoreMigration.LateTokenIsLost | src/filigree/core.py:1067-1076 | A run of a confless install that ends with the token from before a rotation during the attempt |
| StoreMigration.MetadataVisibleIff | src/filigree/core.py:554-582 | On a conf install not yet committed, an entry's latest content is visible in the resolved store exactly when the snapshot is not there yet or the entry has been copied |
| StoreMigration.MetadataCanBeInvisible | src/filigree/core.py:554-582 | A run on which an entry is not visible |
| StoreMigration.FinishCommits | src/filigree/core.py:1031-1100 | From every reachable mid-run state an uninterrupted continuation commits, removes the legacy database and keeps the invariant |
| StoreMigration.MigrationConverges | src/filigree/core.py:943-966 | From every reachable state between attempts an uninterrupted run ends with weft canonical and all committed rows in it, and any further run is a no-op that changes nothing |
| StoreMigration.HuskStaysIff | src/filigree/core.py:943-957 | After that run a legacy database, sidecar or token is still there exactly when an earlier attempt had died after its commit and left one |
| StoreMigration.LegacyDatabaseCanStay | src/filigree/core.py:1087-1100 | A run of a conf install that keeps its legacy database |
| StoreMigration.RefusalChangesNothing | src/filigree/core.py:984-1006 | Every outcome other than a completed migration leaves the disk as it was, a corrupt conf in particular |
| StoreMigration.TailLeavesHusk | src/filigree/core.py:1082-1120 | What the steps after the copies leave: conf on weft, no legacy database or sidecar, token removed unless stuck, breadcrumb written |
| StoreMigration.MigratedDisk | src/filigree/core.py:1031-1120 | Closed form of the whole disk after a completed attempt, entry by entry of the metadata |
| StoreMigration.DirectoryIsFreshIff | src/filigree/core.py:1077-1081 | A migrated directory holds the legacy content exactly when weft had none or an equal one |
| StoreMigration.StaleDirectoryIsReachable | src/filigree/core.py:1061-1064 | A reachable run on a confless install that ends with an outdated directory |
| ProjectCache.ProjectStore.PopDrainableEvictedLocked | src/filigree/dashboard.py:378-390 | The loop splits the eviction list, in order, into what is due and what is kept, and forgets the times of what is due |
| ProjectCache.ProjectStore.PublishOpened | src/filigree/dashboard.py:529-542 | The recheck after a slow open: publish, or missing, stale or beaten |
| ProjectCache.ProjectStore.SwapProjects | src/filigree/dashboard.py:572-584 | The reload's critical section: drain, swap, evict removed and relocated projects |
| ProjectCache.ProjectStore.TakeAllForShutdown | src/filigree/dashboard.py:600-604 | The shutdown's critical section takes every cached and every evicted handle |
| ProjectCache.EvictKeysMeans | src/filigree/dashboard.py:580-584 | What evicting a list of keys leaves: those keys uncached, their handles evicted at this time, everything else as it was |
| ProjectCache.ReloadEvictsTheStale | src/filigree/dashboard.py:572-584 | In every reachable state a reload keeps cached exactly the handles whose project keeps its path, evicts now those whose project is dropped or relocated, and takes for closing exactly the handles evicted at least the grace period ago |
| ProjectCache.DrainTakesTheDue | src/filigree/dashboard.py:378-402 | In every reachable state a drain takes exactly the handles evicted at least the grace period ago and keeps exactly the younger ones, with their times |
| ProjectCache.CallClosesTheDue | src/filigree/dashboard.py:392-402 | An uninterrupted `list_projects` or `get_db` closes every handle evicted at least the grace period before it |
| ProjectCache.ShutDownTakesAll | src/filigree/dashboard.py:600-604 | A shutdown takes exactly the cached and the evicted handles, whatever their age, and leaves neither |
| ProjectCache.PublishingEnds | src/filigree/dashboard.py:529-542 | A freshly opened handle is cached and answered exactly when its key is still registered under the path it was opened from and nothing is cached for it; otherwise the store stays as it was, and which of missing, stale and beaten is found |
| ProjectCache.DiscardingEnds | src/filigree/dashboard.py:544-550 | A handle that was not published is closed, and exactly a stale open starts again |
| ProjectCache.NothingIsClosedTwice | src/filigree/dashboard.py:392-397 | In every interleaving no thread is about to close a handle that is closed |
| ProjectCache.NormalMeans | src/filigree/dashboard.py:494-494 | A spelling keeps a leading slash, and exactly two as two, and is a dot exactly without slash or component |
| ProjectCache.NormalKeepsParts | src/filigree/dashboard.py:494-494 | It has the components of the path, none of them empty or a dot |
| ProjectCache.NormalIsIdempotent | src/filigree/dashboard.py:494-494 | Spelling a path as `Path` does twice changes nothing more |
| ProjectCache.ServedIff | src/filigree/dashboard.py:486-542 | From any state, a call that found a registered project uncached under its open lock and opens it without interruption leaves it cached exactly when `Path` spells its registered path the same way |
| ProjectCache.RespelledProjectIsNeverServed | src/filigree/dashboard.py:530-553 | In every interleaving a project registered under a path `Path` spells differently is not cached, and whoever has opened it finds its handle stale |
| ProjectCache.TrailingSlashIsStale | src/filigree/dashboard.py:530-553 | A run on which a project registered with a slash at its end is opened and found stale |
| ProjectCache.CacheIsCurrent | src/filigree/dashboard.py:532-542 | In every interleaving a cached handle's key is a registered project and the handle was opened from its current path |
| ProjectCache.OneOpenPerKey | src/filigree/dashboard.py:500-550 | At most one open per key is in progress, and publishing never finds the key already cached |
| ProjectCache.HandlesAreInOnePlace | src/filigree/dashboard.py:378-402 | Every opened handle is in exactly one of: held by its opener, cached, evicted, taken for closing, closed; and none is closed twice |
| ProjectCache.GraceIsKept | src/filigree/dashboard.py:378-390 | A handle a lookup selected is closed no earlier than the grace period later, unless a shutdown closes it |
| ProjectCache.SomeThreadCanStep | src/filigree/dashboard.py:472-550 | No deadlock: a thread inside a call can step, or waits for an open lock whose holder can |
| ChangeFeed.TakeOfMerge | src/filigree/db_events.py:207-214 | The first rows of a merge need only the first rows of each side |
| ChangeFeed.PageIsFeedAfterCursor | src/filigree/db_events.py:137-214 | A page is the first rows, in key order, of what the whole filtered feed has after the cursor, for every filter, cursor and limit |
| ChangeFeed.FeedHoldsEachRowOnce | src/filigree/db_events.py:216-322 | The feed is strictly ordered by (timestamp, id) and holds exactly the events that pass the filter, field by field, with their titles, and the matching tombstones as `issue_deleted` rows behind all events |
| ChangeFeed.CursorContinues | src/filigree/db_events.py:269-285 | The cursor at the last row of a page continues right behind it, across both tables |
| ChangeFeed.PageIsExact | src/filigree/dashboard_routes/analytics.py:640-658 | The route returns the next rows, says whether more follow, and its next cursor continues behind them |
| ChangeFeed.PagesCoverTheFeed | src/filigree/db_events.py:157-230 | For any page size, following the cursor while more is announced delivers every matching change exactly once and in order |
| ChangeFeed.AppendedEventIsDelivered | src/filigree/db_events.py:157-162 | An event appended meanwhile adds itself to what remains exactly when its key is past the cursor |
| ChangeFeed.EventAtADeliveredTombstoneIsLost | src/filigree/db_events.py:216-230 | An event with the timestamp of a delivered tombstone never appears in what remains |
| EventLog.Decimal | src/filigree/db_events.py:347-357 | The decimal text of an id reads back as that id, so a marker names one event |
| EventLog.Newest | src/filigree/db_events.py:347-357 | The newest row by (created_at, id) |
| EventLog.EventStore.ReverseGraph | src/filigree/db_events.py:520-633 | The dependency and parent branches of undo, with the searches run in place, or a refusal that changes nothing |
| EventLog.EventStore.UndoLast | src/filigree/db_events.py:369-661 | The whole undo equals its specification on the database value, refusals included |
| EventLog.UndoReplies | src/filigree/db_events.py:390-427 | Every answer of undo and when it is given: no such issue, nothing undoable, a stale event id, held by another exactly when the open issue is assigned to someone else and no override is given, not reversible, or reversed |
| EventLog.CandidateMeans | src/filigree/db_events.py:340-357 | The candidate is the issue's reversible event that no `undone` marker names with the latest time and, among those, the highest id |
| EventLog.RestoreMeans | src/filigree/db_events.py:432-603 | Every column a reversal writes, with the times that go with it, and that it writes no other; and exactly when it cannot: a missing value, a priority that is no number, fields that are no JSON object |
| EventLog.RestoreGraphMeans | src/filigree/db_events.py:518-633 | The rows the reversal of a dependency or parent event leaves, and exactly when it is refused |
| EventLog.EditRecordsIff | src/filigree/db_issues.py:943-1190 | Which edits are accepted and record an event: those that change their column, or the rows they name, and are not refused |
| EventLog.EditLeaves | src/filigree/db_issues.py:1046-1190 | What an accepted edit leaves: the column it names, the times and anchors that go with it, the rows it names, and nothing else |
| EventLog.EditRecords | src/filigree/db_issues.py:1046-1210 | The event an edit records: what stood there before and what stands there now |
| EventLog.EventStore.CompactEvents | src/filigree/db_events.py:722-747 | The loop over archived issues deletes each one's oldest events and counts them |
| EventLog.CompactionKeepsTheNewest | src/filigree/db_events.py:722-747 | Compaction leaves each archived issue exactly its `keep_recent` newest events by (created_at, id), or all when there are no more, and every event of every other issue |
| EventLog.RecordPushes | src/filigree/db_events.py:77-107 | Recording a reversible event pushes it on its issue's stack of live events; other events change no stack |
| EventLog.CandidateIsTopIff | src/filigree/db_events.py:347-357 | The candidate is the most recently recorded live event exactly when no live event has a later timestamp |
| EventLog.UndoTakesTheNamedEvent | src/filigree/db_events.py:405-427 | A successful undo removes exactly the event its caller named from the live events, one fewer than before, and touches no other stack; an unsuccessful one changes nothing |
| EventLog.MarkerIsNew | src/filigree/db_events.py:635-654 | The marker names a past event that no marker named before |
| EventLog.UndoPops | src/filigree/db_events.py:369-661 | With nondecreasing timestamps a successful undo pops the top of the stack |
| EventLog.ClockStepBackUndoesTheOlderEdit | src/filigree/db_events.py:347-357 | A log on which the candidate is not the newest edit |
| EventLog.UndoRestoresIssueIff | src/filigree/db_events.py:432-516 | Undoing an edit restores the issue's own columns exactly when the edit is restorable: a status change must not have left a done status with a new reason, nor an open one with a close reason stored |
| EventLog.UndoStripsACloseReason | src/filigree/db_events.py:432-470 | Two edits of a fresh issue whose undo loses the close reason |
| EventLog.UndoRestoresGraphIff | src/filigree/db_events.py:518-633 | Undoing an edit is never refused for the graph and restores dependencies and parents exactly when it did not remove a dependency stored with a blank kind |
| EventLog.BlankKindComesBackAsBlocks | src/filigree/db_planning.py:302-314 | Adding and removing such a dependency and undoing the removal |
| EventLog.EditKeepsStamps | src/filigree/db_issues.py:1077-1140 | Edits keep: a closing time exactly while done, a claiming time exactly while assigned, commit anchors only beside them |
| EventLog.UndoKeepsStamps | src/filigree/db_events.py:432-516 | Undo keeps the same, whatever event it reverses |
| EventLog.UndoOneIff | src/filigree/db_events.py:369-661 | From any database with the content and stack an edit left, one undo by anyone who may, or by override, succeeds, gives back the stack before the edit, and the content before the edit exactly when the edit is restorable |
| EventLog.UndoAll | src/filigree/db_events.py:369-661 | Any number of restorable edits followed by that many undos restores columns, dependencies, parent and undo stack |
| EventLog.CompactionRevivesNothingIff | src/filigree/db_events.py:722-747 | No compaction of an issue, whatever it keeps, revives an undone change exactly when every undone event has a marker that sorts after it |
| EventLog.CompactionRevivesNothing | src/filigree/db_events.py:722-747 | With nondecreasing timestamps a kept event is live after compaction exactly when it was before |
| EventLog.CompactedStackIsNewestPart | src/filigree/db_events.py:722-747 | After compaction each undo stack is the newest part of what it was |
| EventLog.ClockStepBackRevives | src/filigree/db_events.py:722-747 | A log with a stepped-back clock on which compaction revives an undone change |
| EventLog.CompactionKeepsNextSeqIff | src/filigree/db_events.py:95-107 | Compaction leaves an issue's next sequence number alone exactly when it keeps at least one event or there was none |
| EventLog.NothingIsUndoneTwice | src/filigree/db_events.py:340-357 | Over every run of writes, undos and compactions no event is undone twice |
| EventLog.SeqIsNeverReused | src/filigree/db_events.py:95-107 | Over every run whose compactions keep at least one event, no (issue, event_seq) pair is assigned twice |
| EventLog.KeepingNothingReusesSeq | src/filigree/db_events.py:722-747 | A run with keep_recent 0 on which the first sequence number is assigned again |
| DependencyGraph.BuildAdjacency | src/filigree/db_events.py:540-543 | The adjacency lists hold exactly the edges of the table |
| DependencyGraph.StackSearch | src/filigree/db_events.py:544-557 | The inline stack search terminates and answers exactly whether the target is reachable |
| DependencyGraph.WouldCreateCycle | src/filigree/db_planning.py:261-285 | The queue search answers exactly whether the edge would close a cycle |
| DependencyGraph.WouldCreateParentCycle | src/filigree/db_issues.py:453-476 | The walk up the parents answers exactly whether it meets the child or a loop that is already there |
| DependencyGraph.InsertKeepsAcyclicIff | src/filigree/db_planning.py:243-246 | An added edge keeps a graph acyclic exactly when its target does not already reach its source |
| DependencyGraph.SetParentKeepsAcyclicIff | src/filigree/db_issues.py:943-951 | A replaced parent link keeps the hierarchy acyclic exactly when the child is not above its new parent |
| DependencyGraph.DepValueRoundTrips | src/filigree/db_events.py:527-538 | A dependency event's value reads back as its kind and target exactly when the target has no colon, whatever the kind contains |
| DependencyGraph.Tracker.AddDependency | src/filigree/db_planning.py:221-259 | The validated insert and its refusals |
| DependencyGraph.Tracker.BulkInsertDependency | src/filigree/db_meta.py:621-632 | The bulk insert, validated or guarded by foreign keys only |
| DependencyGraph.Tracker.RemoveDependency | src/filigree/db_planning.py:287-320 | The removal and its no-op and not-found cases |
| DependencyGraph.Tracker.UndoDependencyAdded | src/filigree/db_events.py:518-527 | Deletes the edge the event names and leaves every other |
| DependencyGraph.Tracker.UndoDependencyRemoved | src/filigree/db_events.py:529-562 | Restoring an edge, refused when it would close a cycle |
| DependencyGraph.Tracker.UpdateParent | src/filigree/db_issues.py:943-951 | Reparenting and its refusals |
| DependencyGraph.Tracker.UndoParentChanged | src/filigree/db_events.py:604-633 | Restoring a parent, refused when it is gone or would close a loop |
| DependencyGraph.Tracker.ImportGraph | src/filigree/db_meta.py:1187-1245 | The issue, parent and dependency stages as one transaction that a refusal undoes |
| DependencyGraph.AddDepIsExact | src/filigree/db_planning.py:238-252 | On an acyclic graph the insert is refused exactly when it would close a cycle, and otherwise leaves exactly the edge added |
| DependencyGraph.AddDepReplies | src/filigree/db_planning.py:229-259 | Every answer of the insert, in the source's order, and the rows it leaves |
| DependencyGraph.PutReplies | src/filigree/db_meta.py:625-632 | Of the unvalidated insert: a row already there, a missing end, or the new row |
| DependencyGraph.RemoveDepReplies | src/filigree/db_planning.py:287-320 | Of the removal: not found, no row, or that row and no other taken |
| DependencyGraph.UndoAddedTakes | src/filigree/db_events.py:518-527 | Undoing an addition takes exactly the edge its event's value names, whichever form the value has |
| DependencyGraph.UndoRemovedReplies | src/filigree/db_events.py:529-562 | Of restoring a removed dependency from its event's value, bare or with a kind |
| DependencyGraph.SetParentReplies | src/filigree/db_issues.py:943-951 | Of a new parent: its own, missing, looping, or set; an empty one clears it |
| DependencyGraph.UndoParentReplies | src/filigree/db_events.py:604-633 | Of restoring a parent |
| DependencyGraph.ImportSucceedsIff | src/filigree/db_meta.py:1187-1340 | The staged import, which checks each link and each dependency against those before it, succeeds exactly when as a whole nothing is there twice (or it merges), every parent and both ends of every dependency are there, and neither parents nor dependencies close a loop; it then leaves just the union, with existing issues keeping their parents, and otherwise nothing |
| DependencyGraph.LinkRefusal | src/filigree/db_meta.py:1230-1245 | A refused parent link is the first refused one, and why |
| DependencyGraph.DependencyRefusal | src/filigree/db_meta.py:1327-1346 | So is a refused dependency |
| DependencyGraph.UndoRemovedIsExact | src/filigree/db_events.py:539-562 | Restoring an edge keeps both graphs acyclic and is refused for a cycle exactly when there would be one |
| DependencyGraph.RemoveThenUndo | src/filigree/db_planning.py:287-320 | Removing a dependency and undoing it restores the same rows |
| DependencyGraph.RunsStayAcyclic | src/filigree/db_meta.py:561-583 | Every run of creations, validated inserts, imports, removals, reparents and undos keeps dependencies and parents acyclic |
| DependencyGraph.UnvalidatedInsertIsSoundIff | src/filigree/db_meta.py:621-632 | An unvalidated insert keeps the graph acyclic exactly when validation would have accepted it |
| DependencyGraph.UnvalidatedInsertCanCycle | src/filigree/db_meta.py:621-632 | Two unvalidated inserts that close a cycle |
| ScanIngest.Lookup | src/filigree/db_files.py:1473-1492 | Finds a row with the identity if there is one |
| ScanIngest.ScanStore.UpsertFileRecord | src/filigree/db_files.py:1204-1313 | Finds, adopts or inserts the file of a path, asking the registry where it was not asked before, and counts it once per batch |
| ScanIngest.ScanStore.UpsertFinding | src/filigree/db_files.py:1434-1559 | Updates or inserts a finding and keeps the statistics, the seen ids and the regressed issues |
| ScanIngest.ScanStore.SweepFile | src/filigree/db_files.py:1685-1711 | The SELECT and UPDATE of one file's sweep |
| ScanIngest.ScanStore.MarkUnseen | src/filigree/db_files.py:1652-1711 | The loop over files equals one sweep over all of them |
| ScanIngest.ScanStore.Window | src/filigree/db_files.py:2020-2133 | An attempt either commits exactly what a clean run leaves, fails with nothing changed, or is interrupted with nothing changed |
| ScanIngest.ScanStore.Ingest | src/filigree/db_base.py:146-187 | After any number of rolled-back attempts, tables and statistics are those of one clean run; when all three are interrupted the tables are unchanged |
| ScanIngest.SweepIsExact | src/filigree/db_files.py:1652-1711 | Over every clean run: a reported finding that was fixed or unseen is open afterwards and one that was open, acknowledged or a false positive keeps its status; an unreported one is unseen exactly if it was active, of this source, in a swept file and a sweep was asked for; and the resolved pairs and the regressed issues are exactly those this gives |
| ScanIngest.SeenIsReported | src/filigree/db_files.py:1473-1559 | What the window has seen is exactly the findings with the identity of a placed report that such reports go to, and what it sweeps exactly the files of placed reports and known scanned paths |
| ScanIngest.ReportedIsNamed | src/filigree/db_files.py:1473-1492 | With unique identities those are all findings with the identity of a placed report |
| ScanIngest.ScannedKeys | src/filigree/db_files.py:2096-2110 | Folding in the scanned paths keeps what was seen and adds their known files with nothing seen |
| ScanIngest.PlacedHoldsReport | src/filigree/db_files.py:1494-1559 | The finding a report is placed at holds its content (a suggestion cut at 10000 characters), file and line; a new one is open, seen once and of this run, an old one keeps its issue and its first run and is seen once more |
| ScanIngest.PlaceFileMeans | src/filigree/db_files.py:1217-1313 | Where a report's file is found: a path that is known, else the canonical path or the id the registry gives, else a new row; refused exactly for a registry that names another id for a known path, and for a path nobody resolved |
| ScanIngest.IdentityMeans | src/filigree/db_files.py:1473-1492 | A report means a row exactly when source and fingerprint agree, and for an empty fingerprint also file, rule and line, an unknown line being one with no line |
| ScanIngest.PlacedCounts | src/filigree/db_files.py:1494-1559 | A report counts as created exactly when no row had its identity, as updated otherwise, and also as unchanged exactly when it left an active row's place and content as they were |
| ScanIngest.FilesAreCountedOnce | src/filigree/db_files.py:1272-1313 | Over every clean run the files created are the new file rows, and files created and updated are together the files the reports were placed in, each once |
| ScanIngest.PlacedLeavesOthers | src/filigree/db_files.py:1613-1648 | A report leaves findings with another identity alone |
| ScanIngest.IngestTallies | src/filigree/db_files.py:1556-1559 | The counters and id lists agree with the rows written |
| ScanIngest.IngestKeepsUnique | src/filigree/db_files.py:1473-1492 | Every ingest keeps both identities unique and moves no existing row to another identity |
| ScanIngest.ReplayCreatesNothing | src/filigree/db_files.py:1272-1313 | With a registry that keeps paths, ingesting a batch again succeeds, creates no file and no finding and leaves every identity as it was |
| ScanIngest.EveryRequestIsAccountedFor | src/filigree/db_files.py:1839-1872 | Requests are as many as created, updated and failed ones, and the failed are, once each, exactly those whose kind is not accepted or whose file is skipped |
| FingerprintSchemes.SchemesAreImmutable | src/filigree/db_files.py:1890-1915 | Over every run of ingests one after the other, recorded schemes never change and every sweep in history declared the recorded scheme or none |
| FingerprintSchemes.MismatchSweepsNothing | src/filigree/db_files.py:1901-1918 | A batch with a different scheme marks no finding unseen, resolves none and records nothing |
| FingerprintSchemes.ProcessMeans | src/filigree/db_files.py:1890-1925 | What one call does: it sweeps exactly when asked to and no two different schemes meet, records its scheme exactly when none was recorded, and touches no other source's |
| FingerprintSchemes.StepKeepsSchemesIff | src/filigree/db_files.py:1731-1748 | With concurrent calls a step overwrites a recorded scheme exactly when another call recorded a different one since it read |
| FingerprintSchemes.UnracedRunsKeepSchemes | src/filigree/db_files.py:1713-1748 | Without such races concurrent ingests keep schemes immutable and sweeps matching |
| FingerprintSchemes.RacedBaselineIsOverwritten | src/filigree/db_files.py:1890-1925 | Two simultaneous first ingests that both sweep under different schemes |
| Cascade.CascadeService.IssueLastClosedByCascade | src/filigree/finding_issue_cascade.py:170-186 | The newest-first search answers whether the last change into a done status was the cascade's |
| Cascade.CascadeService.MayReopenIssue | src/filigree/finding_issue_cascade.py:190-197 | The check: the issue is done and its last change into done was the cascade's |
| Cascade.CascadeService.ReopenIssue | src/filigree/finding_issue_cascade.py:198-209 | The reopen transaction, which looks at the status again only, or the debt for its failure where that can be recorded |
| Cascade.CascadeService.ReopenRegressedFinding | src/filigree/finding_issue_cascade.py:188-209 | Check and reopen with nothing in between, and whether it reopened |
| Cascade.CascadeService.ApplyCloseDecision | src/filigree/finding_issue_cascade.py:140-168 | Gate verdict, close transaction and, where it can be recorded, the debt for one candidate |
| Cascade.CascadeService.CloseResolvedFindings | src/filigree/finding_issue_cascade.py:108-138 | The loop over candidates with the known-down signal |
| Cascade.CascadeCloses | src/filigree/db_files.py:2387-2435 | In every interleaving each change into done that the cascade logged was made by an allowed close step that met the issue not done and every finding linked to it fixed, a false positive or unseen |
| Cascade.CloseOneIff | src/filigree/db_files.py:2387-2435 | A candidate is closed exactly when the gate allows it, the finding is linked to the issue and fixed or unseen, no linked finding is open or acknowledged, the issue is there and not done, and the lane is a done status; when it leaves a debt instead |
| Cascade.DownIff | src/filigree/finding_issue_cascade.py:108-138 | The batch takes the gate for down exactly after a candidate whose decision said so while it was not known |
| Cascade.IngestMeans | src/filigree/db_files.py:1929-1983 | What an ingest leaves of every finding, and exactly which reopens and closes its caller then owes |
| Cascade.StaleSweepMeans | src/filigree/db_files.py:2460-2540 | What a stale sweep leaves of every finding, and exactly which closes its caller then owes |
| Cascade.CallsAreInOrder | src/filigree/db_files.py:1962-1983 | In every run a caller reads the status of one issue it is to reopen at a time, closes nothing before its reopens are done, and keeps what it has read only while it is to reopen that issue |
| Cascade.BatchClosesEachOnce | src/filigree/finding_issue_cascade.py:108-138 | A batch reports each issue it closed once, and exactly those it moved into done |
| Cascade.BatchClosesWhatItCan | src/filigree/finding_issue_cascade.py:108-138 | The issues a batch closes are exactly those of the candidates that can be closed when their turn comes |
| Cascade.UninterruptedReopenIff | src/filigree/finding_issue_cascade.py:188-209 | In every reachable state, a check followed at once by its reopen reopens a done issue exactly when its last logged way into done was the cascade's, overturns a person exactly when one has undone it back into done since, and takes just that issue off the caller's queue |
| Cascade.ReopenOverturnsIff | src/filigree/finding_issue_cascade.py:188-201 | In every interleaving, with the two reads of the check and the reopen as separate steps, a reopen overturns a person exactly when it can reopen and the last way into done since its check was a person's, or there was none and the check passed over an undo |
| Cascade.OnlyPeopleOverturnPeople | src/filigree/finding_issue_cascade.py:170-209 | In runs where people undo nothing into done and put into done nothing that is between check and reopen, no step but a person's overturns a person |
| Cascade.ReopenCanOverturnUndo | src/filigree/finding_issue_cascade.py:170-186 | A run from an empty store on which an uninterrupted reopen overturns a person's undo |
| Cascade.SplitReopenOverturnsPerson | src/filigree/finding_issue_cascade.py:188-201 | A run from an empty store on which a person's close between check and reopen is overturned |
| Cascade.ForgetsIff | src/filigree/db_files.py:1952-1983 | A step leaves a cascade-closed issue with an active finding, nobody to reopen it and no debt since it went into done exactly when the only call that owes the reopen crashes or fails to reopen and to record the debt, or a person makes a finding of such an issue active, or undoes it back into the cascade's close |
| Cascade.RegressesAreNotForgotten | src/filigree/db_files.py:1952-1983 | In every interleaving an issue is forgotten at some time exactly when one of those steps happens to it; without one, once all callers are done a cascade-closed issue has no active finding unless a reopen since its close failed with a debt |
| Cascade.CrashForgetsARegress | src/filigree/db_files.py:1952-1960 | A run from an empty store on which a crash forgets a regress |
| Cascade.FailedReopenForgetsARegress | src/filigree/finding_issue_cascade.py:60-85 | A run on which the reopen and the comment about its failure both fail |
| Cascade.EditForgetsARegress | src/filigree/db_files.py:2219-2260 | A run on which linking an active finding to a cascade-closed issue leaves it closed |
| Cascade.UndoForgetsARegress | src/filigree/finding_issue_cascade.py:170-186 | A run on which undoing one's own reopening leaves an active finding on a cascade-closed issue |
| Cascade.DueAgainIff | src/filigree/db_files.py:1982-1983 | An issue with every finding resolved that no call is going to close becomes due exactly by a stale sweep that ages one of its findings |
| Cascade.CrashLeavesAnIssueOpen | src/filigree/db_files.py:1962-1983 | A run on which a crash before the closes leaves such an issue open |
| EntityBindings.NormaliseSignature | src/filigree/db_entity_associations.py:131-146 | A blank signature counts as none; any other is kept verbatim |
| EntityBindings.KindMeans | src/filigree/db_entity_associations.py:122-128 | A kind is kept without the blanks around it |
| EntityBindings.BindingStore.AddEntityAssociation | src/filigree/db_entity_associations.py:188-339 | The upsert with its sticky columns, its refusals and its event |
| EntityBindings.BindingStore.RemoveEntityAssociation | src/filigree/db_entity_associations.py:341-400 | The removal, refused for a signed row |
| EntityBindings.AcceptedIff | src/filigree/db_entity_associations.py:188-400 | An addition succeeds exactly for a hash without blanks at its ends and an existing issue, a removal exactly without a sign-off; which rows and events each leaves, and that a refusal changes nothing |
| EntityBindings.BindingsAreFolds | src/filigree/db_entity_associations.py:227-298 | After every run a row holds its first attacher, last hash and kind, and the last signed write's signature, sequence and hash (the first write's sequence where none was signed); signature and signed hash are null together; the sign-off is stale exactly when the last write's hash is not the last signed one's |
| EntityBindings.FreshMeansLastWrite | src/filigree/db_entity_associations.py:149-152 | A binding is fresh exactly against its last write's hash and unknown only without a current one |
| EntityBindings.SignedStaysSigned | src/filigree/db_entity_associations.py:378-393 | Once signed, no sequence of calls makes a binding unsigned or absent, and only signed writes change the sign-off |
| EntityBindings.EventsAgreeWithTable | src/filigree/db_entity_associations.py:317-338 | The events recorded tell which bindings exist and with which hash |
| Promotion.ObservationStore.FindPromoted | src/filigree/db_observations.py:1087-1091 | Finds an issue promoted from the observation if there is one |
| Promotion.ObservationStore.PromoteTransaction | src/filigree/db_observations.py:1084-1171 | The first transaction: return the existing issue and clear a lingering observation, refuse, or create |
| Promotion.PromotesIff | src/filigree/db_observations.py:1084-1171 | When the first transaction finds an issue, refuses or creates, the issue it creates, and the audit row it writes for a lingering observation that has none |
| Promotion.CallSteps | src/filigree/db_observations.py:1173-1207 | The two transactions behind it, and that either may fail without holding up the other |
| Promotion.ObservationStore.DismissObservation | src/filigree/db_observations.py:686-717 | Audits and deletes, or reports not found |
| Promotion.DismissMeans | src/filigree/db_observations.py:686-717 | A dismissal takes the observation and adds its audit row exactly when it is there |
| Promotion.ObservationStore.SweepExpired | src/filigree/db_observations.py:168-196 | Audits and deletes exactly the expired observations and prunes the audit trail |
| Promotion.SweepMeans | src/filigree/db_observations.py:168-196 | A sweep takes exactly the observations whose time has come, adds a row for each and keeps the newest rows of the trail |
| Promotion.PromotedAtMostOnce | src/filigree/db_observations.py:1084-1171 | Under any interleaving of promoters, crashes, dismissals and sweeps at most one live issue carries an observation's id, no observation disappears without an audit row ever written or an issue, and the audit table is the newest part of all rows written |
| Promotion.RetryReturnsTheIssue | src/filigree/db_observations.py:1087-1116 | A retry returns the live issue, clears a lingering observation with an audit row, and makes no second issue |
| Promotion.RowsAreWritten | src/filigree/db_observations.py:1084-1207 | The rows counted as written are what each step adds to the audit table before pruning |
| Promotion.AuditDuplicatesIff | src/filigree/db_observations.py:1195-1207 | The third transaction leaves a second row for a promotion exactly when the trail holds one already |
| Promotion.OvercountsIff | src/filigree/db_observations.py:1095-1109 | The audit rows of an observation, written and owed, come to exceed the issues made from it exactly at a retry that writes the row of a lingering observation while every promotion of it still has its own row to write |
| Promotion.AuditsMatchPromotionsIff | src/filigree/db_observations.py:1084-1207 | In every interleaving that happens at some time exactly when such a retry does; without one there are never more promoted rows than promotions |
| Promotion.PromotionCanBeAuditedTwice | src/filigree/db_observations.py:1195-1207 | A run that writes two audit rows for one promotion |
| Annotations.FindAll | src/filigree/db_annotations.py:430-437 | The search loop collects every non-overlapping match from the left |
| Annotations.ComputeAnchorState | src/filigree/db_annotations.py:373-453 | The anchor's state for every file and annotation |
| Annotations.AnchorMeans | src/filigree/db_annotations.py:373-453 | Which state the anchor has, for every file and annotation: missing, unchanged, still at its lines, found once elsewhere, or stale |
| Annotations.SliceMeans | src/filigree/db_annotations.py:164-186 | What is kept of a text at given lines: those lines, and up to two before and after; refused exactly when they reach beyond the text, and for which of the two |
| Annotations.CountLines | src/filigree/db_annotations.py:79-82 | A snippet has one line more than newlines before its last character |
| Annotations.OffsetIsInItsLine | src/filigree/db_annotations.py:75-76 | The line number of an offset is its line's place among the split lines |
| Annotations.DriftedNamesItsLines | src/filigree/db_annotations.py:438-451 | A drifted anchor names exactly the lines its single match covers |
| Annotations.SingleMatchIsUniqueIff | src/filigree/db_annotations.py:430-438 | A single match is the only occurrence of a snippet, in every text, exactly when the snippet does not end as it starts |
| Annotations.OverlapCountsOnce | src/filigree/db_annotations.py:430-437 | "aa" is found once in "aaa" |
| Annotations.SliceIsFoundAgain | src/filigree/db_annotations.py:412-429 | What was sliced from a text is found in it at the same lines |
| Annotations.DriftFollowsInsertion | src/filigree/db_annotations.py:438-451 | After whole lines are inserted above, a snippet that occurs once is anchored exactly that many lines further down |
| Timestamps.CanonicalTextOrdersAsInstants | src/filigree/db_base.py:69-70 | Canonical texts, with six fractional digits or none, compare exactly as their instants |
| Timestamps.RenderReadsBack | src/filigree/db_base.py:210-213 | A rendered moment reads back as itself, in UTC |
| Timestamps.ParseIff | src/filigree/db_base.py:211-213 | A text reads as a moment and an offset exactly when it spells them: any separator, the fraction written out or, when zero, left out, and no offset or one of hours and minutes |
| Timestamps.NormalizeMeans | src/filigree/db_base.py:192-213 | What normalising answers: nothing for nothing, a refusal exactly for a text that cannot be read or an instant outside the years 1 to 9999, and otherwise the canonical text of the same instant |
| Timestamps.InstantIs | src/filigree/db_base.py:213-213 | The number of microseconds of a moment in closed form, with the leap years of the calendar |
| Timestamps.MomentOfIs | src/filigree/db_base.py:213-213 | Every instant in range is the instant of the moment computed for it |
| Timestamps.NormalizeIsIdempotent | src/filigree/db_base.py:192-213 | Normalising a normalised timestamp changes nothing |
| Timestamps.NormalizedTextOrdersAsInstants | src/filigree/db_base.py:192-213 | Normalised texts compare exactly as the instants they were read from |
| Timestamps.OffsetTextMiscompares | src/filigree/db_base.py:199-203 | Without normalising, a text with another offset compares against the order of the instants |

## Left out

- HTTP routes beyond the paging of the change feed, middleware, CLI parsing, logging, daemon and port detection.
- Git subprocesses, file hashing and diff capture; the text and checksum comparison of an annotated file are inputs.
- Loomweave clients: a registry resolve is a map from path to id, the closure gate a function.
- SQL reporting, label counts, summaries, annotation CRUD and configuration reading.
- A full export and import round trip; only the issue, parent and dependency stages of import are modelled.
- Migration: file temporaries, permissions and fsync; a copy is atomic because the code publishes by rename.
- Cache: `_compute_projects` reading `server.json`, and a handle's use after it was returned.
- Change feed: the entity list of a tombstone, and comments, values and verified actors of events.
- EventLog.EventStore.UndoLast: does not model heartbeat and claim expiry columns, `updated_at`, comments and the returned issue dictionary.
- Undo: `int(text)` of a stored priority accepts signs, spaces and underscores; plain decimal digits are modelled.
- Edits that also validate transitions or claims refuse more than the model does; an edit here is an accepted one.
- DependencyGraph.Tracker.AddDependency: does not model the project-prefix check of ids, which only refuses more.
- `bulk_insert_issue` with a preset parent; deletion of issues.
- Scan ingest: line attribution, the scan-run counters, and the order in which a file lookup by path or id picks among two rows (the path's row is taken).
- ScanIngest.ScanStore.Ingest: does not model `warnings`, which a retry keeps, and the back-off sleeps.
- ScanIngest.ScanStore.UpsertFileRecord: does not model the language and the registry-owned columns of a file row.
- ScanIngest.ScanStore.UpsertFinding: does not model the observations written beside a new finding.
- Cascade.CascadeService.IssueLastClosedByCascade: searches in insertion order, which is the order by (created_at, id) only while the clock does not step back.
- Cascade: an ingest is given by the findings it touches and sweeps; how it finds them is `ScanIngest`. Comments of reconciliation debts are two sets of issues: closes that failed, and reopens that failed since the issue last went into done.
- Length limits of content hashes.
- Promotion: labels, file associations and the text of the created issue's description.
- Annotations: texts have newline as their only line boundary; `splitlines` also splits at other characters.
- Timestamps: `fromisoformat` accepts further ISO 8601 forms; the extended form with an optional six-digit fraction and offset is read.
