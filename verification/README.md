# Verified model of AlphaClaw's shared-writer protocols

AlphaClaw runs beside other writers: agents and scripts that commit to the same git checkout, operators who edit the same
config files, other services that take the same lock, and processes that die between two writes. This Dafny project models
the parts of AlphaClaw whose correctness depends on those others, and proves what they promise for every behaviour of the
others that the code has to live with.

## What is modelled

- **Git sync** (`CommitGraph`, `PathTrees`, `TreeMerge`, `Staging`, `CommitPlan`, `Repository`, `GitSync`, `LockBackoff`,
  `GitSyncCodes`, `GitSyncStatus`, `GitWriterLock`). Commits are a growing sequence whose parents come earlier; trees, index
  and work tree are maps from path to entry. `Repository` gives every git command the sync uses a body and a contract, and
  `OthersRun` lets any number of other writers act: origin is fast-forwarded, commits appear, and, when they may, the local
  branch, index and work tree change. `GitSyncRun.PerformGitSync` is the run itself, with others acting between any two
  commands. Constants of the repository name the assumptions: `lockHonoured` (the others respect the writer lock until the run
  has read its own commit), `refReadsReliable` (HEAD cannot be read only where there is no commit) and `quiet` (nobody else
  touches this checkout; origin still moves). Theorems that need one of them say so. In a `calm` repository nobody else acts
  and nothing fails but chosen reads of HEAD; the runs that go wrong are exhibited there. What a plan is made from (the status,
  the new folders, the gitlinks) is any listing that is true of index and disk, and `GitSyncRun.FactsHold` ties the run's
  record of it to them.
- **Autotune ownership** (`AutotuneOwnership`). The ledger in memory, the ledger on disk and the operator's file are three
  variables; an apply can crash between any two of its writes, any ledger write can fail, and operators edit in between.
- **Box lock** (`BoxLock`, `BoxLockRecords`). flock on open file descriptions, with the owner file and the log beside it.
- **Smaller machines**: `EngineRange`, `ProxyPathGuard`, `ConfigCache`, `BootReport`, `ClawCommand`, `CopyRetention`.
- `Text` and `Wrappers` are helpers.

Run `dafny verify dfyconfig.toml`.

## Where the code does not do what one would expect

Each of these is shown by a lemma or method with a concrete input, proved as an exact condition, or kept in a contract.

- Undoing the run's commit restores the index at the committed paths exactly when they had nothing staged and no tracked
  file gave way to a folder with a committed file (`Staging.UndoRestoresIndexExactlyWhen`,
  `Staging.UndoDropsFileReplacedByFolder`).
- A staged deletion is left alone exactly when no committed path stands in its place, as a file or as the folder it was
  (`Staging.StagedDeletionIsLeftAlone`, `Staging.StagedDeletionTakenWithItsFolder`).
- Protection covers what lies below each protected folder, but `.env` only as a file
  (`CommitPlan.ProtectionCoversTheFolder`).
- Moving the branch back drops only the run's own commit exactly when that commit's parent is an ancestor of the commit moved
  back to (`CommitGraph.UndoDropsOnlyItself`). That one is read before the run commits, so without the writer lock a commit
  that lands in between is dropped too (`GitSync.UndoThatDropsAnother`).
- If HEAD cannot be read at the start for another reason than a missing commit, `reset --mixed FETCH_HEAD` moves a branch that
  has commits. Its move keeps what the branch reached exactly when the branch's tip is an ancestor of the fetched one
  (`GitSyncRun.AdoptRemote`, `GitSync.KeepsExactlyWhen`); `GitSync.RunThatDropsACommit` drops one and exits 0. It can only be the run's first
  move; every later one goes forward or takes back the own commit.
- If HEAD cannot be read after the commit, the run ends as ok and integrates nothing (`GitSync.RunThatIntegratesNothing`). Exit 0
  means integrated exactly where that check finds a commit, and, where reads of HEAD can be relied on, that is exactly on a
  branch that has one (`GitSyncRun.TipIsIntegrated` in `PerformGitSync`).
- An operator's explicit `null` counts as absent: a calm history and a disable give the file back exactly when there was none,
  or no apply adopted it (`AutotuneOwnership.CalmHistoryRestoresExactlyWhen`, `AutotuneOwnership.NullIsNotKept`).
- A crashed apply is repaired by the next apply or disable exactly when `CrashIsRepairable` holds. It fails in three ways: an
  operator value equal to the target is claimed, a re-apply whose intent did not reach the disk, or one that crashed before
  its update, leaves autotune's value behind (`AutotuneOwnership.DisableRepairsCrashExactlyWhen`). If the next apply's config
  update fails, repair is lost exactly when the crashed apply had changed the file
  (`AutotuneOwnership.FailedUpdateRepairsExactlyWhen`), and for good (`AutotuneOwnership.FailedUpdateAfterCrashOrphans`); a disable
  whose update fails loses nothing (`AutotuneOwnership.FailedDisableLosesNothing`).
- A scan of the whole scope that found no held-back path ends that episode even when the run then failed; the comment at
  lib/cli/git-sync-status.js:68 says that a failed run leaves it as it was. The model follows the code: a failed run ends it
  exactly when it had scanned the whole scope and found nothing (`GitSyncStatus.FailedRunEndsHeldBackExactlyWhen`,
  `GitSyncStatus.FailedRunEndsHeldBack`).
- The autotune probe refuses a file that parses exactly when its read fails, or a refusal is cached under the file's key: one
  failed read keeps autotune off until the key changes (`ConfigCache.FailedReadSticks`). Autotune is on over a file that has it
  off exactly when the probe passes and the settings read after it fails uncached, with defaults that are on
  (`ConfigCache.AnswerIsWrongExactlyWhen`, `ConfigCache.SecondReadFails`), or the file was damaged in between
  (`ConfigCache.DamagedInBetween`).
- A file that is replaced between a stat and its read, and later put back under its old key, is answered with the other text
  (`ConfigCache.LostKeyComesBack`); under any other key the cache answers what a fresh read would.
- A signal can follow the settling of a command exactly when it owns its group, was stopped by its output limit and then by its
  time limit, and the first grace timer has not fired, or when an error settled it while its group was being killed
  (`ClawCommand.ClawCmd.CanStillKillExactlyWhen`, `SecondLimitKillsAfterSettling`, `ErrorLeavesTheWait`).
- A tab between two dots would pass the proxy guard and still be a dot segment to the URL parser
  (`ProxyPathGuard.TabHidesDots`). A request target cannot hold one, and the theorem says so.

## Model

| member | source | states |
|---|---|---|
| CommitGraph.AncestryIsStable | lib/cli/git-sync.js:371-379 | what `merge-base --is-ancestor` answered stays true and stays false while other writers add commits |
| CommitGraph.MergeReachesBothParents | lib/cli/git-sync.js:737-748 | a commit with two parents reaches exactly itself and what either parent reaches |
| CommitGraph.UndoDropsOnlyItself | lib/cli/git-sync.js:751-762 | moving the branch back over the own commit loses that commit and nothing else, exactly when its parent is an ancestor of the commit moved to |
| TreeMerge.CleanMergeKeepsEverySide | lib/cli/git-sync.js:719-737 | in a clean merge a path changed on one side has that side's content, one changed alike on both has it, and one changed differently was merged line by line |
| TreeMerge.ConflictsExactly | lib/cli/git-sync.js:724-736 | a merge conflicts exactly when both sides changed a path differently and do not both hold files there that merge by line, or a merged file and folder clash |
| TreeMerge.ConflictAtExactlyWhen | lib/cli/git-sync.js:724-736 | the same at one path |
| TreeMerge.CleanMergeIsTreeShaped | lib/cli/git-sync.js:737-748 | a merge without conflicts is a tree that can be committed |
| TreeMerge.UnchangedSideTakesTheOther | lib/cli/git-sync.js:719-726 | merging with a side that changed nothing gives the other side, without conflict |
| TreeMerge.MergeIsSymmetric | lib/cli/git-sync.js:719-726 | given a line merge that ignores the order of its sides, neither a merge's conflicts nor its tree depend on which side is the local one |
| Staging.CommitTakesExactlyTheCandidates | lib/cli/git-sync.js:592-607 | the commit has the work tree's content at the planned paths and the old commit's everywhere else, apart from files that gave way to them |
| Staging.CommitStagesExactlyTheCandidates | lib/cli/git-sync.js:592-607 | after the commit the index agrees with it at the planned paths and is as before elsewhere |
| Staging.StagedContentIsLeftAlone | lib/cli/git-sync.js:200-203 | content that others staged and did not touch since keeps its index entry and stays out of the commit |
| Staging.StagedDeletionIsLeftAlone | lib/cli/git-sync.js:200-203 | a staged deletion stays out of the commit exactly when no planned path clashes with it |
| Staging.StagedDeletionTakenWithItsFolder | lib/cli/git-sync.js:200-203 | an input where a staged deletion is committed with the path that replaced it |
| Staging.UndoRestoresAt | lib/cli/git-sync.js:757-768 | path by path, when the index after the undo equals the index before the run |
| Staging.UndoRestoresIndexExactlyWhen | lib/cli/git-sync.js:751-768 | the index after a held run equals the one before it exactly when no committed path was also staged and no tracked file gave way to a folder |
| Staging.UndoDropsFileReplacedByFolder | lib/cli/git-sync.js:757-768 | an input where the undone index lost a file that the run did not commit |
| Staging.CommitTouchesOnlyMatchedPaths | lib/cli/git-sync.js:601-604 | a commit changes the branch's tree only at paths that a literal pathspec matches or that clash with one |
| Staging.IntentTwice | lib/cli/git-sync.js:593-600 | marking the same new files again in a second attempt changes nothing |
| Staging.PlanOnMarkedIndex | lib/cli/git-sync.js:568-621 | a plan made on an index with the first attempt's marks is one for the index without them |
| CommitPlan.ParseStatusEntries | lib/cli/git-sync.js:204-225 | the four lists are those of the NUL-separated listing, by their two status letters |
| CommitPlan.ParsedAsPrinted | lib/cli/git-sync.js:198-225 | every listing as git prints it reads back to its entries |
| CommitPlan.ProtectionCoversTheFolder | lib/cli/git-sync.js:237-251 | whatever lies below a protected folder is protected, and below a protected path exactly unless that is `.env` |
| CommitPlan.FindRoot | lib/cli/git-sync.js:516-521 | the loop over slashes finds the listed root of a path, if it has one |
| CommitPlan.ChargedToTheOnlyRoot | lib/cli/git-sync.js:513-524 | with prefix-free roots every path is charged to the one root that covers it |
| CommitPlan.ChargeRoots | lib/cli/git-sync.js:513-524 | each root's bytes are the sum over the paths it covers |
| CommitPlan.HoldBackLarge | lib/cli/git-sync.js:525-527 | a path is held back exactly when its root's sum exceeds the limit; a path without a root is kept |
| CommitPlan.BytesAreConserved | lib/cli/git-sync.js:513-524 | the roots' sums add up to the bytes of all paths that have a root |
| CommitPlan.PlanCommit | lib/cli/git-sync.js:495-559 | the plan's candidates, held-back roots and nested repositories, each by what status, sizes and gitlinks say |
| CommitPlan.PlanIsExact | lib/cli/git-sync.js:501-558 | a path is planned exactly when it differs from the index and is not protected, nested, a gitlink, held back or replaced by a folder |
| CommitPlan.SyncCommitsOnlyItsPlan | lib/cli/git-sync.js:495-607 | a commit of exactly the paths that should be committed has the disk's content there and new content nowhere else |
| CommitPlan.ReportedOutIsNotPlanned | lib/cli/git-sync.js:501-546 | no path in a reported held-back root, and no reported nested repository, is one that should be committed |
| CommitPlan.LargeFileIsHeldBack | lib/cli/git-sync.js:509-527 | a new file above the limit is held back, whatever folder git lists it with |
| Repository.Repository.OthersRun | lib/cli/git-sync.js:62-80 | other writers never take a commit, or a tip that origin had, away; the local refs stay where the lock or nobody's presence keeps them |
| Repository.Repository.CommitOnly | lib/cli/git-sync.js:601-604 | `commit --only` records the candidates on top of the branch and leaves the rest of the index; it has nothing to commit only where the tree would be unchanged |
| Repository.Repository.ResetPaths | lib/cli/git-sync.js:762-767 | the path-limited reset sets the index to the commit at the given pathspecs only |
| Repository.Repository.UpdateRef | lib/cli/git-sync.js:761 | the branch moves only from the expected old value |
| Repository.Repository.MergeFfOnly | lib/cli/git-sync.js:692 | the branch moves only to a descendant, and a file that differs from the old tip is not written |
| Repository.Repository.Push | lib/cli/git-sync.js:672 | a push is accepted only where it fast-forwards origin's branch, and origin keeps every tip it had |
| Repository.Repository.MergeTree | lib/cli/git-sync.js:723-737 | a clean merge of the two given commits, or the conflict of one of their merges |
| GitSync.SyncPushIsStable | lib/cli/git-sync.js:638-685 | a push that was allowed stays allowed as history grows |
| GitSync.PushedTreeKeepsEverySide | lib/cli/git-sync.js:671-684 | the tree of every pushed merge holds at each path what the local tip and a tip of origin ask for over their base |
| GitSync.KeepsExactlyWhen | lib/cli/git-sync.js:449-458 | a move of the branch keeps all it reached exactly when there was nothing, or its old tip is an ancestor of the new one |
| GitSync.GitSyncRun.AdoptRemote | lib/cli/git-sync.js:449-458 | the adoption is at most one move, to a tip of origin, and the first of the run; it keeps what the branch reached under that condition only |
| GitSync.RunThatDropsACommit | lib/cli/git-sync.js:449-458 | a whole run that exits 0 although its adoption, on an unreadable HEAD, dropped the branch's commit |
| GitSync.UndoThatDropsAnother | lib/cli/git-sync.js:560-607 | without the writer lock: HEAD is read, another writer commits, the run commits, and its undo drops both commits |
| GitSync.GitSyncRun.PinLocalTip | lib/cli/git-sync.js:623-625 | the tip is HEAD at that moment, pinned exactly if the check before it finds a commit, and it finds one only on a branch that has one |
| GitSync.RunThatIntegratesNothing | lib/cli/git-sync.js:623 | a run that ends as ok while origin lacks the branch's commit |
| GitSync.GitSyncRun.Preflight | lib/cli/git-sync.js:418-458 | with nobody else there, a start in another writer's operation, or with unmerged paths, ends with that code and leaves the checkout alone |
| GitSync.GitSyncRun.PlannedCommitTakesOnly | lib/cli/git-sync.js:495-607 | the run's own commit, on the tree below it, has the plan's content and nothing protected, nested, held back or linked, by listings and a size limit that are true of the checkout |
| GitSync.GitSyncRun.UndoOwnCommit | lib/cli/git-sync.js:757-774 | the own commit is taken back unless git refused to, which no calm run with the checkout to itself meets; then the branch moved from it to the one before, and with nobody else there branch and disk are as found and the index is as `Staging` says |
| GitSync.GitSyncRun.CommitOwnPaths | lib/cli/git-sync.js:564-621 | at most two attempts; the own commit holds exactly what should be committed on top of the commit read before, and without one the branch holds all of it already |
| GitSync.GitSyncRun.MergeWithoutWorktree | lib/cli/git-sync.js:719-749 | a clean merge whose parents are the two pinned tips, or a conflict of them; the checkout is untouched |
| GitSync.GitSyncRun.IntegrateTips | lib/cli/git-sync.js:648-684 | what a round pushes is the local tip, if it contains the tip fetched in that round, or one clean merge of the two, so retries never stack merges; a round held by a conflict has one between those two tips |
| GitSync.GitSyncRun.IntegrateWithRemote | lib/cli/git-sync.js:638-685 | at most three pushes; it ends with origin containing the local tip, or with a failing code |
| GitSync.GitSyncRun.BringLiveTreeForward | lib/cli/git-sync.js:688-702 | unless it is reported behind, the branch then contains the target; a file with local edits is never written, and the branch moves only forward |
| GitSync.GitSyncRun.Finish | lib/cli/git-sync.js:705-717 | what stopped the run is its code, nested repositories and held-back paths only replace an ok, and outcome and exit status come from the code table |
| GitSync.GitSyncRun.PerformGitSync | lib/cli/git-sync.js:283-717 | over the whole run: every tip origin ever had stays reachable; at most three pushes of allowed commits; exit 0 means that origin has a tip HEAD was at during the run, wherever the check after the commit finds HEAD; a hold comes from a conflict with a tip of origin, pushed nothing, and keeps the own commit only if it is the branch's first or git refused the undo. With nobody else at the checkout: the tip of an exit 0 is the own commit or the one found, holds the disk's content at every path that should be committed, and is on the branch unless the live tree is reported behind; the own commit holds exactly what it should; edits on disk survive; a start in another writer's operation is refused untouched; and a calm run with nothing to sync changes nothing |
| GitSync.RepeatHeldRuns | lib/cli/git-sync.js:560-563 | any chain of held runs leaves branch and work tree where the first one found them |
| GitSyncCodes.ExitStatusFollowsOutcome | lib/cli/git-sync-codes.js:5-12 | a run exits 0 exactly when it succeeded or was switched off, and no code asks for more than three runs |
| LockBackoff.Machine.Run | lib/cli/git-sync.js:320-362 | whatever the lock file does: at most 12 invocations, and exactly 12 before giving up when the clock moves in the sleeps only; at most 60 seconds of sleep, no sleep that would end past the give-up time or the deadline, and nothing but contention is retried |
| LockBackoff.BackoffLimit | lib/cli/git-sync.js:91-93 | the delays fit the minute exactly up to the eleventh |
| GitSyncStatus.FoldTellsHistory | lib/cli/git-sync-status.js:48-122 | after any history the record tells its failing suffix, that suffix's first time, the suffix with one code, the latest success and pushed commit, and each open episode's start, length and paths |
| GitSyncStatus.FailedRunEndsHeldBackExactlyWhen | lib/cli/git-sync-status.js:67-81 | a failed run ends the held-back episode exactly when it scanned the whole scope and found nothing |
| GitSyncStatus.FailedRunEndsHeldBack | lib/cli/git-sync-status.js:67-81 | an input where a refused push ends it |
| GitSyncStatus.ThreeFailuresAlert | lib/cli/git-sync-status.js:22-34 | three failures in a row alert, whatever their codes, and so does a streak that began a day ago |
| GitSyncStatus.AlertsExactlyWhen | lib/cli/git-sync-status.js:26-34 | a history alerts exactly when its failing suffix is as long as the last code asks, or a day old |
| GitWriterLock.WriterLock.AcquireWriterLock | lib/cli/git-writer-lock.js:107-167 | acquired means locked on this very file whatever the environment names; otherwise descriptors and holder file are as before |
| GitWriterLock.WriterLock.FlockFd | lib/cli/git-writer-lock.js:41-51 | flocking the wrapper's description again succeeds at once, another holder's only once that lets go |
| GitWriterLock.WriterLock.Release | lib/cli/git-writer-lock.js:156-165 | releases once; a nested hold leaves descriptor, lock and holder file to the wrapper |
| GitWriterLock.WriterLock.RunLocked | lib/cli/git-writer-lock.js:26-30 | a locked run leaves descriptors as they were; unless nested it leaves a free lock, and a nested one gives back what it took exactly when the wrapper had the lock |
| GitWriterLock.WriterLock.AtMostOneRun | lib/cli/git-writer-lock.js:20-30 | two runs are under the lock at once only on one shared description |
| AutotuneOwnership.Autotune.ApplyConcurrency | lib/server/autotune.js:600-831 | one apply does to memory, disk and file what `Step` says, and a changed file is always announced |
| AutotuneOwnership.Autotune.Revert | lib/server/autotune.js:622-677 | a disable changes only what the ledger attributes to autotune |
| AutotuneOwnership.LedgerStaysSound | lib/server/autotune.js:46-50 | over any history every recorded value is a computed target, and a recorded write implies a key owned from absent |
| AutotuneOwnership.ClampIsUnreachable | lib/server/autotune.js:641-668 | after any history from an empty ledger a disable deletes a value of autotune's own or changes nothing |
| AutotuneOwnership.OperatorsValueIsNeverTouched | lib/server/autotune.js:600-831 | an operator's value that is never a target, written between applies or inside one, outlives every apply, disable, crash, restart and failed write |
| AutotuneOwnership.NullIsNotKept | lib/server/autotune.js:704-710 | an explicit null is adopted and then deleted |
| AutotuneOwnership.CalmRunKeepsSettled | lib/server/autotune.js:618-831 | without crashes and edits, autotune holds nothing or owns what it put where nothing was, also with failing ledger writes and config updates |
| AutotuneOwnership.DisableRestores | lib/server/autotune.js:612-686 | after any crash-free, edit-free history a disable gives the operator's file back |
| AutotuneOwnership.CalmHistoryRestoresExactlyWhen | lib/server/autotune.js:612-710 | a disable after such a history gives the file back exactly when it held no explicit null or no apply adopted it |
| AutotuneOwnership.DisableRepairsCrashExactlyWhen | lib/server/autotune.js:628-640 | after a crash on either side of the config update, a disable restores the file exactly when what is on disk tells whose value it is |
| AutotuneOwnership.ApplyRepairsCrashExactlyWhen | lib/server/autotune.js:717-725 | the next apply repairs the crash under the same condition |
| AutotuneOwnership.EqualOperatorValueIsClaimed | lib/server/autotune.js:691-725 | an input where a crash lets autotune claim, and delete, an operator's equal value |
| AutotuneOwnership.FailedDisableLosesNothing | lib/server/autotune.js:678-684 | a disable whose update fails after a crash leaves the repair to the next one |
| AutotuneOwnership.FailedUpdateRepairsExactlyWhen | lib/server/autotune.js:734-740 | after a crash and a failed update, the next apply or disable repairs exactly when the crashed apply had not changed the file |
| AutotuneOwnership.CrashChangedTheFileExactlyWhen | lib/server/autotune.js:688-755 | when that is, in terms of the state before the crash |
| AutotuneOwnership.FailedUpdateAfterCrashOrphans | lib/server/autotune.js:734-740 | otherwise autotune's value stays for good, unless autotune computes it again |
| BoxLock.BoxLock.AtMostOneHold | lib/server/box-lock.js:349-384 | at most one hold is active, and it has the kernel's lock |
| BoxLock.BoxLock.ChildEnds | lib/server/box-lock.js:386-447 | an acquire ends as a hold of the lock whose record, if it could be written, is the owner file, or with its descriptor closed, no lock and no record |
| BoxLock.BoxLock.ReleaseHold | lib/server/box-lock.js:362-374 | releases once; both records are written under the lock, then the descriptor is closed |
| BoxLock.BoxLock.HeldInContext | lib/server/box-lock.js:465-473 | an operation that skips acquiring runs while its caller's hold has the lock |
| BoxLock.BoxLock.ProcessDies | lib/server/box-lock.js:16-18 | a death leaves no stale lock |
| BoxLock.BoxLock.Serve | lib/server/box-lock.js:421-447 | over any sequence of events: the invariants hold, while the records can be written the owner file names the current hold, and the process's log lines alternate acquire and matching release, and read back |
| BoxLockRecords.Tag | lib/server/box-lock.js:50-53 | a tag has 1 to 80 safe characters, whatever it was made from |
| BoxLockRecords.TagOfTag | lib/server/box-lock.js:50-53 | sanitizing a tag again changes nothing |
| BoxLockRecords.ParseLogLine | lib/server/box-lock.js:117-134 | the fields of a line, the last pair of a key winning |
| BoxLockRecords.LogLineReadsBack | lib/server/box-lock.js:93-134 | every line written parses back to its fields |
| BoxLockRecords.RecentLinesEndTheLog | lib/server/box-lock.js:240-257 | however the tail is cut, the lines shown are the log's last ones, whole and in order |
| EngineRange.ParseAlternative | lib/engines-range.js:97-119 | the loop reads exactly the terms that the grammar finds, expanded |
| EngineRange.ParseEngineRange | lib/engines-range.js:123-133 | the alternatives of the split text, or none if one is outside the grammar |
| EngineRange.ScanTerm | lib/engines-range.js:42-44 | a term as spelled, with any white space, is what the scanner reads |
| EngineRange.RangeParses | lib/engines-range.js:97-133 | every range that is spelled parses to its expansion |
| EngineRange.OnlyRangesParse | lib/engines-range.js:8-26 | a text parses exactly when it is the spelling of some range |
| EngineRange.ExpansionHolds | lib/engines-range.js:70-93 | the expanded comparators hold exactly when the version compares as the term says in the parts it names |
| EngineRange.VersionReads | lib/engines-range.js:41-61 | a printed version reads back to its numbers and prerelease mark |
| EngineRange.SatisfiesExactly | lib/engines-range.js:156-166 | a version satisfies a spelled range exactly when it has no prerelease tag and all terms of some alternative hold |
| EngineRange.UnreadableNeverBlocks | lib/engines-range.js:153-161 | only a readable range refuses, and only a readable version |
| EngineRange.AlternativeIsConvex | lib/engines-range.js:135-151 | what lies between two versions that satisfy an alternative satisfies it |
| ProxyPathGuard.StripQuery | lib/server/control-ui-mount.js:150-155 | the text before the first `?` or `#` |
| ProxyPathGuard.AcceptedHasNoDots | lib/server/control-ui-mount.js:187-207 | an accepted target has no segment that the URL parser takes for a dot segment, however escaped |
| ProxyPathGuard.AcceptedPathStaysMounted | lib/server/control-ui-mount.js:175-207 | the URL parser keeps the segments of an accepted target without control characters up to percent-encoding, so it stays below /openclaw/ |
| ProxyPathGuard.TabHidesDots | lib/server/control-ui-mount.js:175-207 | with a tab in it, an accepted target would leave the mount |
| ConfigCache.ConfigCache.ReadAlphaclawConfig | lib/server/alphaclaw-config.js:310-352 | with or without a cache hit, the answer is that of a fresh read, parse and normalize, in a new object, unless a key lost between stat and read has come back; only the key of a file replaced there is lost |
| ConfigCache.LostKeyComesBack | lib/server/alphaclaw-config.js:327-348 | an input where it has, and the answer is wrong |
| ConfigCache.ConfigCache.ProbeIsWrongExactlyWhen | lib/server/alphaclaw-config.js:878-904 | the probe refuses a file that parses exactly when its read fails or a refusal is cached, and passes one that does not exactly when a good answer is cached under a key that came back |
| ConfigCache.ConfigCache.Probe | lib/server/alphaclaw-config.js:858-907 | the answer is that of the cache under the file's key, or of a read, of the file as it was replaced if it was between the two |
| ConfigCache.ConfigCache.ReadAutotuneEnabled | lib/server/alphaclaw-config.js:860-909 | the probe's answer and then the settings', each from its cache or a read that may fail, whatever happens to the file inside the probe or in between |
| ConfigCache.ConfigCache.AnswerIsWrongExactlyWhen | lib/server/alphaclaw-config.js:854-909 | exactly when the whole answer differs from that of a reader without caches whose reads work |
| ConfigCache.FailedReadSticks | lib/server/alphaclaw-config.js:878-904 | one failed read keeps autotune off |
| ConfigCache.SecondReadFails | lib/server/alphaclaw-config.js:908 | a failed settings read turns autotune on over a `false` |
| ConfigCache.DamagedInBetween | lib/server/alphaclaw-config.js:887-908 | so does damage between the two reads |
| ConfigCache.ConfigCache.ReadAfterCallerChanges | lib/server/alphaclaw-config.js:327-348 | a caller that changes its result does not change the next one |
| ConfigCache.ConfigCache.UpdateStartsFromTheFile | lib/server/alphaclaw-config.js:354-412 | an update starts from what the file holds, whatever the caches hold, unless its key has come back |
| ConfigCache.ConfigCache.WriteAlphaclawConfig | lib/server/alphaclaw-config.js:389-402 | the file holds the normalized settings and the cache is gone; a failed write changes neither |
| ConfigCache.ConfigCache.UpdateAlphaclawConfig | lib/server/alphaclaw-config.js:354-419 | the file becomes the change of what the update starts from, and the cache is gone; a strict update leaves exactly a damaged file alone, and a failed write changes nothing on disk |
| BootReport.BootReports.WriteBinPhase | lib/server/boot-report.js:339-383 | with the invariant: the slots hold the latest boots newest first unless boots overlapped or a write failed |
| BootReport.BootReports.WriteRefusedBinPhase | lib/server/boot-report.js:385-409 | a refused start leaves the ring as it is |
| BootReport.BootReports.MergeServerPhase | lib/server/boot-report.js:411-442 | in any interleaving a written report holds one boot's halves only, the patch merged into what that boot read |
| BootReport.BootReports.MarkServerPhaseNotReached | lib/server/boot-report.js:444-450 | the report of the boot that was merged into says that its server phase was not reached, and nothing else changes |
| BootReport.BootReports.ReadOwnReport | lib/server/boot-report.js:507-519 | the report in the first slot exactly if it is this boot's, and then it holds that boot's halves only |
| BootReport.BootReports.ServerMerges | lib/server/boot-report.js:426-442 | a boot's merges add up field by field and leave its bin half and the older slots |
| BootReport.BootReports.PinIncidentReport | lib/server/boot-report.js:454-482 | a readable pin gives way only to another version, another verdict set or after seven days, and then explains the report |
| BootReport.LoopKeepsItsFirstReport | lib/server/boot-report.js:25-28 | a restart loop of a week keeps the report that began it, whatever consistent boots come in between |
| ClawCommand.ClawCmd.Finish | lib/server/commands.js:171-184 | the first result stays |
| ClawCommand.ClawCmd.OnData | lib/server/commands.js:253-264 | captured is every chunk up to the one that passes the byte limit, and nothing once settled; passing it stops the call exactly if nothing had |
| ClawCommand.ClawCmd.OnExit | lib/server/commands.js:298-302 | the leader's exit settles exactly a limited call without a group |
| ClawCommand.ClawCmd.OnClose | lib/server/commands.js:303-321 | ok means exit code 0 and no limit; a limited group call settles only without writers or after SIGKILL |
| ClawCommand.ClawCmd.WaitForGroup | lib/server/commands.js:311-320 | settles when no group member can write, or after SIGKILL at the deadline, and looks again otherwise |
| ClawCommand.ClawCmd.CanStillKillExactlyWhen | lib/server/commands.js:171-248 | exactly when a signal can follow the settling of a call; a call is stopped twice only when its output limit came first |
| ClawCommand.ClawCmd.KillsAfterSettling | lib/server/commands.js:228-321 | whenever one can, a course of events sends it |
| ClawCommand.ClawCmd.SecondLimitKillsAfterSettling | lib/server/commands.js:228-248 | an order of events after which SIGKILL is sent once the call has settled |
| ClawCommand.ClawCmd.ErrorLeavesTheWait | lib/server/commands.js:267-321 | the same after an error settled a call that ran out of time |
| ClawCommand.ClawCmdWithRetry | lib/server/commands.js:364-385 | only rate-limited failures are retried, at most the given number of times, after exactly the wait asked for or the growing default, up to the cap |
| CopyRetention.DueIsASuffix | lib/server/copy-retention.js:121-125 | newest first the verdicts are newest, recent, due, and at least the policy's number is kept |
| CopyRetention.PlanFamily | lib/server/copy-retention.js:105-127 | the due entries are that suffix, and exactly what the feature did not make is not managed |
| CopyRetention.RetentionSweep.SweepRetainedCopiesNow | lib/server/copy-retention.js:166-211 | each family loses exactly its due members that nobody holds and that can be removed; removed, held, failed and unverified members and the freed bytes are each counted as what became of the due ones |
| CopyRetention.EveryDueIsHandled | lib/server/copy-retention.js:166-206 | the four counts add up to the due members |
| CopyRetention.SweepLeavesEnough | lib/server/copy-retention.js:1-11 | a sweep leaves the policy's number of managed copies, or all there were, and every unmanaged entry |
| CopyRetention.NextSweepFindsWhatStayed | lib/server/copy-retention.js:176-201 | swept again at the same time, exactly the held or failed members are due |

## Left out

- Git internals: the line merge of two versions of a file is the parameter `mergeFile`; renames in merges are not detected;
  with several merge bases the base tree is arbitrary.
- HEAD is always on the sync branch: the detached-HEAD refusal, `remote set-url`, and finding the git directory and work
  tree are not modelled, nor symbolic links, empty folders and file modes other than gitlinks.
- The sizes and file types a plan reads are one snapshot per attempt; a command that fails either took effect or did not.
- Message wording, redaction, reporting limits of 20 paths outside the status record, logs, events and notifications.
- What the `in_progress_operation` and `unmerged_paths` refusals report about owners, markers and paths.
- The death of the process inside a git-sync run.
- `deriveTunings`: autotune's target is any number; the theorems hold without its range of 8 to 32.
- The ledger file is only written by autotune; other keys of the ledger, rows, resize events and stamps other than their
  ledger write are not modelled. The config update is atomic: an editor that ignores the config lock is not modelled.
- `flock` other than exclusive; a probe's answer to a status request; the JSON text of owner records; wait times of the box
  lock. Characters are UTF-16 code units in the source and Unicode scalars here; the two agree outside surrogate pairs.
- Numbers are unbounded: a version number or return code beyond 2^53 loses digits in the source.
- GitSync.GitSyncRun.UndoOwnCommit: what the index is after the undo is stated for a checkout nobody else touches, because
  other writers may change index and work tree between any two commands.
- GitSync.GitSyncRun.BringLiveTreeForward: edits that other writers make on disk during the run are theirs to change, so that
  edits survive is stated where nobody else touches the checkout; `Repository.MergeFfOnly` states it for the command itself.
- GitSync.RepeatHeldRuns: what the marks and resets of several held runs leave in the index is stated for one run only.
- Repository.Repository.MergeTree: which tree git merges several merge bases into is not modelled; it is an arbitrary one.
- GitWriterLock.WriterLock.FlockFd: how long the wait takes is not modelled, only whether the holder let go in it.
- BootReport.BootReports.ServerMerges: overlapping merges of one boot; `MergeServerPhase` covers them write by write.
- Other writers never leave a branch without a commit that had one, and never rewrite origin's branch.
- `computeVerdict` of a boot report: the verdict of a merge is an input. Redaction of written reports is left out.
- The pattern of family names and the inspection of markers in retention: a member comes with its time, size and refusal. A
  removal that fails changes nothing. Directories are up to 500 members where a lemma says so, as in the source.
- The spawn of the command's child process, its environment and the text it runs.
- Server wiring, HTTP routes, the CLI, Telegram, OAuth and the user interface: no algorithm of their own.
