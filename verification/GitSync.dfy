/**
 * performGitSync: commit what changed, integrate with an origin that moves under it, push, and bring the live tree
 * forward. Between any two commands other writers act; the contracts hold for whatever they do.
 */
module GitSync {
  import opened Wrappers
  import opened PathTrees
  import opened CommitGraph
  import opened TreeMerge
  import opened Staging
  import opened CommitPlan
  import opened GitSyncCodes
  import opened Repository

  const PUSH_ATTEMPTS: nat := 3
  const COMMIT_ATTEMPTS: nat := 2

  datatype Integration = NotIntegrated | Pushed | Merged | CaughtUp

  datatype RoundOutcome = Integrated(target: CommitId) | Raced | Ended(code: Code)

  datatype AttemptOutcome = Finished | Again | Stopped(code: Code)

  /** The code of a run that a failed command ends. */
  function CodeOf(failure: Failure): Code {
    match failure
    case Stop(code) => code
    case Unrelated => UnrelatedHistories
    case _ => FailedCode
  }

  /** The move goes forward in history: nothing the branch reached is dropped. */
  ghost predicate IsForward(graph: seq<Commit>, move: Move)
    requires WellFormed(graph)
  {
    move.before.None? || (move.after.Some? && IsAncestor(graph, move.before.value, move.after.value))
  }

  /** A failed command fails the run. */
  lemma FailureFails(failure: Failure)
    requires failure.Stop? ==> failure.code in {DeadlineExceeded, IndexLocked, FailedCode, GitTooOld}
    ensures GetGitSyncCode(CodeOf(failure)).exitCode != 0 && CodeOf(failure) != MergeConflict
  {
  }

  /** Everything the branch reached is reached from its new tip. */
  ghost predicate KeepsReach(graph: seq<Commit>, before: Option<CommitId>, after: CommitId)
    requires WellFormed(graph)
  {
    before.Some? ==> forall c: CommitId :: IsAncestor(graph, c, before.value) ==> IsAncestor(graph, c, after)
  }

  lemma KeepsExactlyWhen(graph: seq<Commit>, before: Option<CommitId>, after: CommitId)
    requires WellFormed(graph) && after < |graph| && (before.Some? ==> before.value < |graph|)
    ensures KeepsReach(graph, before, after) <==> before.None? || IsAncestor(graph, before.value, after)
  {
    if before.Some? && IsAncestor(graph, before.value, after) {
      forall c: CommitId | IsAncestor(graph, c, before.value)
        ensures IsAncestor(graph, c, after)
      {
        AncestorTransitive(graph, c, before.value, after);
      }
    }
  }

  lemma CleanMergeIsStable(graph: seq<Commit>, grown: seq<Commit>, mergeFile: FileMerge, m: CommitId, l: CommitId, r: CommitId)
    requires WellFormed(graph) && WellFormed(grown) && graph <= grown
    requires IsCleanMerge(graph, mergeFile, m, l, r)
    ensures IsCleanMerge(grown, mergeFile, m, l, r)
  {
    var base: Tree :| MergesTo(graph, mergeFile, l, r, base, graph[m].tree);
    MergesToIsStable(graph, grown, mergeFile, l, r, base, graph[m].tree);
  }

  lemma MergesToIsStable(graph: seq<Commit>, grown: seq<Commit>, mergeFile: FileMerge, l: CommitId, r: CommitId, base: Tree, tree: Tree)
    requires WellFormed(graph) && WellFormed(grown) && graph <= grown && l < |graph| && r < |graph|
    requires MergesTo(graph, mergeFile, l, r, base, tree)
    ensures MergesTo(grown, mergeFile, l, r, base, tree)
  {
    BaseTreeIsStable(graph, grown, base, l, r);
  }

  lemma BaseTreeIsStable(graph: seq<Commit>, grown: seq<Commit>, base: Tree, l: CommitId, r: CommitId)
    requires WellFormed(graph) && WellFormed(grown) && graph <= grown && l < |graph| && r < |graph| && IsBaseTree(graph, base, l, r)
    ensures IsBaseTree(grown, base, l, r)
  {
    AncestryIsStableForAll(graph, grown);
    forall b: CommitId | IsOnlyMergeBase(grown, b, l, r)
      ensures base == grown[b].tree
    {
      AncestorsAreOlder(grown, b, l);
      assert b < |graph|;
      assert IsMergeBase(graph, b, l, r);
      forall o: CommitId | o < |graph| && IsMergeBase(graph, o, l, r)
        ensures o == b
      {
        MergeBaseIsStable(graph, grown, o, l, r);
      }
      assert IsOnlyMergeBase(graph, b, l, r);
    }
  }

  lemma MergeBaseIsStable(graph: seq<Commit>, grown: seq<Commit>, base: CommitId, l: CommitId, r: CommitId)
    requires WellFormed(graph) && WellFormed(grown) && graph <= grown && l < |graph| && r < |graph|
    requires IsMergeBase(graph, base, l, r)
    ensures IsMergeBase(grown, base, l, r)
  {
    AncestryIsStableForAll(graph, grown);
    forall o: CommitId | o < |grown| && IsAncestor(grown, o, l) && IsAncestor(grown, o, r) && IsAncestor(grown, base, o)
      ensures o == base
    {
      AncestorsAreOlder(grown, o, l);
    }
  }

  /** Merges the run may push: clean ones of its own tip with a tip origin has had. */
  ghost predicate IsSyncPush(graph: seq<Commit>, mergeFile: FileMerge, remoteTips: seq<CommitId>, local: CommitId, pushed: CommitId)
    requires WellFormed(graph)
  {
    pushed == local || exists r :: r in remoteTips && IsCleanMerge(graph, mergeFile, pushed, local, r)
  }

  /** What one round may push: the local tip if it contains the tip fetched in that round, or one merge of the two. */
  ghost predicate IsCandidate(graph: seq<Commit>, mergeFile: FileMerge, local: CommitId, remote: CommitId, pushed: CommitId)
    requires WellFormed(graph)
  {
    (pushed == local && local < |graph| && IsAncestor(graph, remote, local)) || IsCleanMerge(graph, mergeFile, pushed, local, remote)
  }

  lemma CandidateIsStable(graph: seq<Commit>, grown: seq<Commit>, mergeFile: FileMerge, local: CommitId, remote: CommitId, pushed: CommitId)
    requires WellFormed(graph) && WellFormed(grown) && graph <= grown
    requires IsCandidate(graph, mergeFile, local, remote, pushed)
    ensures IsCandidate(grown, mergeFile, local, remote, pushed)
  {
    if IsCleanMerge(graph, mergeFile, pushed, local, remote) {
      CleanMergeIsStable(graph, grown, mergeFile, pushed, local, remote);
    } else {
      AncestryIsStable(graph, grown, remote, local);
    }
  }

  lemma SyncPushIsStable(graph: seq<Commit>, grown: seq<Commit>, mergeFile: FileMerge, tips: seq<CommitId>, more: seq<CommitId>,
                         local: CommitId, pushed: CommitId)
    requires WellFormed(graph) && WellFormed(grown) && graph <= grown && tips <= more
    requires IsSyncPush(graph, mergeFile, tips, local, pushed)
    ensures IsSyncPush(grown, mergeFile, more, local, pushed)
  {
    if pushed != local {
      var r :| r in tips && IsCleanMerge(graph, mergeFile, pushed, local, r);
      CleanMergeIsStable(graph, grown, mergeFile, pushed, local, r);
      assert r in more;
    }
  }

  /**
   * The tree of whatever a run pushes beside its tip: with a tip that origin has had, and the base tree of the two, it holds
   * at every path what both sides ask for.
   */
  lemma PushedTreeKeepsEverySide(graph: seq<Commit>, mergeFile: FileMerge, remoteTips: seq<CommitId>, local: CommitId, pushed: CommitId)
    requires WellFormed(graph) && IsSyncPush(graph, mergeFile, remoteTips, local, pushed) && pushed != local
    ensures exists r: CommitId, base: Tree ::
      && r in remoteTips && local < |graph| && r < |graph| && pushed < |graph| && IsBaseTree(graph, base, local, r)
      && forall p :: KeepsEverySide(base, graph[local].tree, graph[r].tree, Lookup(graph[pushed].tree, p), mergeFile, p)
  {
    var r :| r in remoteTips && IsCleanMerge(graph, mergeFile, pushed, local, r);
    var base: Tree :| MergesTo(graph, mergeFile, local, r, base, graph[pushed].tree);
    forall p
      ensures KeepsEverySide(base, graph[local].tree, graph[r].tree, Lookup(graph[pushed].tree, p), mergeFile, p)
    {
      CleanMergeKeepsEverySide(base, graph[local].tree, graph[r].tree, mergeFile, p);
    }
  }

  class GitSyncRun {
    const repo: Repository
    const isProtected: Path -> bool
    const maxUntrackedBytes: nat
    const supportsMergeTree: bool

    var code: Code
    var outcome: Outcome
    var exitCode: nat
    var committed: bool
    var pushed: bool
    var pushedSha: Option<CommitId>
    var integration: Integration
    var liveTreeBehind: bool
    var heldBack: seq<(Path, nat)>
    var nestedRepos: set<Path>
    var headBeforeCommit: Option<CommitId>
    var ownCommit: Option<CommitId>
    var ownPaths: set<Path>
    var localTip: Option<CommitId>
    /** What the check before the tip is pinned found. */
    var headFound: bool

    /** Where the repository's records stood when the run began. */
    ghost const movesBefore: seq<Move>
    ghost const pushesBefore: seq<CommitId>
    ghost const rejectedBefore: nat
    ghost const failedUndosBefore: nat
    ghost const tipsBefore: nat

    /** The index the commit was planned on, and the paths marked for it. */
    ghost var plannedIndex: Index
    ghost var marked: set<Path>
    /** What the last plan was made from. */
    ghost var facts: PlanFacts
    /** The commit the integration ended with. */
    ghost var target: Option<CommitId>

    constructor (repo: Repository, isProtected: Path -> bool, maxUntrackedBytes: nat, supportsMergeTree: bool)
      requires repo.Valid()
      ensures this.repo == repo && Valid() && fresh(this)
      ensures ownCommit.None? && headBeforeCommit.None? && localTip.None? && code == OkCode && !committed && !pushed
      ensures this.isProtected == isProtected && this.maxUntrackedBytes == maxUntrackedBytes && this.supportsMergeTree == supportsMergeTree
      ensures movesBefore == repo.ownMoves && pushesBefore == repo.pushAttempts && rejectedBefore == repo.rejectedPushes
      ensures failedUndosBefore == repo.failedUndos && tipsBefore == |repo.branchTips|
    {
      this.repo, this.isProtected := repo, isProtected;
      this.maxUntrackedBytes, this.supportsMergeTree := maxUntrackedBytes, supportsMergeTree;
      code, outcome, exitCode := OkCode, Ok, 0;
      committed, pushed, pushedSha, integration, liveTreeBehind := false, false, None, NotIntegrated, false;
      heldBack, nestedRepos := [], {};
      headBeforeCommit, ownCommit, ownPaths, localTip := None, None, {}, None;
      movesBefore, pushesBefore, rejectedBefore := repo.ownMoves, repo.pushAttempts, repo.rejectedPushes;
      failedUndosBefore, tipsBefore := repo.failedUndos, |repo.branchTips|;
      plannedIndex, marked, headFound, target := repo.index, {}, false, None;
      facts := PlanFacts(repo.index, {}, p => false);
    }

    /** The move takes back this run's own commit, and nothing else. */
    ghost predicate IsUndo(move: Move)
      reads this`ownCommit, this`headBeforeCommit
    {
      ownCommit.Some? && headBeforeCommit.Some? && move == Move(ownCommit, headBeforeCommit)
    }

    /** The adoption of a tip of origin by a branch that the run took for one with no commit. */
    ghost predicate IsMistakenAdoption(move: Move)
      reads repo`remoteTips
    {
      !(repo.refReadsReliable && repo.lockHonoured) && move.after.Some? && move.after.value in repo.remoteTips
    }

    /**
     * Every move this run made of the local branch is a forward move or the undo of its own commit, but for its first one,
     * which may be a mistaken adoption.
     */
    ghost predicate MovesAllowed()
      requires repo.Valid()
      reads this`ownCommit, this`headBeforeCommit, repo
    {
      && movesBefore <= repo.ownMoves && failedUndosBefore <= repo.failedUndos && tipsBefore <= |repo.branchTips|
      && forall i :: |movesBefore| <= i < |repo.ownMoves| ==>
           || IsForward(repo.commits, repo.ownMoves[i])
           || IsUndo(repo.ownMoves[i])
           || (i == |movesBefore| && IsMistakenAdoption(repo.ownMoves[i]))
    }

    /** Every push was of the pinned local tip, or of one merge of it with a tip of origin. */
    ghost predicate PushesAllowed()
      requires repo.Valid()
      reads this`localTip, repo
    {
      && pushesBefore <= repo.pushAttempts
      && (localTip.None? ==> repo.pushAttempts == pushesBefore)
      && forall i :: |pushesBefore| <= i < |repo.pushAttempts| && localTip.Some? ==>
           IsSyncPush(repo.commits, repo.mergeFile, repo.remoteTips, localTip.value, repo.pushAttempts[i])
    }

    ghost predicate NothingPushedYet()
      reads repo`pushAttempts, repo`rejectedPushes
    {
      |repo.pushAttempts| - |pushesBefore| == repo.rejectedPushes - rejectedBefore
    }

    /** HEAD was at this commit during the run. */
    ghost predicate WasTip(tip: CommitId)
      reads repo`branch, repo`branchTips
    {
      repo.branch.Some? && exists i: nat :: tipsBefore <= i + 1 && i < |repo.branchTips| && repo.branchTips[i] == tip
    }

    /** Under the writer lock the own commit is the only commit between the branch's two positions. */
    ghost predicate OwnCommitKnown()
      requires repo.Valid()
      reads this`ownCommit, this`headBeforeCommit, this`localTip, repo
    {
      && (ownCommit.Some? ==> ownCommit.value < |repo.commits|)
      && (headBeforeCommit.Some? ==> headBeforeCommit.value < |repo.commits|)
      && (localTip.Some? ==> localTip.value < |repo.commits| && WasTip(localTip.value))
      && (repo.lockHonoured && ownCommit.Some? && headBeforeCommit.Some? ==>
            repo.commits[ownCommit.value].parents == [headBeforeCommit.value])
    }

    ghost predicate Valid()
      reads this`ownCommit, this`headBeforeCommit, this`localTip, repo
    {
      repo.Valid() && MovesAllowed() && PushesAllowed() && OwnCommitKnown()
    }

    /** What a step that only lets history grow keeps. */
    twostate lemma StillValid()
      requires old(Valid()) && repo.Valid() && repo.HistoryKept() && repo.OwnRecordKept()
      requires unchanged(this)
      ensures Valid()
    {
      AncestryIsStableForAll(old(repo.commits), repo.commits);
      forall i | |pushesBefore| <= i < |repo.pushAttempts| && localTip.Some?
        ensures IsSyncPush(repo.commits, repo.mergeFile, repo.remoteTips, localTip.value, repo.pushAttempts[i])
      {
        SyncPushIsStable(old(repo.commits), repo.commits, repo.mergeFile, old(repo.remoteTips), repo.remoteTips,
                         localTip.value, repo.pushAttempts[i]);
      }
      assert forall i :: |movesBefore| <= i < |repo.ownMoves| && old(IsForward(repo.commits, repo.ownMoves[i])) ==>
          IsForward(repo.commits, repo.ownMoves[i]);
    }

    /** Other writers act; the local refs only once they may. */
    method Others(localRefs: bool)
      requires Valid()
      modifies repo
      ensures Valid() && repo.HistoryKept() && repo.OwnRecordKept()
      ensures repo.tracking == old(repo.tracking) || (repo.tracking.Some? && repo.tracking.value in repo.remoteTips)
      ensures !localRefs || repo.quiet ==> repo.branch == old(repo.branch)
      ensures repo.quiet ==>
                repo.CheckoutKept() && repo.operationInProgress == old(repo.operationInProgress) && repo.unmerged == old(repo.unmerged)
      ensures repo.calm ==> repo.StateKept() && repo.tracking == old(repo.tracking)
    {
      repo.OthersRun(localRefs);
      StillValid();
    }

    /** Other writers act, then HEAD is read. */
    method ReadHead(which: HeadRead, localRefs: bool) returns (r: Result<CommitId>)
      requires Valid()
      modifies repo
      ensures Valid() && repo.HistoryKept() && repo.OwnRecordKept()
      ensures !localRefs || repo.quiet ==> repo.branch == old(repo.branch)
      ensures repo.quiet ==> repo.CheckoutKept()
      ensures r.Value? ==> repo.branch == Some(r.value)
      ensures r.Error? ==> r.failure.Stop? || r.failure.OtherFailure?
      ensures r == Error(OtherFailure) && repo.refReadsReliable ==> repo.branch.None?
      ensures r.Error? && r.failure.Stop? ==> r.failure.code in {DeadlineExceeded, IndexLocked, FailedCode}
      ensures repo.calm ==>
                repo.StateKept() && r == if repo.branch.Some? && repo.ReadWorks(which) then Value(repo.branch.value) else Error(OtherFailure)
    {
      Others(localRefs);
      r := repo.RevParseHead(which);
    }

    // ---- Committing ----

    /** With nobody else at the checkout, the index differs from the planned one by the marks alone. */
    ghost predicate MarkedOnly(start: Index, files: WorkTree)
      reads this`plannedIndex, this`marked, repo
    {
      && plannedIndex == start && repo.work == files
      && repo.index == AddIntent(start, marked) && IsMarking(marked, start, files)
    }

    /** What the run may mark as new: files in scope within the size limit that are neither ignored nor protected. */
    ghost predicate IsMarkable(files: WorkTree, u: Path) {
      u in files && files[u].Regular? && files[u].size <= maxUntrackedBytes && repo.inScope(u) && !repo.ignored(u) && !isProtected(u)
    }

    ghost predicate IsMarking(marks: set<Path>, start: Index, files: WorkTree) {
      marks !! start.Keys && forall u :: u in marks ==> IsMarkable(files, u)
    }

    /**
     * The facts of the last plan are true of this checkout: its index is the one found, and the marks of an earlier attempt;
     * the gitlinks are listed from it, and the size limit is the one on its new files.
     */
    ghost predicate FactsHold(start: Index, files: WorkTree)
      reads this`facts
    {
      IsFactual(facts, files, repo.inScope, repo.ignored, isProtected, maxUntrackedBytes) && IsFoundOrMarked(facts.index, start, files)
    }

    ghost predicate IsFoundOrMarked(index: Index, start: Index, files: WorkTree) {
      exists marks: set<Path> :: IsMarking(marks, start, files) && index == AddIntent(start, marks)
    }

    /** The own commit holds exactly the planned paths of the checkout `start`, `files`. */
    ghost predicate CommittedAsPlanned(start: Index, files: WorkTree)
      requires repo.Valid()
      reads this`ownCommit, this`headBeforeCommit, this`localTip, this`ownPaths, this`marked, repo
    {
      && ownCommit.Some? && headBeforeCommit.Some? && OwnCommitKnown()
      && repo.branch == ownCommit && repo.work == files
      && repo.commits[ownCommit.value].parents == [headBeforeCommit.value]
      && IsCommitPlan(start, files, ownPaths, marked)
      && (var head := repo.commits[headBeforeCommit.value].tree;
          && repo.commits[ownCommit.value].tree == CommittedTree(head, AddIntent(start, marked), files, ownPaths)
          && repo.index == CommittedIndex(head, AddIntent(start, marked), files, ownPaths))
    }

    /** The index and the disk agree, so there is nothing to commit. */
    predicate IsClean()
      reads repo
    {
      IsCheckoutOf(repo.index)
    }

    predicate IsCheckoutOf(index: Index)
      reads repo
    {
      repo.work.Keys == index.Keys && forall p :: p in index ==> index[p] == Staged(AsObject(repo.work[p]))
    }

    /** The paths are exactly those the sync should commit. */
    ghost predicate NamesWhatItShould(specs: set<Path>, facts: PlanFacts, files: WorkTree) {
      forall p :: p in specs <==>
        ShouldCommit(facts.index, files, repo.inScope, repo.ignored, facts.gitlinks, isProtected, facts.tooLarge, p)
    }

    /** What is reported as held back or nested is not among them. */
    ghost predicate ReportsTheRest(facts: PlanFacts, files: WorkTree, held: seq<(Path, nat)>, nested: set<Path>) {
      forall p ::
        ShouldCommit(facts.index, files, repo.inScope, repo.ignored, facts.gitlinks, isProtected, facts.tooLarge, p) ==>
        !IsReportedOut(held, nested, p)
    }

    /** The tree below a commit. */
    function ParentTree(c: CommitId): Tree
      requires repo.Valid() && c < |repo.commits|
      reads repo
    {
      TreeOf(repo.commits, if repo.commits[c].parents == [] then None else Some(repo.commits[c].parents[0]))
    }

    /** The own commit is its parent's tree with the planned paths of the checkout `start`, `files`. */
    ghost predicate OwnTreeIsPlanned(start: Index, files: WorkTree)
      requires repo.Valid()
      reads this`ownCommit, this`ownPaths, this`marked, repo
    {
      && ownCommit.Some? && ownCommit.value < |repo.commits|
      && TreeShaped(files) && IsCommitPlan(start, files, ownPaths, marked)
      && repo.commits[ownCommit.value].tree == CommittedTree(ParentTree(ownCommit.value), AddIntent(start, marked), files, ownPaths)
    }

    /**
     * What the own commit changes: it has the disk's content at every path the sync should commit, and new content nowhere
     * else; not at a protected path, a gitlink, a nested repository or anything reported as held back.
     */
    ghost predicate OwnCommitTakesOnly(files: WorkTree)
      requires repo.Valid()
      reads this`ownCommit, this`plannedIndex, this`facts, this`heldBack, this`nestedRepos, repo
    {
      ownCommit.Some? ==>
        && FactsHold(plannedIndex, files) && ownCommit.value < |repo.commits|
        && var tree, below := repo.commits[ownCommit.value].tree, ParentTree(ownCommit.value);
        forall p ::
          && TakesOnlyWhatItShould(tree, below, facts.index, files, repo.inScope, repo.ignored, facts.gitlinks, isProtected,
                                   facts.tooLarge, p)
          && (p in tree && Lookup(tree, p) != Lookup(below, p) ==> !IsReportedOut(heldBack, nestedRepos, p))
    }

    /** The branch holds the disk's content at every path the sync should commit. */
    ghost predicate BranchHolds(files: WorkTree)
      requires repo.Valid()
      reads this`plannedIndex, this`facts, repo
    {
      && FactsHold(plannedIndex, files)
      && forall p ::
           ShouldCommit(facts.index, files, repo.inScope, repo.ignored, facts.gitlinks, isProtected, facts.tooLarge, p) ==>
           Lookup(TreeOf(repo.commits, repo.branch), p) == ObjectAt(files, p)
    }

    /** Committing the paths would change nothing. */
    ghost predicate HeadIsPlanned(start: Index, files: WorkTree, specs: set<Path>)
      requires repo.Valid()
      reads this`marked, repo
    {
      && TreeShaped(files) && IsCommitPlan(start, files, specs, marked)
      && var head := TreeOf(repo.commits, repo.branch); CommittedTree(head, AddIntent(start, marked), files, specs) == head
    }

    lemma NothingLeftToCommit(files: WorkTree, specs: set<Path>)
      requires repo.Valid() && FactsHold(plannedIndex, files) && NamesWhatItShould(specs, facts, files)
      requires specs != {} ==> HeadIsPlanned(plannedIndex, files, specs)
      ensures BranchHolds(files)
    {
      var head := TreeOf(repo.commits, repo.branch);
      forall p | p in specs
        ensures Lookup(head, p) == ObjectAt(files, p)
      {
        CommitTakesExactlyTheCandidates(head, plannedIndex, files, specs, marked, p);
      }
    }

    lemma PlannedCommitTakesOnly(start: Index, files: WorkTree)
      requires repo.Valid() && OwnTreeIsPlanned(start, files) && FactsHold(plannedIndex, files)
      requires NamesWhatItShould(ownPaths, facts, files) && ReportsTheRest(facts, files, heldBack, nestedRepos)
      ensures OwnCommitTakesOnly(files)
    {
      forall p
        ensures TakesOnlyWhatItShould(repo.commits[ownCommit.value].tree, ParentTree(ownCommit.value), facts.index, files, repo.inScope,
                                      repo.ignored, facts.gitlinks, isProtected, facts.tooLarge, p)
      {
        SyncCommitsOnlyItsPlan(ParentTree(ownCommit.value), start, facts.index, files, ownPaths, marked, repo.inScope, repo.ignored,
                               facts.gitlinks, isProtected, facts.tooLarge, p);
      }
    }

    /** The checkout carries the marks of this plan, and the plan is one for the index before them. */
    ghost predicate ReadyToCommit(specs: set<Path>, files: WorkTree)
      reads this`plannedIndex, this`marked, repo
    {
      MarkedOnly(plannedIndex, files) && IsCommitPlan(plannedIndex, files, specs, marked)
    }

    ghost predicate BranchWhereRead()
      reads this`headBeforeCommit, repo
    {
      (repo.lockHonoured || repo.quiet) && headBeforeCommit.Some? ==> repo.branch == headBeforeCommit
    }

    /** git add -N for the new files of the plan. */
    method MarkNewFiles(plan: Plan, specs: set<Path>, added: set<Path>) returns (failure: Option<Failure>)
      requires Valid() && BranchWhereRead()
      requires specs == (set p | p in plan.candidates) && added == (set p | p in plan.untracked)
      requires forall p :: p in specs ==> !EndsWith(p, "/")
      requires added <= specs
      requires repo.quiet ==> (
                 && MarkedOnly(plannedIndex, repo.work) && marked <= specs
                 && IsCommitPlan(repo.index, repo.work, specs, added)
                 && forall p :: p in added ==> IsMarkable(repo.work, p))
      modifies this`marked, repo
      ensures Valid() && BranchWhereRead() && repo.HistoryKept() && repo.OwnRecordKept()
      ensures repo.quiet ==> repo.work == old(repo.work)
      ensures failure.None? && repo.quiet ==> ReadyToCommit(specs, old(repo.work)) && repo.branch == old(repo.branch)
      ensures failure == Some(PathspecMismatch) && repo.quiet ==>
                MarkedOnly(plannedIndex, old(repo.work)) && repo.branch == old(repo.branch)
      ensures failure != Some(NothingToCommit)
      ensures failure.Some? && failure.value.Stop? ==> failure.value.code in {DeadlineExceeded, IndexLocked, FailedCode}
    {
      failure := None;
      if repo.quiet {
        PlanOnMarkedIndex(plannedIndex, repo.work, marked, specs, added);
      }
      if plan.untracked != [] {
        Others(!repo.lockHonoured);
        failure := repo.AddIntentToAdd(added);
        if failure.None? {
          marked := marked + added;
        }
      } else {
        assert added == {} && marked + added == marked;
      }
    }

    /** commit --only for the plan's paths, then note the commit that was made. */
    method TakeCommit(specs: set<Path>) returns (failure: Option<Failure>)
      requires Valid() && BranchWhereRead() && ownCommit.None? && localTip.None?
      requires repo.quiet ==> ReadyToCommit(specs, repo.work)
      modifies this`committed, this`ownCommit, this`ownPaths, repo
      ensures Valid() && repo.HistoryKept()
      ensures repo.pushAttempts == old(repo.pushAttempts) && repo.rejectedPushes == old(repo.rejectedPushes)
      ensures failure.None? ==> ownCommit.Some? && committed && repo.branch == ownCommit && ownPaths == specs
      ensures failure.None? && repo.quiet ==> OwnTreeIsPlanned(plannedIndex, old(repo.work))
      ensures failure.Some? ==> ownCommit.None?
      ensures failure.Some? && (failure.value.NothingToCommit? || failure.value.PathspecMismatch?) ==>
                && committed == old(committed) && BranchWhereRead()
                && (repo.quiet ==> MarkedOnly(plannedIndex, old(repo.work)) && repo.branch == old(repo.branch))
      ensures failure == Some(NothingToCommit) && repo.quiet ==> HeadIsPlanned(plannedIndex, old(repo.work), specs)
      ensures failure.Some? && failure.value.Stop? ==> failure.value.code in {DeadlineExceeded, IndexLocked, FailedCode}
      ensures failure.None? && repo.quiet && headBeforeCommit.Some? ==> CommittedAsPlanned(plannedIndex, old(repo.work))
      ensures repo.quiet ==> repo.work == old(repo.work)
    {
      Others(!repo.lockHonoured);
      failure := CommitSpecs(specs);
      if failure.None? {
        failure := NoteOwnCommit(specs);
      }
    }

    /** The commit just made is read back. */
    method NoteOwnCommit(specs: set<Path>) returns (failure: Option<Failure>)
      requires Valid() && NotStarted()
      requires repo.lockHonoured && headBeforeCommit.Some? ==>
                 repo.branch.Some? && repo.commits[repo.branch.value].parents == [headBeforeCommit.value]
      modifies this`committed, this`ownCommit, this`ownPaths, repo
      ensures Valid() && repo.HistoryKept() && repo.OwnRecordKept()
      ensures repo.quiet ==> repo.CheckoutKept()
      ensures failure.None? ==> ownCommit.Some? && committed && repo.branch == ownCommit && ownPaths == specs
      ensures repo.calm && repo.ReadWorks(OfOwnCommit) && old(repo.branch).Some? ==> failure.None? && repo.StateKept()
      ensures failure.Some? ==> ownCommit.None? && (failure.value.Stop? || failure.value.OtherFailure?)
      ensures failure.Some? && failure.value.Stop? ==> failure.value.code in {DeadlineExceeded, IndexLocked, FailedCode}
    {
      failure, committed := None, true;
      var head := ReadHead(OfOwnCommit, !repo.lockHonoured);
      if head.Error? {
        failure := Some(head.failure);
      } else {
        ownCommit, ownPaths := Some(head.value), specs;
      }
    }

    method CommitSpecs(specs: set<Path>) returns (failure: Option<Failure>)
      requires Valid() && ownCommit.None? && localTip.None?
      modifies repo
      ensures Valid() && repo.HistoryKept()
      ensures repo.pushAttempts == old(repo.pushAttempts) && repo.rejectedPushes == old(repo.rejectedPushes)
      ensures repo.work == old(repo.work)
      ensures failure.Some? && !failure.value.Stop? && !failure.value.OtherFailure? ==> repo.CheckoutKept()
      ensures failure.Some? && failure.value.Stop? ==> failure.value.code in {DeadlineExceeded, IndexLocked, FailedCode}
      ensures failure == Some(NothingToCommit) ==>
                var head := TreeOf(repo.commits, repo.branch); CommittedTree(head, repo.index, repo.work, specs) == head
      ensures repo.calm && old(repo.CanCommit(specs)) ==> failure.None? && |repo.commits| == |old(repo.commits)| + 1
      ensures failure.None? ==>
                var head := TreeOf(old(repo.commits), old(repo.branch));
                && repo.branch.Some? && repo.branch.value < |repo.commits|
                && repo.commits[repo.branch.value] ==
                     Commit(if old(repo.branch).Some? then [old(repo.branch).value] else [],
                            CommittedTree(head, old(repo.index), old(repo.work), specs))
                && repo.index == CommittedIndex(head, old(repo.index), old(repo.work), specs)
    {
      failure := repo.CommitOnly(specs);
      AncestryIsStableForAll(old(repo.commits), repo.commits);
      if repo.commits != old(repo.commits) && old(repo.branch).Some? {
        var c := |old(repo.commits)|;
        assert repo.commits[c].parents[0] == old(repo.branch).value;
        assert IsForward(repo.commits, Move(old(repo.branch), repo.branch));
      }
      assert forall i :: |movesBefore| <= i < |old(repo.ownMoves)| && old(IsForward(repo.commits, repo.ownMoves[i])) ==>
          IsForward(repo.commits, repo.ownMoves[i]);
    }

    ghost predicate NotStarted()
      reads this`ownCommit, this`localTip
    {
      ownCommit.None? && localTip.None?
    }

    /** What planCommit reads from git: the status, the new roots and the gitlinks. */
    method ReadPlanInputs() returns (failure: Option<Failure>, status: Status, roots: set<Path>, gitlinks: set<Path>)
      requires Valid() && BranchWhereRead()
      modifies repo
      ensures Valid() && BranchWhereRead() && repo.HistoryKept() && repo.OwnRecordKept()
      ensures repo.quiet ==> repo.CheckoutKept()
      ensures failure.Some? && failure.value.Stop? ==> failure.value.code in {DeadlineExceeded, IndexLocked, FailedCode}
      ensures failure.None? ==>
                && (forall p :: p in status.untracked ==> p in status.candidates)
                && (forall p :: p in status.deleted ==> p in status.candidates && p !in status.untracked)
                && (forall p :: p in status.candidates && p !in status.untracked ==> !EndsWith(p, "/"))
      ensures failure.None? && repo.quiet ==>
                && Describes(status, repo.index, repo.work, repo.inScope, repo.ignored) && NoneTwice(status.untracked)
                && IsGitlinkListing(gitlinks, repo.index, repo.inScope) && NewRootsOf(roots, repo.index)
                && (NewFiles(status, repo.work, isProtected) != [] ==> repo.IsRootListing(roots))
      ensures repo.calm ==> failure.None? && repo.StateKept()
    {
      status, roots, gitlinks := Status([], [], [], 0), {}, {};
      Others(!repo.lockHonoured);
      var read := repo.ReadStatus();
      if read.Error? {
        return Some(read.failure), status, roots, gitlinks;
      }
      status := read.value;
      failure, roots, gitlinks := ReadListings(|NewFiles(status, repo.work, isProtected)| > 0);
    }

    /** The new roots, if there are new files, and then the gitlinks. */
    method ReadListings(withRoots: bool) returns (failure: Option<Failure>, roots: set<Path>, gitlinks: set<Path>)
      requires Valid() && BranchWhereRead()
      modifies repo
      ensures Valid() && BranchWhereRead() && repo.HistoryKept() && repo.OwnRecordKept()
      ensures repo.quiet ==> repo.CheckoutKept()
      ensures failure.Some? && failure.value.Stop? ==> failure.value.code in {DeadlineExceeded, IndexLocked, FailedCode}
      ensures failure.None? && repo.quiet ==>
                && IsGitlinkListing(gitlinks, repo.index, repo.inScope) && NewRootsOf(roots, repo.index)
                && (withRoots ==> repo.IsRootListing(roots))
      ensures repo.calm ==> failure.None? && repo.StateKept()
    {
      roots, gitlinks := {}, {};
      if withRoots {
        failure, roots := ReadRoots();
        if failure.Some? {
          return;
        }
      }
      failure, gitlinks := ReadGitlinks();
    }

    method ReadRoots() returns (failure: Option<Failure>, roots: set<Path>)
      requires Valid() && BranchWhereRead()
      modifies repo
      ensures Valid() && BranchWhereRead() && repo.HistoryKept() && repo.OwnRecordKept()
      ensures repo.quiet ==> repo.CheckoutKept()
      ensures failure.Some? && failure.value.Stop? ==> failure.value.code in {DeadlineExceeded, IndexLocked, FailedCode}
      ensures failure.None? ==> repo.IsRootListing(roots)
      ensures repo.calm ==> failure.None? && repo.StateKept()
    {
      Others(!repo.lockHonoured);
      var r := repo.ReadNewRoots();
      failure, roots := if r.Error? then Some(r.failure) else None, if r.Value? then r.value else {};
    }

    method ReadGitlinks() returns (failure: Option<Failure>, gitlinks: set<Path>)
      requires Valid() && BranchWhereRead()
      modifies repo
      ensures Valid() && BranchWhereRead() && repo.HistoryKept() && repo.OwnRecordKept()
      ensures repo.quiet ==> repo.CheckoutKept()
      ensures failure.Some? && failure.value.Stop? ==> failure.value.code in {DeadlineExceeded, IndexLocked, FailedCode}
      ensures failure.None? ==> IsGitlinkListing(gitlinks, repo.index, repo.inScope)
      ensures repo.calm ==> failure.None? && repo.StateKept()
    {
      Others(!repo.lockHonoured);
      var r := repo.ListGitlinks();
      failure, gitlinks := if r.Error? then Some(r.failure) else None, if r.Value? then r.value else {};
    }

    /** The plan is one for the checkout as it stands, and takes every path marked before. */
    ghost predicate PlansCheckout(plan: Plan)
      reads this`marked, repo
    {
      var specs, added := set p | p in plan.candidates, set p | p in plan.untracked;
      && marked <= specs && IsCommitPlan(repo.index, repo.work, specs, added)
      && forall p :: p in added ==> IsMarkable(repo.work, p)
    }

    method MakePlan() returns (r: Result<Plan>, ghost seen: PlanFacts)
      requires Valid() && BranchWhereRead()
      requires repo.quiet ==> MarkedOnly(plannedIndex, repo.work)
      modifies repo
      ensures Valid() && BranchWhereRead() && repo.HistoryKept() && repo.OwnRecordKept()
      ensures repo.quiet ==> repo.CheckoutKept()
      ensures r.Error? && r.failure.Stop? ==> r.failure.code in {DeadlineExceeded, IndexLocked, FailedCode}
      ensures r.Value? ==>
                && (forall p :: p in r.value.untracked ==> p in r.value.candidates)
                && (forall p :: p in r.value.candidates ==> !EndsWith(p, "/"))
      ensures r.Value? && repo.quiet ==> IsPlanFor(r.value, seen) && (IsClean() ==> r.value.candidates == [])
      ensures repo.calm ==> r.Value? && repo.StateKept()
    {
      seen := PlanFacts(repo.index, {}, p => false);
      var failure, status, roots, gitlinks := ReadPlanInputs();
      if failure.Some? {
        return Error(failure.value), seen;
      }
      var plan := PlanCommit(status, roots, repo.work, gitlinks, isProtected, maxUntrackedBytes);
      if repo.quiet {
        seen := CheckPlan(plan, status, roots, gitlinks);
        NothingToPlan(plan, seen);
      }
      r := Value(plan);
    }

    ghost function LimitOn(status: Status, roots: set<Path>): Path -> bool
      reads repo
    {
      var files := repo.work;
      q => TooLarge(NewFiles(status, files, isProtected), roots, SizeOn(files), maxUntrackedBytes, q)
    }

    lemma LimitIsOnNewFiles(status: Status, roots: set<Path>)
      requires Describes(status, repo.index, repo.work, repo.inScope, repo.ignored) && NoneTwice(status.untracked)
      requires NewRootsOf(roots, repo.index)
      requires NewFiles(status, repo.work, isProtected) != [] ==> repo.IsRootListing(roots)
      ensures IsSizeLimit(LimitOn(status, roots), repo.index, repo.work, repo.inScope, repo.ignored, isProtected, maxUntrackedBytes)
    {
    }

    /** The plan made from a listing of this checkout is exact, and reports what it leaves out. */
    lemma CheckPlan(plan: Plan, status: Status, roots: set<Path>, gitlinks: set<Path>) returns (seen: PlanFacts)
      requires repo.Valid() && MarkedOnly(plannedIndex, repo.work)
      requires Describes(status, repo.index, repo.work, repo.inScope, repo.ignored) && NoneTwice(status.untracked)
      requires IsGitlinkListing(gitlinks, repo.index, repo.inScope) && NewRootsOf(roots, repo.index)
      requires NewFiles(status, repo.work, isProtected) != [] ==> repo.IsRootListing(roots)
      requires IsPlanFrom(plan, status, roots, repo.work, gitlinks, isProtected, maxUntrackedBytes)
      ensures IsPlanFor(plan, seen)
    {
      var tooLarge := LimitOn(status, roots);
      seen := PlanFacts(repo.index, gitlinks, tooLarge);
      PlanIsExact(status, plan, repo.index, repo.work, roots, repo.inScope, repo.ignored, gitlinks, isProtected, maxUntrackedBytes);
      LimitIsOnNewFiles(status, roots);
      MarkedArePlanned(plan, gitlinks, tooLarge);
      LeftOutIsReported(plan, status, roots, seen);
    }

    lemma LeftOutIsReported(plan: Plan, status: Status, roots: set<Path>, seen: PlanFacts)
      requires repo.Valid() && NewRootsOf(roots, repo.index) && seen.gitlinks <= repo.index.Keys
      requires IsPlanFrom(plan, status, roots, repo.work, seen.gitlinks, isProtected, maxUntrackedBytes)
      requires seen.index == repo.index && seen.tooLarge == LimitOn(status, roots)
      ensures ReportsTheRest(seen, repo.work, plan.heldBack, plan.nestedRepos + plan.pointers)
    {
      var files := repo.work;
      assert forall h :: h in plan.heldBack ==> (h.0, h.1) in plan.heldBack;
      forall p | ShouldCommit(seen.index, files, repo.inScope, repo.ignored, seen.gitlinks, isProtected, seen.tooLarge, p)
        ensures !IsReportedOut(plan.heldBack, plan.nestedRepos + plan.pointers, p)
      {
        ReportedOutIsNotPlanned(plan, status, seen.index, files, roots, repo.inScope, repo.ignored, seen.gitlinks, isProtected,
                                maxUntrackedBytes, p);
      }
    }

    /** A plan with a path in it is one for a checkout that is not clean. */
    lemma NothingToPlan(plan: Plan, seen: PlanFacts)
      requires IsPlanFor(plan, seen)
      ensures IsClean() ==> plan.candidates == []
    {
      if plan.candidates != [] {
        var p := plan.candidates[0];
        assert p in (set q | q in plan.candidates);
        assert ShouldCommit(seen.index, repo.work, repo.inScope, repo.ignored, seen.gitlinks, isProtected, seen.tooLarge, p);
      }
    }

    /** A file marked by an earlier attempt is still planned. */
    lemma MarkedArePlanned(plan: Plan, gitlinks: set<Path>, tooLarge: Path -> bool)
      requires repo.Valid() && MarkedOnly(plannedIndex, repo.work)
      requires IsGitlinkListing(gitlinks, repo.index, repo.inScope) && (forall p :: p in plan.untracked ==> p in plan.candidates)
      requires IsCommitPlan(repo.index, repo.work, set p | p in plan.candidates, set p | p in plan.untracked)
      requires forall p :: p in plan.candidates <==>
                 ShouldCommit(repo.index, repo.work, repo.inScope, repo.ignored, gitlinks, isProtected, tooLarge, p)
      requires IsSizeLimit(tooLarge, repo.index, repo.work, repo.inScope, repo.ignored, isProtected, maxUntrackedBytes)
      ensures PlansCheckout(plan)
    {
      forall u | u in plan.untracked
        ensures IsMarkable(repo.work, u)
      {
        assert u in (set p | p in plan.untracked);
        LargeFileIsHeldBack(tooLarge, repo.index, repo.work, repo.inScope, repo.ignored, isProtected, maxUntrackedBytes, u);
      }
      forall u | u in marked
        ensures u in plan.candidates
      {
        IntentAt(plannedIndex, marked, u);
        assert repo.index[u] == IntentToAdd;
        assert !IsFolder(repo.work, u);
      }
    }

    /** One attempt at the plan's commit. */
    method CommitPlanned(plan: Plan) returns (failure: Option<Failure>)
      requires Valid() && BranchWhereRead() && NotStarted()
      requires forall p :: p in plan.untracked ==> p in plan.candidates
      requires forall p :: p in plan.candidates ==> !EndsWith(p, "/")
      requires repo.quiet ==> MarkedOnly(plannedIndex, repo.work) && PlansCheckout(plan)
      modifies this`committed, this`ownCommit, this`ownPaths, this`marked, repo
      ensures Valid() && repo.HistoryKept() && localTip.None?
      ensures repo.pushAttempts == old(repo.pushAttempts) && repo.rejectedPushes == old(repo.rejectedPushes)
      ensures failure.None? ==>
                ownCommit.Some? && committed && repo.branch == ownCommit && ownPaths == set p | p in plan.candidates
      ensures failure.None? && repo.quiet ==> OwnTreeIsPlanned(plannedIndex, old(repo.work))
      ensures failure.Some? ==> ownCommit.None?
      ensures failure.Some? && (failure.value.NothingToCommit? || failure.value.PathspecMismatch?) ==>
                && committed == old(committed) && BranchWhereRead()
                && (repo.quiet ==> MarkedOnly(plannedIndex, old(repo.work)) && repo.branch == old(repo.branch))
      ensures failure == Some(NothingToCommit) && repo.quiet ==>
                HeadIsPlanned(plannedIndex, old(repo.work), set p | p in plan.candidates)
      ensures failure.Some? && failure.value.Stop? ==> failure.value.code in {DeadlineExceeded, IndexLocked, FailedCode}
      ensures failure.None? && repo.quiet && headBeforeCommit.Some? ==> CommittedAsPlanned(plannedIndex, old(repo.work))
      ensures repo.quiet ==> repo.work == old(repo.work)
    {
      var specs, added := set p | p in plan.candidates, set p | p in plan.untracked;
      failure := MarkNewFiles(plan, specs, added);
      if failure.None? {
        failure := TakeCommit(specs);
      }
    }

    /** The own paths are those the sync should commit, and none of what the run reports as left out. */
    ghost predicate PlanHolds(files: WorkTree)
      reads this`ownPaths, this`plannedIndex, this`facts, this`heldBack, this`nestedRepos
    {
      FactsHold(plannedIndex, files) && NamesWhatItShould(ownPaths, facts, files) && ReportsTheRest(facts, files, heldBack, nestedRepos)
    }

    /** Plan and try once. */
    method Attempt() returns (outcome: AttemptOutcome)
      requires Valid() && BranchWhereRead() && NotStarted() && !committed
      requires repo.quiet ==> MarkedOnly(plannedIndex, repo.work)
      modifies this`committed, this`ownCommit, this`ownPaths, this`marked, this`heldBack, this`nestedRepos, this`facts, repo
      ensures Valid() && repo.HistoryKept() && localTip.None?
      ensures repo.pushAttempts == old(repo.pushAttempts) && repo.rejectedPushes == old(repo.rejectedPushes)
      ensures repo.quiet ==> repo.work == old(repo.work)
      ensures outcome.Again? ==> BranchWhereRead() && NotStarted() && !committed
      ensures outcome.Again? && repo.quiet ==> MarkedOnly(plannedIndex, repo.work) && repo.branch == old(repo.branch)
      ensures outcome.Stopped? ==> GetGitSyncCode(outcome.code).exitCode != 0 && outcome.code != MergeConflict
      ensures outcome.Finished? && ownCommit.Some? ==> committed && repo.branch == ownCommit
      ensures outcome.Stopped? ==> ownCommit.None?
      ensures outcome.Finished? && repo.quiet && ownCommit.Some? ==> OwnTreeIsPlanned(plannedIndex, repo.work) && PlanHolds(repo.work)
      ensures outcome.Finished? && repo.quiet && ownCommit.None? ==> BranchHolds(repo.work)
      ensures repo.calm && repo.quiet && old(IsClean()) ==> outcome.Finished? && ownCommit.None? && repo.StateKept()
      ensures outcome.Finished? && repo.quiet && ownCommit.None? ==> repo.branch == old(repo.branch)
      ensures outcome.Finished? && repo.quiet && ownCommit.Some? && headBeforeCommit.Some? ==> CommittedAsPlanned(plannedIndex, repo.work)
    {
      var planned, seen := MakePlan();
      if planned.Error? {
        return Stopped(CodeOf(planned.failure));
      }
      outcome := TryPlan(planned.value, seen);
      if outcome.Finished? && repo.quiet && ownCommit.None? {
        NothingLeftToCommit(repo.work, set p | p in planned.value.candidates);
      }
    }

    ghost predicate IsPlanFor(plan: Plan, seen: PlanFacts)
      reads this`marked, repo
    {
      && PlansCheckout(plan) && seen.index == repo.index
      && IsFactual(seen, repo.work, repo.inScope, repo.ignored, isProtected, maxUntrackedBytes)
      && NamesWhatItShould((set p | p in plan.candidates), seen, repo.work)
      && ReportsTheRest(seen, repo.work, plan.heldBack, plan.nestedRepos + plan.pointers)
    }

    method TryPlan(plan: Plan, ghost seen: PlanFacts) returns (outcome: AttemptOutcome)
      requires Valid() && BranchWhereRead() && NotStarted() && !committed
      requires forall p :: p in plan.untracked ==> p in plan.candidates
      requires forall p :: p in plan.candidates ==> !EndsWith(p, "/")
      requires repo.quiet ==> MarkedOnly(plannedIndex, repo.work) && PlansCheckout(plan)
      modifies this`committed, this`ownCommit, this`ownPaths, this`marked, this`heldBack, this`nestedRepos, this`facts, repo
      ensures Valid() && repo.HistoryKept() && localTip.None?
      ensures repo.pushAttempts == old(repo.pushAttempts) && repo.rejectedPushes == old(repo.rejectedPushes)
      ensures repo.quiet ==> repo.work == old(repo.work)
      ensures outcome.Again? ==> BranchWhereRead() && NotStarted() && !committed
      ensures outcome.Again? && repo.quiet ==> MarkedOnly(plannedIndex, repo.work) && repo.branch == old(repo.branch)
      ensures outcome.Stopped? ==> GetGitSyncCode(outcome.code).exitCode != 0 && outcome.code != MergeConflict && ownCommit.None?
      ensures outcome.Finished? && ownCommit.Some? ==> committed && repo.branch == ownCommit
      ensures outcome.Finished? && repo.quiet && ownCommit.None? ==> repo.branch == old(repo.branch)
      ensures outcome.Finished? && repo.quiet && ownCommit.Some? ==> OwnTreeIsPlanned(plannedIndex, repo.work)
      ensures outcome.Finished? && repo.quiet && ownCommit.Some? && headBeforeCommit.Some? ==> CommittedAsPlanned(plannedIndex, repo.work)
      ensures heldBack == plan.heldBack && nestedRepos == plan.nestedRepos + plan.pointers && facts == seen
      ensures outcome.Finished? && ownCommit.Some? ==> ownPaths == set p | p in plan.candidates
      ensures outcome.Finished? && repo.quiet && ownCommit.None? && plan.candidates != [] ==>
                HeadIsPlanned(plannedIndex, repo.work, set p | p in plan.candidates)
      ensures plan.candidates == [] ==> outcome.Finished? && ownCommit.None? && repo.StateKept()
      ensures plan.candidates != [] && old(repo.operationInProgress) ==>
                outcome == Stopped(InProgressOperation) && repo.StateKept() && repo.OwnRecordKept()
    {
      heldBack, nestedRepos, facts := plan.heldBack, plan.nestedRepos + plan.pointers, seen;
      if plan.candidates == [] {
        return Finished;
      }
      if repo.operationInProgress {
        return Stopped(InProgressOperation);
      }
      outcome := CommitOnce(plan);
    }

    method CommitOnce(plan: Plan) returns (outcome: AttemptOutcome)
      requires Valid() && BranchWhereRead() && NotStarted() && !committed
      requires forall p :: p in plan.untracked ==> p in plan.candidates
      requires forall p :: p in plan.candidates ==> !EndsWith(p, "/")
      requires repo.quiet ==> MarkedOnly(plannedIndex, repo.work) && PlansCheckout(plan)
      modifies this`committed, this`ownCommit, this`ownPaths, this`marked, repo
      ensures Valid() && repo.HistoryKept() && localTip.None?
      ensures repo.pushAttempts == old(repo.pushAttempts) && repo.rejectedPushes == old(repo.rejectedPushes)
      ensures repo.quiet ==> repo.work == old(repo.work)
      ensures outcome.Again? ==> BranchWhereRead() && NotStarted() && !committed
      ensures outcome.Again? && repo.quiet ==> MarkedOnly(plannedIndex, repo.work) && repo.branch == old(repo.branch)
      ensures outcome.Stopped? ==> GetGitSyncCode(outcome.code).exitCode != 0 && outcome.code != MergeConflict && ownCommit.None?
      ensures outcome.Finished? && ownCommit.Some? ==>
                committed && repo.branch == ownCommit && ownPaths == set p | p in plan.candidates
      ensures outcome.Finished? && repo.quiet && ownCommit.None? ==> repo.branch == old(repo.branch)
      ensures outcome.Finished? && repo.quiet && ownCommit.Some? ==> OwnTreeIsPlanned(plannedIndex, repo.work)
      ensures outcome.Finished? && repo.quiet && ownCommit.Some? && headBeforeCommit.Some? ==> CommittedAsPlanned(plannedIndex, repo.work)
      ensures outcome.Finished? && repo.quiet && ownCommit.None? ==>
                HeadIsPlanned(plannedIndex, repo.work, set p | p in plan.candidates)
    {
      var failure := CommitPlanned(plan);
      outcome := if failure.None? || failure.value.NothingToCommit? then Finished
                 else if failure.value.PathspecMismatch? then Again
                 else Stopped(CodeOf(failure.value));
    }

    /** The commit the branch is at, to go back to; none when HEAD cannot be read. */
    method ReadHeadBeforeCommit() returns (stop: Option<Code>)
      requires Valid() && NotStarted()
      modifies this`headBeforeCommit, this`marked, this`plannedIndex
      ensures Valid() && BranchWhereRead()
      ensures stop.Some? ==> GetGitSyncCode(stop.value).exitCode != 0 && stop.value != MergeConflict
      ensures headBeforeCommit.Some? ==> headBeforeCommit == repo.branch
      ensures plannedIndex == repo.index
      ensures repo.quiet ==> MarkedOnly(plannedIndex, repo.work)
      ensures repo.calm ==> stop.None? && (repo.ReadWorks(BeforeCommit) ==> headBeforeCommit == repo.branch)
    {
      plannedIndex, marked := repo.index, {};
      NoMarks(repo.index);
      headBeforeCommit, stop := None, None;
      var head := repo.RevParseHead(BeforeCommit);
      if head.Error? && head.failure.Stop? {
        return Some(head.failure.code);
      }
      headBeforeCommit := if head.Value? then Some(head.value) else None;
    }

    /** The commit step: at most two attempts, the second after a file changed under the first. */
    method CommitOwnPaths() returns (stop: Option<Code>)
      requires Valid() && NotStarted() && !committed
      modifies this`headBeforeCommit, this`committed, this`ownCommit, this`ownPaths, this`marked, this`plannedIndex,
               this`heldBack, this`nestedRepos, this`facts, repo
      ensures Valid() && repo.HistoryKept() && localTip.None?
      ensures repo.pushAttempts == old(repo.pushAttempts) && repo.rejectedPushes == old(repo.rejectedPushes)
      ensures stop.Some? ==> GetGitSyncCode(stop.value).exitCode != 0 && stop.value != MergeConflict
      ensures repo.quiet ==> repo.work == old(repo.work) && plannedIndex == old(repo.index)
      ensures headBeforeCommit.Some? ==> headBeforeCommit == old(repo.branch)
      ensures repo.quiet && stop.None? && ownCommit.None? ==> repo.branch == old(repo.branch)
      ensures repo.quiet && stop.None? && ownCommit.Some? && headBeforeCommit.Some? ==> CommittedAsPlanned(plannedIndex, repo.work)
      ensures stop.None? && ownCommit.Some? ==> committed && repo.branch == ownCommit
      ensures stop.Some? ==> ownCommit.None?
      ensures repo.quiet && ownCommit.Some? ==> OwnTreeIsPlanned(plannedIndex, repo.work) && PlanHolds(repo.work)
      ensures repo.quiet && stop.None? && ownCommit.None? ==> BranchHolds(repo.work)
      ensures repo.calm && repo.quiet && old(IsClean()) ==> stop.None? && ownCommit.None? && repo.StateKept()
    {
      stop := ReadHeadBeforeCommit();
      if stop.Some? {
        return;
      }
      var attempt := 1;
      while true
        invariant 1 <= attempt <= COMMIT_ATTEMPTS
        invariant Valid() && BranchWhereRead() && NotStarted() && repo.HistoryKept() && !committed
        invariant repo.pushAttempts == old(repo.pushAttempts) && repo.rejectedPushes == old(repo.rejectedPushes)
        invariant repo.quiet ==> MarkedOnly(plannedIndex, repo.work) && repo.work == old(repo.work) && repo.branch == old(repo.branch)
        invariant plannedIndex == old(repo.index) && (headBeforeCommit.Some? ==> headBeforeCommit == old(repo.branch))
        invariant repo.calm && repo.quiet && old(IsClean()) ==> repo.StateKept() && IsClean()
        decreases COMMIT_ATTEMPTS - attempt
      {
        var outcome := Attempt();
        match outcome {
          case Finished => return None;
          case Stopped(code) => return Some(code);
          case Again =>
            if attempt == COMMIT_ATTEMPTS {
              return Some(FailedCode);
            }
            attempt := attempt + 1;
        }
      }
    }

    lemma NoMarks(index: Index)
      ensures AddIntent(index, {}) == index
    {
    }

    // ---- Integrating with origin ----

    /** The own commit is not taken back and, with nobody else at the checkout, still where the run put it. */
    ghost predicate OwnCommitStands()
      requires repo.Valid()
      reads this`committed, this`ownCommit, this`headBeforeCommit, this`localTip, this`ownPaths, this`marked, this`plannedIndex, repo
    {
      && (ownCommit.Some? ==> committed)
      && (repo.quiet && ownCommit.Some? && headBeforeCommit.Some? ==> CommittedAsPlanned(plannedIndex, repo.work))
    }

    /** The commit below the undone one is where the run found the branch, and its index and disk are kept. */
    ghost predicate UndoneAsFound(start: Index, files: WorkTree)
      requires Valid()
      reads this`ownCommit, this`headBeforeCommit, this`localTip, this`ownPaths, this`marked, repo
    {
      && ownCommit.Some? && headBeforeCommit.Some?
      && repo.branch == headBeforeCommit && repo.work == files
      && IsCommitPlan(start, files, ownPaths, marked)
      && repo.index == UndoneIndex(repo.commits[headBeforeCommit.value].tree, start, files, ownPaths, marked)
    }

    /**
     * What a hold leaves of a checkout found with `files`. The own commit stays only if it is the branch's first one or git
     * refused to take it back, which happens to no calm run that has the checkout to itself.
     */
    ghost predicate IsUndone(files: WorkTree)
      requires Valid()
      reads this`committed, this`ownCommit, this`headBeforeCommit, this`localTip, this`ownPaths, this`marked, this`plannedIndex, repo
    {
      && (repo.quiet ==> repo.work == files)
      && (repo.quiet && ownCommit.Some? && !committed ==> UndoneAsFound(plannedIndex, files))
      && (ownCommit.Some? && headBeforeCommit.Some? && committed ==>
            !(repo.calm && repo.quiet) && repo.failedUndos > failedUndosBefore)
    }

    /** Takes the run's own commit back: the branch only if it is still there, then the index at the committed paths. */
    method UndoOwnCommit() returns (stop: Option<Code>)
      requires Valid()
      modifies this`committed, repo
      ensures Valid() && repo.HistoryKept()
      ensures repo.pushAttempts == old(repo.pushAttempts) && repo.rejectedPushes == old(repo.rejectedPushes)
      ensures stop.Some? ==> GetGitSyncCode(stop.value).exitCode != 0 && stop.value != MergeConflict
      ensures repo.quiet ==> repo.work == old(repo.work)
      ensures stop.None? && !committed && old(committed) ==> repo.ownMoves == old(repo.ownMoves) + [Move(ownCommit, headBeforeCommit)]
      ensures repo.calm && ownCommit.Some? && headBeforeCommit.Some? && old(repo.branch) == ownCommit ==>
                repo.branch == headBeforeCommit && repo.commits == old(repo.commits)
      ensures stop.None? && !committed && old(committed) ==> ownCommit.Some? && headBeforeCommit.Some?
      ensures stop.None? && repo.quiet && ownCommit.None? ==> repo.branch == old(repo.branch) && repo.index == old(repo.index)
      ensures stop.None? && !committed && old(committed) && repo.quiet && old(CommittedAsPlanned(plannedIndex, repo.work)) ==>
                UndoneAsFound(plannedIndex, old(repo.work))
      ensures ownCommit.Some? && headBeforeCommit.Some? && committed && old(committed) ==> repo.failedUndos > old(repo.failedUndos)
      ensures stop.None? && old(OwnCommitStands()) ==> IsUndone(old(repo.work))
      ensures repo.calm && repo.quiet && old(OwnCommitStands()) ==> stop.None?
    {
      if ownCommit.None? || headBeforeCommit.None? {
        return None;
      }
      var failure := TakeBackBranch();
      if failure.None? {
        failure := TakeBackPaths();
      }
      if failure.Some? {
        return if failure.value.Stop? then Some(failure.value.code) else None;
      }
      committed, stop := false, None;
    }

    method TakeBackBranch() returns (failure: Option<Failure>)
      requires Valid() && ownCommit.Some? && headBeforeCommit.Some?
      modifies repo
      ensures Valid() && repo.HistoryKept()
      ensures repo.pushAttempts == old(repo.pushAttempts) && repo.rejectedPushes == old(repo.rejectedPushes)
      ensures failure.None? ==> repo.branch == headBeforeCommit && repo.ownMoves == old(repo.ownMoves) + [Move(ownCommit, headBeforeCommit)]
      ensures repo.calm && old(repo.branch) == ownCommit ==> failure.None? && repo.commits == old(repo.commits)
      ensures failure.Some? ==> repo.failedUndos > old(repo.failedUndos)
      ensures failure.Some? && failure.value.Stop? ==> failure.value.code in {DeadlineExceeded, IndexLocked, FailedCode}
      ensures repo.quiet ==> repo.work == old(repo.work) && repo.index == old(repo.index)
    {
      Others(true);
      failure := repo.UpdateRef(headBeforeCommit.value, ownCommit.value);
      assert forall i :: |movesBefore| <= i < |repo.ownMoves| && i >= |old(repo.ownMoves)| ==> IsUndo(repo.ownMoves[i]);
    }

    method TakeBackPaths() returns (failure: Option<Failure>)
      requires Valid() && headBeforeCommit.Some?
      modifies repo
      ensures Valid() && repo.HistoryKept() && repo.ownMoves == old(repo.ownMoves)
      ensures repo.pushAttempts == old(repo.pushAttempts) && repo.rejectedPushes == old(repo.rejectedPushes)
      ensures repo.quiet ==> repo.work == old(repo.work) && repo.branch == old(repo.branch)
      ensures failure.None? && repo.quiet ==> repo.index == ResetIndex(old(repo.index), repo.commits[headBeforeCommit.value].tree, ownPaths)
      ensures repo.calm ==> failure.None? && repo.commits == old(repo.commits) && repo.branch == old(repo.branch)
      ensures failure.Some? ==> repo.failedUndos > old(repo.failedUndos)
      ensures failure.Some? && failure.value.Stop? ==> failure.value.code in {DeadlineExceeded, IndexLocked, FailedCode}
    {
      Others(true);
      failure := repo.ResetPaths(headBeforeCommit.value, ownPaths);
    }

    /** merge-tree, then commit-tree: the merge exists as objects only. */
    method MergeWithoutWorktree(local: CommitId, remote: CommitId) returns (merged: Result<CommitId>, conflict: bool)
      requires Valid() && local < |repo.commits| && remote < |repo.commits|
      modifies repo
      ensures Valid() && repo.HistoryKept() && repo.OwnRecordKept()
      ensures repo.quiet ==> repo.CheckoutKept()
      ensures merged.Value? ==> !conflict && IsCleanMerge(repo.commits, repo.mergeFile, merged.value, local, remote)
      ensures conflict ==> merged.Error? && exists base: Tree :: MergeConflicts(repo.commits, repo.mergeFile, local, remote, base)
      ensures merged.Error? && merged.failure.Stop? ==> merged.failure.code in {DeadlineExceeded, IndexLocked, FailedCode}
    {
      Others(true);
      var tree := repo.MergeTree(local, remote);
      if tree.Error? {
        return Error(tree.failure), tree.failure.StatusOne?;
      }
      ghost var base: Tree :| MergesTo(repo.commits, repo.mergeFile, local, remote, base, tree.value);
      conflict := false;
      merged := StoreMerge(base, tree.value, local, remote);
    }

    method StoreMerge(ghost base: Tree, tree: Tree, local: CommitId, remote: CommitId) returns (merged: Result<CommitId>)
      requires Valid() && local < |repo.commits| && remote < |repo.commits| && TreeShaped(tree) && PlainTree(tree)
      requires MergesTo(repo.commits, repo.mergeFile, local, remote, base, tree)
      modifies repo
      ensures Valid() && repo.HistoryKept() && repo.OwnRecordKept()
      ensures repo.quiet ==> repo.CheckoutKept()
      ensures merged.Value? ==> IsCleanMerge(repo.commits, repo.mergeFile, merged.value, local, remote)
      ensures merged.Error? && merged.failure.Stop? ==> merged.failure.code in {DeadlineExceeded, IndexLocked, FailedCode}
    {
      Others(true);
      label stored:
      merged := repo.CommitTree(tree, local, remote);
      StillValid@stored();
      MergesToIsStable(old(repo.commits), repo.commits, repo.mergeFile, local, remote, base, tree);
    }

    /** Pushing a commit the run may push keeps every promise about origin and about the pushes. */
    method PushToOrigin(commit: CommitId) returns (failure: Option<Failure>)
      requires Valid() && localTip.Some? && IsSyncPush(repo.commits, repo.mergeFile, repo.remoteTips, localTip.value, commit)
      requires commit < |repo.commits| && IsAncestor(repo.commits, localTip.value, commit) && OwnCommitStands()
      modifies repo
      ensures Valid() && repo.HistoryKept() && IsAncestor(repo.commits, localTip.value, commit)
      ensures repo.pushAttempts == old(repo.pushAttempts) + [commit]
      ensures failure.None? ==> repo.remote == Some(commit) && IsIntegrated(localTip.value, commit)
      ensures failure.Some? && failure.value.RejectedByRace? && old(NothingPushedYet()) ==> NothingPushedYet()
      ensures failure.Some? && failure.value.Stop? ==> GetGitSyncCode(failure.value.code).exitCode != 0 && failure.value.code != MergeConflict
      ensures repo.quiet ==> repo.CheckoutKept()
      ensures OwnCommitStands()
    {
      Others(true);
      AncestryIsStable(old(repo.commits), repo.commits, localTip.value, commit);
      SyncPushIsStable(old(repo.commits), repo.commits, repo.mergeFile, old(repo.remoteTips), repo.remoteTips, localTip.value, commit);
      failure := SendPush(commit);
      StillStands();
    }

    method SendPush(commit: CommitId) returns (failure: Option<Failure>)
      requires Valid() && localTip.Some? && IsSyncPush(repo.commits, repo.mergeFile, repo.remoteTips, localTip.value, commit)
      requires commit < |repo.commits|
      modifies repo`remote, repo`remoteTips, repo`pushAttempts, repo`rejectedPushes
      ensures Valid() && repo.HistoryKept()
      ensures repo.pushAttempts == old(repo.pushAttempts) + [commit]
      ensures failure.None? ==> repo.remote == Some(commit)
      ensures failure.Some? && failure.value.RejectedByRace? && old(NothingPushedYet()) ==> NothingPushedYet()
      ensures failure.Some? && failure.value.Stop? ==> GetGitSyncCode(failure.value.code).exitCode != 0 && failure.value.code != MergeConflict
    {
      ghost var tips, attempts := repo.remoteTips, repo.pushAttempts;
      failure := repo.Push(commit);
      if failure.Some? {
        FailureFails(failure.value);
      }
      forall i | |pushesBefore| <= i < |repo.pushAttempts|
        ensures IsSyncPush(repo.commits, repo.mergeFile, repo.remoteTips, localTip.value, repo.pushAttempts[i])
      {
        var pushed := if i < |attempts| then attempts[i] else commit;
        SyncPushIsStable(repo.commits, repo.commits, repo.mergeFile, tips, repo.remoteTips, localTip.value, pushed);
      }
    }

    /** Fetch, and read the tip of origin's branch back. */
    method FetchRemote() returns (r: Result<CommitId>)
      requires Valid()
      modifies repo
      ensures Valid() && repo.HistoryKept() && repo.OwnRecordKept()
      ensures repo.quiet ==> repo.CheckoutKept()
      ensures r.Value? ==> r.value < |repo.commits| && r.value in repo.remoteTips
      ensures repo.calm && old(repo.remote).Some? ==> repo.StateKept() && r == Value(repo.remote.value)
      ensures r.Error? && r.failure.Stop? ==> r.failure.code in {DeadlineExceeded, IndexLocked, FailedCode}
    {
      Others(true);
      label asked:
      var fetched := repo.Fetch();
      StillValid@asked();
      if fetched.Error? {
        return Error(fetched.failure);
      }
      Others(true);
      r := repo.TrackingTip();
    }

    lemma MergeIsCandidate(merge: CommitId, local: CommitId, remote: CommitId)
      requires repo.Valid() && IsCleanMerge(repo.commits, repo.mergeFile, merge, local, remote) && remote in repo.remoteTips
      ensures IsSyncPush(repo.commits, repo.mergeFile, repo.remoteTips, local, merge)
      ensures IsCandidate(repo.commits, repo.mergeFile, local, remote, merge) && IsAncestor(repo.commits, local, merge)
    {
      MergeReachesBothParents(repo.commits, merge, local, remote, local);
    }

    /** The commit to push: the local tip when it contains origin's, else one merge of the two. */
    method CandidateFor(local: CommitId, remote: CommitId) returns (candidate: Result<CommitId>, conflict: bool)
      requires Valid() && localTip == Some(local) && remote < |repo.commits| && remote in repo.remoteTips
      modifies this`integration, repo
      ensures Valid() && repo.HistoryKept() && repo.OwnRecordKept()
      ensures old(OwnCommitStands()) ==> OwnCommitStands()
      ensures repo.quiet ==> repo.CheckoutKept()
      ensures candidate.Value? ==>
                && !conflict && IsSyncPush(repo.commits, repo.mergeFile, repo.remoteTips, local, candidate.value)
                && IsCandidate(repo.commits, repo.mergeFile, local, remote, candidate.value)
                && candidate.value < |repo.commits| && IsAncestor(repo.commits, local, candidate.value)
      ensures conflict ==> candidate.Error? && exists base: Tree :: MergeConflicts(repo.commits, repo.mergeFile, local, remote, base)
      ensures candidate.Error? && candidate.failure.Stop? ==> candidate.failure.code in {DeadlineExceeded, IndexLocked, FailedCode, GitTooOld}
    {
      integration, conflict := Pushed, false;
      var contained := repo.MergeBaseIsAncestor(remote, local);
      if contained.Error? {
        return Error(contained.failure), false;
      }
      if contained.value {
        return Value(local), false;
      }
      if !supportsMergeTree {
        return Error(Stop(GitTooOld)), false;
      }
      candidate, conflict := MergeOf(local, remote);
    }

    method MergeOf(local: CommitId, remote: CommitId) returns (candidate: Result<CommitId>, conflict: bool)
      requires Valid() && localTip == Some(local) && remote < |repo.commits| && remote in repo.remoteTips
      modifies this`integration, repo
      ensures Valid() && repo.HistoryKept() && repo.OwnRecordKept()
      ensures repo.quiet ==> repo.CheckoutKept()
      ensures candidate.Value? ==>
                && !conflict && IsSyncPush(repo.commits, repo.mergeFile, repo.remoteTips, local, candidate.value)
                && IsCandidate(repo.commits, repo.mergeFile, local, remote, candidate.value)
                && candidate.value < |repo.commits| && IsAncestor(repo.commits, local, candidate.value)
      ensures conflict ==> candidate.Error? && exists base: Tree :: MergeConflicts(repo.commits, repo.mergeFile, local, remote, base)
      ensures candidate.Error? && candidate.failure.Stop? ==> candidate.failure.code in {DeadlineExceeded, IndexLocked, FailedCode}
    {
      candidate, conflict := MergeWithoutWorktree(local, remote);
      if candidate.Value? {
        MergeIsCandidate(candidate.value, local, remote);
        integration := Merged;
      }
    }

    /** A run that cannot integrate origin takes its own commit back and ends. */
    method Hold() returns (code: Code)
      requires Valid() && OwnCommitStands()
      modifies this`committed, repo
      ensures Valid() && repo.HistoryKept()
      ensures repo.pushAttempts == old(repo.pushAttempts) && repo.rejectedPushes == old(repo.rejectedPushes)
      ensures GetGitSyncCode(code).exitCode != 0
      ensures repo.quiet ==> repo.work == old(repo.work)
      ensures code == MergeConflict ==> IsUndone(old(repo.work))
      ensures code == MergeConflict && repo.quiet && ownCommit.None? ==> repo.branch == old(repo.branch)
      ensures repo.calm && repo.quiet ==> code == MergeConflict
    {
      var stop := UndoOwnCommit();
      code := if stop.Some? then stop.value else MergeConflict;
    }

    /** What a run notes for its report does not matter to what it keeps. */
    twostate lemma ValidDespiteNotes()
      requires old(Valid()) && unchanged(repo)
      requires unchanged(this`committed, this`ownCommit, this`headBeforeCommit, this`localTip, this`ownPaths, this`marked, this`plannedIndex)
      ensures Valid() && OwnCommitStands() == old(OwnCommitStands())
    {
    }

    /** A step that leaves the checkout alone leaves the own commit where it is. */
    twostate lemma StillStands()
      requires old(Valid()) && Valid() && repo.HistoryKept() && (repo.quiet ==> repo.CheckoutKept()) && old(OwnCommitStands())
      requires unchanged(this`committed, this`ownCommit, this`headBeforeCommit, this`localTip, this`ownPaths, this`marked, this`plannedIndex)
      ensures OwnCommitStands()
    {
    }

    method PushRound(local: CommitId, candidate: CommitId) returns (outcome: RoundOutcome)
      requires Valid() && localTip == Some(local) && candidate < |repo.commits| && IsAncestor(repo.commits, local, candidate)
      requires IsSyncPush(repo.commits, repo.mergeFile, repo.remoteTips, local, candidate) && OwnCommitStands()
      modifies this`pushed, this`pushedSha, repo
      ensures Valid() && repo.HistoryKept()
      ensures repo.pushAttempts == old(repo.pushAttempts) + [candidate]
      ensures repo.quiet ==> repo.CheckoutKept()
      ensures outcome.Integrated? ==> outcome.target == candidate && repo.remote == Some(candidate) && IsIntegrated(local, candidate)
      ensures OwnCommitStands()
      ensures outcome.Raced? && old(NothingPushedYet()) ==> NothingPushedYet()
      ensures outcome.Ended? ==> GetGitSyncCode(outcome.code).exitCode != 0 && outcome.code != MergeConflict
    {
      var failure := PushToOrigin(candidate);
      label sent:
      if failure.None? {
        pushed, pushedSha := true, Some(candidate);
        ValidDespiteNotes@sent();
        outcome := Integrated(candidate);
      } else if failure.value.RejectedByRace? {
        outcome := Raced;
      } else {
        outcome := Ended(if failure.value.Stop? then failure.value.code else PushFailed);
      }
    }

    /** A calm run whose tip is origin's. */
    predicate IsLevel(local: CommitId)
      reads repo
    {
      repo.calm && repo.remote == Some(local)
    }

    /** Origin's tip, and whether it already contains the local tip. */
    method CompareWithRemote(local: CommitId) returns (failure: Option<Failure>, remote: CommitId, caughtUp: bool)
      requires Valid() && localTip == Some(local) && OwnCommitStands()
      modifies repo
      ensures Valid() && repo.HistoryKept() && repo.OwnRecordKept() && OwnCommitStands()
      ensures repo.quiet ==> repo.CheckoutKept()
      ensures failure.None? ==> remote < |repo.commits| && remote in repo.remoteTips
      ensures old(IsLevel(local)) ==> failure.None? && caughtUp && remote == local && repo.StateKept()
      ensures failure.None? && caughtUp ==>
                IsAncestor(repo.commits, local, remote) && repo.remote.Some? && IsAncestor(repo.commits, local, repo.remote.value)
      ensures failure.Some? && failure.value.Stop? ==> failure.value.code in {DeadlineExceeded, IndexLocked, FailedCode}
    {
      remote, caughtUp := 0, false;
      var fetched := FetchRemote();
      if fetched.Error? {
        return Some(fetched.failure), remote, caughtUp;
      }
      remote := fetched.value;
      var contains := repo.MergeBaseIsAncestor(local, remote);
      if contains.Error? {
        return Some(contains.failure), remote, caughtUp;
      }
      failure, caughtUp := None, contains.value;
      if caughtUp {
        AncestorTransitive(repo.commits, local, remote, repo.remote.value);
      }
    }

    /** Origin contains the local tip: with the commit the integration ended with, which origin's branch has been at. */
    ghost predicate IsIntegrated(local: CommitId, target: CommitId)
      requires repo.Valid()
      reads repo
    {
      && repo.remote.Some? && IsAncestor(repo.commits, local, repo.remote.value)
      && target < |repo.commits| && IsAncestor(repo.commits, local, target) && target in repo.remoteTips
    }

    /** The pinned tip and this tip of origin cannot be merged. */
    ghost predicate ConflictsWith(remote: CommitId)
      requires repo.Valid()
      reads this`localTip, repo
    {
      && localTip.Some? && localTip.value < |repo.commits| && remote < |repo.commits|
      && exists base: Tree :: MergeConflicts(repo.commits, repo.mergeFile, localTip.value, remote, base)
    }

    twostate lemma ConflictIsStable(remote: CommitId)
      requires old(repo.Valid()) && repo.Valid() && old(repo.commits) <= repo.commits && localTip == old(localTip)
      requires old(ConflictsWith(remote))
      ensures ConflictsWith(remote)
    {
      var base: Tree :| old(MergeConflicts(repo.commits, repo.mergeFile, localTip.value, remote, base));
      BaseTreeIsStable(old(repo.commits), repo.commits, base, localTip.value, remote);
      assert MergeConflicts(repo.commits, repo.mergeFile, localTip.value, remote, base);
    }

    /** What ends in a conflict: a tip of origin conflicts with the pinned one, nothing was pushed, and the run is undone. */
    ghost predicate IsHeld(files: WorkTree)
      requires Valid()
      reads this`committed, this`ownCommit, this`headBeforeCommit, this`localTip, this`ownPaths, this`marked, this`plannedIndex, repo
    {
      NothingPushedYet() && IsUndone(files) && exists remote :: remote in repo.remoteTips && ConflictsWith(remote)
    }

    /** What an integration that is not still racing has come to. */
    ghost predicate HasComeTo(local: CommitId, outcome: RoundOutcome, branch: Option<CommitId>, files: WorkTree)
      requires Valid()
      reads this`committed, this`ownCommit, this`headBeforeCommit, this`localTip, this`ownPaths, this`marked, this`plannedIndex, repo
    {
      && (repo.quiet ==> repo.work == files)
      && (outcome.Integrated? ==> IsIntegrated(local, outcome.target) && (repo.quiet ==> repo.branch == branch))
      && (outcome.Ended? ==> GetGitSyncCode(outcome.code).exitCode != 0)
      && (outcome == Ended(MergeConflict) ==> IsHeld(files) && (repo.quiet && ownCommit.None? ==> repo.branch == branch))
    }

    method HoldOnConflict(local: CommitId, remote: CommitId) returns (outcome: RoundOutcome)
      requires Valid() && OwnCommitStands() && NothingPushedYet() && remote in repo.remoteTips && ConflictsWith(remote)
      modifies this`committed, repo
      ensures Valid() && repo.HistoryKept() && outcome.Ended? && repo.pushAttempts == old(repo.pushAttempts)
      ensures HasComeTo(local, outcome, old(repo.branch), old(repo.work))
      ensures outcome == Ended(MergeConflict) ==> ConflictsWith(remote)
    {
      label found:
      var code := Hold();
      ConflictIsStable@found(remote);
      outcome := Ended(code);
    }

    /** The round when origin has what the local tip does not contain, or the other way round. */
    method IntegrateTips(local: CommitId, remote: CommitId) returns (outcome: RoundOutcome)
      requires Valid() && localTip == Some(local) && OwnCommitStands() && NothingPushedYet()
      requires remote < |repo.commits| && remote in repo.remoteTips
      modifies this`integration, this`pushed, this`pushedSha, this`committed, repo
      ensures Valid() && repo.HistoryKept()
      ensures |old(repo.pushAttempts)| <= |repo.pushAttempts| <= |old(repo.pushAttempts)| + 1
      ensures |old(repo.pushAttempts)| < |repo.pushAttempts| ==>
                IsCandidate(repo.commits, repo.mergeFile, local, remote, repo.pushAttempts[|repo.pushAttempts| - 1])
      ensures HasComeTo(local, outcome, old(repo.branch), old(repo.work))
      ensures outcome.Raced? ==> OwnCommitStands() && NothingPushedYet() && (repo.quiet ==> repo.branch == old(repo.branch))
      ensures outcome == Ended(MergeConflict) ==> ConflictsWith(remote)
    {
      var candidate, conflict := CandidateFor(local, remote);
      if conflict {
        outcome := HoldOnConflict(local, remote);
        return;
      }
      if candidate.Error? {
        FailureFails(candidate.failure);
        return Ended(CodeOf(candidate.failure));
      }
      ghost var graph := repo.commits;
      outcome := PushRound(local, candidate.value);
      CandidateIsStable(graph, repo.commits, repo.mergeFile, local, remote, candidate.value);
    }

    method NoteCaughtUp(local: CommitId, remote: CommitId) returns (outcome: RoundOutcome)
      requires Valid() && IsIntegrated(local, remote)
      modifies this`integration
      ensures Valid() && outcome == Integrated(remote) && HasComeTo(local, outcome, repo.branch, repo.work)
    {
      label compared:
      integration := if remote == local then NotIntegrated else CaughtUp;
      ValidDespiteNotes@compared();
      outcome := Integrated(remote);
    }

    /** One round of the integration loop. */
    method IntegrateOnce(local: CommitId) returns (outcome: RoundOutcome)
      requires Valid() && localTip == Some(local) && OwnCommitStands() && NothingPushedYet()
      modifies this`integration, this`pushed, this`pushedSha, this`committed, repo
      ensures Valid() && repo.HistoryKept()
      ensures |old(repo.pushAttempts)| <= |repo.pushAttempts| <= |old(repo.pushAttempts)| + 1
      ensures HasComeTo(local, outcome, old(repo.branch), old(repo.work))
      ensures outcome.Raced? ==> OwnCommitStands() && NothingPushedYet() && (repo.quiet ==> repo.branch == old(repo.branch))
      ensures old(IsLevel(local)) ==> outcome == Integrated(local) && repo.StateKept()
    {
      var failure, remote, caughtUp := CompareWithRemote(local);
      if failure.Some? {
        FailureFails(failure.value);
        return Ended(CodeOf(failure.value));
      }
      if caughtUp {
        outcome := NoteCaughtUp(local, remote);
        return;
      }
      outcome := IntegrateTips(local, remote);
    }

    /** At most three rounds, the later ones only after another writer pushed first. */
    method IntegrateWithRemote(local: CommitId) returns (outcome: RoundOutcome)
      requires Valid() && localTip == Some(local) && OwnCommitStands() && NothingPushedYet()
      requires |repo.pushAttempts| == |pushesBefore|
      modifies this`integration, this`pushed, this`pushedSha, this`committed, repo
      ensures Valid() && repo.HistoryKept() && !outcome.Raced?
      ensures |repo.pushAttempts| <= |pushesBefore| + PUSH_ATTEMPTS
      ensures HasComeTo(local, outcome, old(repo.branch), old(repo.work))
      ensures old(IsLevel(local)) ==> outcome == Integrated(local) && repo.StateKept()
    {
      outcome := Raced;
      var attempt := 1;
      while outcome.Raced?
        invariant Valid() && repo.HistoryKept() && 1 <= attempt
        invariant outcome.Raced? ==>
                    && OwnCommitStands() && NothingPushedYet() && attempt <= PUSH_ATTEMPTS
                    && |repo.pushAttempts| <= |pushesBefore| + attempt - 1
                    && (repo.quiet ==> repo.branch == old(repo.branch))
        invariant |repo.pushAttempts| <= |pushesBefore| + PUSH_ATTEMPTS
        invariant HasComeTo(local, outcome, old(repo.branch), old(repo.work))
        invariant old(IsLevel(local)) ==> outcome in {Raced, Integrated(local)} && repo.StateKept()
        decreases outcome.Raced?, PUSH_ATTEMPTS - attempt
      {
        outcome := IntegrateOnce(local);
        if outcome.Raced? {
          if attempt == PUSH_ATTEMPTS {
            outcome := Ended(PushFailed);
          } else {
            attempt := attempt + 1;
          }
        }
      }
    }

    /** The first push of a branch origin does not have. */
    method CreateRemoteBranch(local: CommitId) returns (outcome: RoundOutcome)
      requires Valid() && localTip == Some(local) && OwnCommitStands()
      modifies this`integration, this`pushed, this`pushedSha, repo
      ensures Valid() && repo.HistoryKept() && !outcome.Raced?
      ensures |repo.pushAttempts| == |old(repo.pushAttempts)| + 1
      ensures repo.quiet ==> repo.CheckoutKept()
      ensures outcome.Integrated? ==> IsIntegrated(local, outcome.target)
      ensures outcome.Ended? ==> GetGitSyncCode(outcome.code).exitCode != 0 && outcome.code != MergeConflict
    {
      var failure := PushToOrigin(local);
      if failure.Some? {
        return Ended(if failure.value.Stop? then failure.value.code else PushFailed);
      }
      pushed, pushedSha, integration := true, Some(local), Pushed;
      outcome := Integrated(local);
    }

    // ---- The live tree ----

    /** A calm run whose branch is at the target, as the last read of HEAD finds. */
    predicate IsAt(target: CommitId)
      reads repo
    {
      repo.calm && repo.branch == Some(target) && repo.ReadWorks(ForLiveTree)
    }

    /** The branch is at the target or past it. */
    ghost predicate ContainsTarget(target: CommitId)
      requires repo.Valid()
      reads repo
    {
      repo.branch.Some? && IsAncestor(repo.commits, target, repo.branch.value)
    }

    /** Fast-forwards the checkout to what origin has, or reports it behind; a file with local edits is never written. */
    method BringLiveTreeForward(target: CommitId) returns (stop: Option<Code>)
      requires Valid() && target < |repo.commits|
      modifies this`code, this`liveTreeBehind, repo
      ensures Valid() && repo.HistoryKept()
      ensures repo.pushAttempts == old(repo.pushAttempts)
      ensures stop.Some? ==> GetGitSyncCode(stop.value).exitCode != 0 && stop.value != MergeConflict
      ensures stop.None? ==> code == old(code) || code == LiveTreeBehind
      ensures stop.None? && repo.quiet && code == old(code) && old(code) != LiveTreeBehind ==> ContainsTarget(target)
      ensures old(IsAt(target)) ==> stop.None? && repo.StateKept()
      ensures repo.quiet ==> LocalEditsKept(old(repo.commits), old(repo.branch), old(repo.work))
    {
      var failed, needed := NeedsFastForward(target);
      if failed.Some? {
        FailureFails(failed.value);
        return Some(CodeOf(failed.value));
      }
      if !needed {
        return None;
      }
      if repo.operationInProgress {
        return Some(InProgressOperation);
      }
      var failure := FastForward(target);
      if failure.Some? {
        if failure.value.Stop? {
          return Some(failure.value.code);
        }
        liveTreeBehind, code := true, LiveTreeBehind;
      }
      stop := None;
    }

    /** Then the short hash for the run's last line is read, which can still run out of time. */
    method CatchUp(target: CommitId, ghost local: CommitId) returns (stop: Option<Code>)
      requires Valid() && IsIntegrated(local, target)
      modifies this`code, this`liveTreeBehind, this`target, repo
      ensures Valid() && repo.HistoryKept() && IsIntegrated(local, target) && this.target == Some(target)
      ensures repo.pushAttempts == old(repo.pushAttempts)
      ensures stop.Some? ==> GetGitSyncCode(stop.value).exitCode != 0 && stop.value != MergeConflict
      ensures stop.None? ==> code == old(code) || code == LiveTreeBehind
      ensures stop.None? && repo.quiet && code == old(code) && old(code) != LiveTreeBehind ==> ContainsTarget(target)
      ensures old(IsAt(target)) ==> stop.None? && repo.StateKept()
      ensures repo.quiet ==> LocalEditsKept(old(repo.commits), old(repo.branch), old(repo.work))
    {
      ghost var graph, tip := repo.commits, repo.remote.value;
      assert tip in repo.remoteTips;
      this.target := Some(target);
      stop := BringLiveTreeForward(target);
      if stop.None? {
        stop := repo.ShortHash();
      }
      StillIntegrated(graph, local, target, tip);
    }

    /** HEAD is neither at the target nor past it. */
    method NeedsFastForward(target: CommitId) returns (failure: Option<Failure>, needed: bool)
      requires Valid() && target < |repo.commits|
      modifies repo
      ensures Valid() && repo.HistoryKept() && repo.OwnRecordKept()
      ensures repo.quiet ==> repo.CheckoutKept()
      ensures failure.None? && !needed ==> ContainsTarget(target)
      ensures old(IsAt(target)) ==> failure.None? && !needed && repo.StateKept()
      ensures failure.Some? && failure.value.Stop? ==> failure.value.code in {DeadlineExceeded, IndexLocked, FailedCode}
    {
      failure, needed := None, false;
      var head := ReadHead(ForLiveTree, true);
      if head.Error? {
        return Some(head.failure), false;
      }
      if head.value != target {
        var contains := repo.MergeBaseIsAncestor(target, head.value);
        if contains.Error? {
          return Some(contains.failure), false;
        }
        needed := !contains.value;
      }
    }

    ghost predicate LocalEditsKept(graph: seq<Commit>, branch: Option<CommitId>, files: WorkTree)
      reads repo`work
    {
      repo.work == files ||
      (branch.Some? && branch.value < |graph| &&
       forall p :: !OnDiskAs(files, graph[branch.value].tree, p) ==> Lookup(repo.work, p) == Lookup(files, p))
    }

    method FastForward(target: CommitId) returns (failure: Option<Failure>)
      requires Valid() && target < |repo.commits|
      modifies repo
      ensures Valid() && repo.HistoryKept()
      ensures repo.pushAttempts == old(repo.pushAttempts)
      ensures failure.Some? && failure.value.Stop? ==> failure.value.code in {DeadlineExceeded, IndexLocked, FailedCode}
      ensures failure.None? ==> ContainsTarget(target)
      ensures repo.quiet ==> LocalEditsKept(old(repo.commits), old(repo.branch), old(repo.work))
    {
      Others(true);
      ghost var before := repo.branch;
      failure := repo.MergeFfOnly(target);
      assert repo.branch != before ==> IsForward(repo.commits, Move(before, repo.branch));
    }

    // ---- The whole run ----

    /** A branch with a commit, no operation in progress, and nothing that fails but reads of HEAD. */
    predicate StartsCalmly()
      reads repo
    {
      repo.calm && repo.branch.Some? && !repo.operationInProgress && !repo.unmerged
    }

    /** The operation of another writer that the sync must not touch. */
    predicate MustRefuse()
      reads repo
    {
      repo.operationInProgress || repo.unmerged
    }

    function Refusal(): Code
      reads repo
    {
      if repo.operationInProgress then InProgressOperation else UnmergedPaths
    }

    method AssertNoOperation() returns (stop: Option<Code>)
      requires Valid()
      modifies repo
      ensures Valid() && repo.HistoryKept() && repo.OwnRecordKept()
      ensures stop == if MustRefuse() then Some(Refusal()) else None
      ensures repo.quiet ==> repo.CheckoutKept() && MustRefuse() == old(MustRefuse()) && Refusal() == old(Refusal())
      ensures repo.calm ==> repo.StateKept()
    {
      Others(!repo.lockHonoured);
      stop := if MustRefuse() then Some(Refusal()) else None;
    }

    /** The checks before anything is written, and the adoption of origin's branch by a checkout with no commit. */
    method Preflight() returns (stop: Option<Code>, remoteBranchExists: bool)
      requires Valid() && NotStarted() && repo.ownMoves == movesBefore
      modifies repo
      ensures Valid() && repo.HistoryKept()
      ensures repo.pushAttempts == old(repo.pushAttempts) && repo.rejectedPushes == old(repo.rejectedPushes)
      ensures stop.Some? ==> GetGitSyncCode(stop.value).exitCode != 0 && stop.value != MergeConflict
      ensures stop.None? && remoteBranchExists ==> repo.remote.Some?
      ensures old(StartsCalmly()) && repo.ReadWorks(AtPreflight) ==>
                stop.None? && repo.StateKept() && remoteBranchExists == repo.remote.Some?
      ensures old(StartsCalmly()) && !repo.ReadWorks(AtPreflight) && old(repo.remote).Some? ==>
                && stop.None? && remoteBranchExists && StartsCalmly()
                && HasAdopted(old(repo.commits), old(repo.branch), old(repo.remote), old(repo.ownMoves))
      ensures repo.quiet ==> repo.work == old(repo.work)
      ensures repo.quiet && old(repo.branch).Some? && repo.refReadsReliable ==> repo.CheckoutKept()
      ensures repo.quiet && old(MustRefuse()) ==> stop == Some(old(Refusal())) && repo.CheckoutKept() && repo.OwnRecordKept()
    {
      remoteBranchExists := false;
      stop := AssertNoOperation();
      if stop.Some? {
        return;
      }
      var listed := repo.RemoteBranchExists();
      if listed.Error? {
        return Some(if listed.failure.Stop? then listed.failure.code else RemoteUnreachable), false;
      }
      remoteBranchExists := listed.value;
      var head := ReadHead(AtPreflight, !repo.lockHonoured);
      if head.Error? && head.failure.Stop? {
        return Some(head.failure.code), remoteBranchExists;
      }
      stop := None;
      if remoteBranchExists && head.Error? {
        stop := AdoptRemote();
      }
    }

    /** Branch and index were moved to origin's tip, and nothing else changed. */
    ghost predicate HasAdopted(graph: seq<Commit>, branch: Option<CommitId>, remote: Option<CommitId>, moves: seq<Move>)
      reads repo
    {
      && repo.commits == graph && repo.branch == repo.remote == remote && repo.ownMoves == moves + [Move(branch, remote)]
      && RefInGraph(graph, remote) && repo.index == AsStaged(TreeOf(graph, remote))
    }

    /**
     * The reset to the tip just fetched. Its move keeps everything the branch reached exactly when the branch had no commit
     * at that moment, or its tip is an ancestor of the fetched one.
     */
    method AdoptRemote() returns (stop: Option<Code>)
      requires Valid() && NotStarted() && repo.ownMoves == movesBefore
      requires repo.refReadsReliable ==> repo.branch.None?
      modifies repo
      ensures Valid() && repo.HistoryKept()
      ensures repo.pushAttempts == old(repo.pushAttempts) && repo.rejectedPushes == old(repo.rejectedPushes)
      ensures stop.Some? ==> GetGitSyncCode(stop.value).exitCode != 0 && stop.value != MergeConflict
      ensures repo.quiet ==> repo.work == old(repo.work)
      ensures repo.ownMoves == movesBefore || AdoptedBy(old(repo.branch))
      ensures repo.calm && old(repo.remote).Some? ==>
                && stop.None? && HasAdopted(old(repo.commits), old(repo.branch), old(repo.remote), old(repo.ownMoves))
                && repo.operationInProgress == old(repo.operationInProgress) && repo.unmerged == old(repo.unmerged)
    {
      var fetched := FetchForAdoption();
      if fetched.Error? {
        return Some(CodeOf(fetched.failure));
      }
      stop := ResetToFetched(fetched.value);
    }

    method ResetToFetched(tip: CommitId) returns (stop: Option<Code>)
      requires Valid() && NotStarted() && repo.ownMoves == movesBefore && tip < |repo.commits| && tip in repo.remoteTips
      requires repo.refReadsReliable && repo.lockHonoured ==> repo.branch.None?
      modifies repo`branch, repo`branchTips, repo`index, repo`ownMoves
      ensures Valid() && repo.HistoryKept()
      ensures stop.Some? ==> GetGitSyncCode(stop.value).exitCode != 0 && stop.value != MergeConflict
      ensures repo.ownMoves == movesBefore || AdoptedBy(old(repo.branch))
      ensures repo.calm ==>
                && stop.None? && repo.ownMoves == old(repo.ownMoves) + [Move(old(repo.branch), Some(tip))]
                && repo.branch == Some(tip) && repo.index == AsStaged(repo.commits[tip].tree)
    {
      ghost var before := repo.branch;
      var failure := repo.ResetMixed(tip);
      KeepsExactlyWhen(repo.commits, before, tip);
      assert forall i :: |movesBefore| <= i < |repo.ownMoves| ==> i == |movesBefore| && IsMistakenOrForward(repo.ownMoves[i]);
      stop := if failure.Some? then Some(CodeOf(failure.value)) else None;
    }

    ghost predicate IsMistakenOrForward(move: Move)
      requires repo.Valid()
      reads repo
    {
      IsForward(repo.commits, move) || IsMistakenAdoption(move)
    }

    /** The one move is the adoption; nothing is dropped exactly when there was nothing, or it is reached from the new tip. */
    ghost predicate AdoptedBy(branch: Option<CommitId>)
      requires repo.Valid()
      reads repo
    {
      && |repo.ownMoves| == |movesBefore| + 1 && repo.ownMoves[|movesBefore|].after == repo.branch
      && repo.branch.Some? && repo.branch.value in repo.remoteTips
      && var before := repo.ownMoves[|movesBefore|].before;
         && (repo.lockHonoured ==> before == branch)
         && (before.Some? ==> before.value < |repo.commits|)
         && (KeepsReach(repo.commits, before, repo.branch.value) <==>
             before.None? || IsAncestor(repo.commits, before.value, repo.branch.value))
    }

    method FetchForAdoption() returns (r: Result<CommitId>)
      requires Valid()
      modifies repo
      ensures Valid() && repo.HistoryKept() && repo.OwnRecordKept()
      ensures repo.lockHonoured ==> repo.branch == old(repo.branch)
      ensures repo.quiet ==> repo.work == old(repo.work)
      ensures r.Value? ==> r.value < |repo.commits| && r.value in repo.remoteTips
      ensures r.Error? && r.failure.Stop? ==> r.failure.code in {DeadlineExceeded, IndexLocked, FailedCode}
      ensures repo.calm && old(repo.remote).Some? ==> repo.StateKept() && r == Value(repo.remote.value)
    {
      r := repo.Fetch();
      StillValid();
      Others(!repo.lockHonoured);
    }

    /** What stopped the run is its code; otherwise what it left out may be. */
    method Finish(stop: Option<Code>)
      modifies this`code, this`outcome, this`exitCode
      ensures outcome == GetGitSyncCode(code).outcome && exitCode == GetGitSyncCode(code).exitCode
      ensures
        var ended := if stop.Some? then stop.value else old(code);
        code == if ended != OkCode then ended
                else if nestedRepos != {} then Code.NestedRepo
                else if heldBack != [] then HeldBack
                else OkCode
    {
      if stop.Some? {
        code := stop.value;
      }
      if code == OkCode && nestedRepos != {} {
        code := Code.NestedRepo;
      } else if code == OkCode && heldBack != [] {
        code := HeldBack;
      }
      outcome, exitCode := GetGitSyncCode(code).outcome, GetGitSyncCode(code).exitCode;
    }

    method Integrate(remoteBranchExists: bool, local: CommitId) returns (outcome: RoundOutcome)
      requires Valid() && localTip == Some(local) && OwnCommitStands() && NothingPushedYet()
      requires |repo.pushAttempts| == |pushesBefore|
      modifies this`integration, this`pushed, this`pushedSha, this`committed, repo
      ensures Valid() && repo.HistoryKept() && !outcome.Raced?
      ensures |repo.pushAttempts| <= |pushesBefore| + PUSH_ATTEMPTS
      ensures HasComeTo(local, outcome, old(repo.branch), old(repo.work))
      ensures old(IsLevel(local)) && remoteBranchExists ==> outcome == Integrated(local) && repo.StateKept()
    {
      if remoteBranchExists {
        outcome := IntegrateWithRemote(local);
      } else {
        outcome := CreateRemoteBranch(local);
      }
    }

    /** The steps after preflight and commit, for a branch that has a commit. */
    method IntegrateAndCatchUp(remoteBranchExists: bool, local: CommitId) returns (stop: Option<Code>)
      requires Valid() && localTip == Some(local) && OwnCommitStands() && NothingPushedYet()
      requires |repo.pushAttempts| == |pushesBefore| && code == OkCode
      modifies this`code, this`liveTreeBehind, this`integration, this`pushed, this`pushedSha, this`committed, this`target, repo
      ensures Valid() && repo.HistoryKept()
      ensures |repo.pushAttempts| <= |pushesBefore| + PUSH_ATTEMPTS
      ensures stop.None? ==> (code == OkCode || code == LiveTreeBehind) && target.Some? && IsBroughtForward(local, target.value)
      ensures stop.Some? ==> GetGitSyncCode(stop.value).exitCode != 0
      ensures stop == Some(MergeConflict) ==> IsHeld(old(repo.work)) && (repo.quiet && ownCommit.None? ==> repo.branch == old(repo.branch))
      ensures old(IsLevel(local)) && old(IsAt(local)) && remoteBranchExists ==> stop.None? && repo.StateKept()
      ensures repo.quiet && stop != Some(MergeConflict) ==> LocalEditsKept(old(repo.commits), old(repo.branch), old(repo.work))
    {
      var outcome := Integrate(remoteBranchExists, local);
      if outcome.Ended? {
        return Some(outcome.code);
      }
      stop := CatchUp(outcome.target, local);
    }

    /** Origin contains the tip, and but for a reported live tree the branch contains what the integration ended with. */
    ghost predicate IsBroughtForward(local: CommitId, target: CommitId)
      requires repo.Valid()
      reads this`code, repo
    {
      IsIntegrated(local, target) && (repo.quiet && code != LiveTreeBehind ==> ContainsTarget(target))
    }

    lemma StillIntegrated(graph: seq<Commit>, local: CommitId, target: CommitId, tip: CommitId)
      requires repo.Valid() && WellFormed(graph) && graph <= repo.commits && tip < |graph| && target < |graph| && tip in repo.remoteTips
      requires IsAncestor(graph, local, tip) && IsAncestor(graph, local, target) && target in repo.remoteTips
      ensures IsIntegrated(local, target)
    {
      AncestryIsStable(graph, repo.commits, local, tip);
      AncestryIsStable(graph, repo.commits, local, target);
      AncestorTransitive(repo.commits, local, tip, repo.remote.value);
    }

    /** Content on disk that differs from the tip's survives the run. */
    ghost predicate KeepsEdits(tip: CommitId, files: WorkTree)
      requires repo.Valid()
      reads repo
    {
      repo.work == files ||
      (tip < |repo.commits| && forall p :: !OnDiskAs(files, repo.commits[tip].tree, p) ==> Lookup(repo.work, p) == Lookup(files, p))
    }

    /** The tip to integrate, read once; none where the check before it finds no commit. */
    method PinLocalTip() returns (stop: Option<Code>, local: Option<CommitId>)
      requires Valid() && localTip.None? && OwnCommitStands()
      modifies this`localTip, this`headFound, repo
      ensures Valid() && repo.HistoryKept() && repo.OwnRecordKept() && OwnCommitStands()
      ensures repo.quiet ==> repo.CheckoutKept()
      ensures stop.Some? ==> GetGitSyncCode(stop.value).exitCode != 0 && stop.value != MergeConflict
      ensures local == localTip && (local.Some? ==> repo.branch == local)
      ensures stop.None? ==> (headFound <==> local.Some?)
      ensures stop.None? && local.None? && repo.TipIsFound() ==> repo.branch.None?
      ensures old(StartsCalmly()) && !repo.ReadWorks(AfterCommit) ==> stop.None? && local.None? && repo.StateKept()
      ensures headFound ==> repo.branch.Some?
      ensures old(StartsCalmly()) && repo.ReadWorks(AfterCommit) && repo.ReadWorks(ForTip) ==>
                stop.None? && local == repo.branch && repo.StateKept()
    {
      stop, local := None, None;
      var head := ReadHead(AfterCommit, true);
      headFound := head.Value?;
      if head.Error? {
        return if head.failure.Stop? then Some(head.failure.code) else None, None;
      }
      stop, local := PinHead();
    }

    method PinHead() returns (stop: Option<Code>, local: Option<CommitId>)
      requires Valid() && localTip.None? && OwnCommitStands()
      modifies this`localTip, repo
      ensures Valid() && repo.HistoryKept() && repo.OwnRecordKept() && OwnCommitStands()
      ensures repo.quiet ==> repo.CheckoutKept()
      ensures stop.Some? ==> GetGitSyncCode(stop.value).exitCode != 0 && stop.value != MergeConflict
      ensures local == localTip && (local.Some? ==> repo.branch == local) && (stop.None? <==> local.Some?)
      ensures old(StartsCalmly()) && repo.ReadWorks(ForTip) ==> stop.None? && repo.StateKept()
    {
      stop, local := None, None;
      var tip := ReadHead(ForTip, true);
      if tip.Error? {
        FailureFails(tip.failure);
        return Some(CodeOf(tip.failure)), None;
      }
      assert repo.branchTips[|repo.branchTips| - 1] == tip.value;
      local := Some(tip.value);
      localTip := local;
    }

    /**
     * A tip was pinned exactly where the check found a commit; HEAD was at it during the run, and origin contains it. Where
     * reads of HEAD can be relied on, that is exactly on a branch with a commit.
     */
    ghost predicate TipIsIntegrated()
      requires repo.Valid()
      reads this`localTip, this`headFound, repo
    {
      && (headFound <==> localTip.Some?)
      && (localTip.Some? ==> WasTip(localTip.value) && repo.remote.Some? && IsAncestor(repo.commits, localTip.value, repo.remote.value))
      && (repo.TipIsFound() ==> (localTip.Some? <==> repo.branch.Some?))
    }

    /** A calm run at origin's tip, and every read of HEAD from here on works. */
    predicate NothingToIntegrate()
      reads repo
    {
      StartsCalmly() && repo.branch == repo.remote && repo.ReadWorks(AfterCommit) && repo.ReadWorks(ForTip) && repo.ReadWorks(ForLiveTree)
    }

    ghost predicate LiveTreeFollows()
      requires repo.Valid()
      reads this`localTip, this`target, this`code, repo
    {
      localTip.Some? ==> target.Some? && IsBroughtForward(localTip.value, target.value)
    }

    /** What the steps of a run have come to, on a checkout found with `files`. */
    ghost predicate HasEnded(stop: Option<Code>, files: WorkTree)
      requires Valid()
      reads this, repo
    {
      && |repo.pushAttempts| <= |pushesBefore| + PUSH_ATTEMPTS
      && (stop.Some? ==> GetGitSyncCode(stop.value).exitCode != 0)
      && (stop.None? ==> (code == OkCode || code == LiveTreeBehind) && TipIsIntegrated() && LiveTreeFollows())
      && (stop == Some(MergeConflict) ==> IsHeld(files))
      && (repo.quiet && localTip.Some? ==> KeepsEdits(localTip.value, files))
    }

    /** Pin the tip, integrate it, bring the live tree forward. */
    method PinAndIntegrate(remoteBranchExists: bool, ghost files: WorkTree) returns (stop: Option<Code>)
      requires Valid() && localTip.None? && OwnCommitStands() && NothingPushedYet()
      requires |repo.pushAttempts| == |pushesBefore| && code == OkCode && (repo.quiet ==> repo.work == files)
      modifies this`localTip, this`headFound, this`code, this`liveTreeBehind, this`integration, this`pushed, this`pushedSha,
               this`committed, this`target, repo
      ensures Valid() && repo.HistoryKept()
      ensures HasEnded(stop, files)
      ensures stop.None? && repo.quiet && localTip.Some? ==> localTip == old(repo.branch)
      ensures stop == Some(MergeConflict) && repo.quiet && ownCommit.None? ==> repo.branch == old(repo.branch)
      ensures old(StartsCalmly()) && !repo.ReadWorks(AfterCommit) ==> stop.None? && localTip.None? && code == old(code) && repo.StateKept()
      ensures old(NothingToIntegrate()) && remoteBranchExists ==> stop.None? && repo.StateKept()
    {
      var local;
      stop, local := PinLocalTip();
      if stop.None? && local.Some? {
        stop := IntegrateAndCatchUp(remoteBranchExists, local.value);
      }
    }

    method CommitAndIntegrate(remoteBranchExists: bool) returns (stop: Option<Code>)
      requires Valid() && NotStarted() && !committed && NothingPushedYet()
      requires |repo.pushAttempts| == |pushesBefore| && code == OkCode
      modifies this, repo
      ensures Valid() && repo.HistoryKept()
      ensures HasEnded(stop, old(repo.work))
      ensures stop.None? && repo.quiet && localTip.Some? ==> TipIsOwn(old(repo.branch))
      ensures stop.None? && repo.quiet ==> TipHolds(old(repo.work))
      ensures repo.quiet ==> plannedIndex == old(repo.index)
      ensures repo.quiet ==> OwnCommitTakesOnly(old(repo.work))
      ensures old(LosesItsHead()) ==> stop.None? && localTip.None? && code == old(code) && repo.StateKept()
      ensures old(NothingToSync()) && remoteBranchExists ==> stop.None? && repo.StateKept()
      ensures headBeforeCommit.Some? ==> headBeforeCommit == old(repo.branch)
      ensures stop == Some(MergeConflict) && repo.quiet && ownCommit.None? ==> repo.branch == old(repo.branch)
    {
      ghost var files := repo.work;
      stop := CommitStep();
      if stop.Some? {
        return;
      }
      label committedStep:
      stop := PinAndIntegrate(remoteBranchExists, files);
      StillTakesOnly@committedStep(files);
      PinnedTipHolds@committedStep(files);
    }

    /** The backup: the pinned tip holds the disk's content at every path the sync should commit. */
    ghost predicate TipHolds(files: WorkTree)
      requires repo.Valid()
      reads this`localTip, this`plannedIndex, this`facts, repo
    {
      localTip.Some? ==>
        && FactsHold(plannedIndex, files) && localTip.value < |repo.commits|
        && forall p ::
             ShouldCommit(facts.index, files, repo.inScope, repo.ignored, facts.gitlinks, isProtected, facts.tooLarge, p) ==>
             Lookup(repo.commits[localTip.value].tree, p) == ObjectAt(files, p)
    }

    /** What the branch held when its tip was pinned. */
    twostate lemma PinnedTipHolds(files: WorkTree)
      requires old(repo.Valid()) && repo.Valid() && old(repo.commits) <= repo.commits
      requires plannedIndex == old(plannedIndex) && facts == old(facts)
      ensures old(BranchHolds(files)) && (localTip.Some? ==> localTip == old(repo.branch)) ==> TipHolds(files)
    {
    }

    /** What a step that only lets history grow keeps of the own commit. */
    twostate lemma StillTakesOnly(files: WorkTree)
      requires old(repo.Valid()) && repo.Valid() && old(repo.commits) <= repo.commits
      requires unchanged(this`ownCommit, this`plannedIndex, this`facts, this`heldBack, this`nestedRepos)
      requires repo.quiet ==> old(OwnCommitTakesOnly(files))
      ensures repo.quiet ==> OwnCommitTakesOnly(files)
    {
    }

    /** The commit step, and what the commit then holds. */
    method CommitStep() returns (stop: Option<Code>)
      requires Valid() && NotStarted() && !committed
      modifies this`headBeforeCommit, this`committed, this`ownCommit, this`ownPaths, this`marked, this`plannedIndex,
               this`heldBack, this`nestedRepos, this`facts, repo
      ensures Valid() && repo.HistoryKept() && localTip.None? && OwnCommitStands()
      ensures repo.pushAttempts == old(repo.pushAttempts) && repo.rejectedPushes == old(repo.rejectedPushes)
      ensures stop.Some? ==> GetGitSyncCode(stop.value).exitCode != 0 && stop.value != MergeConflict
      ensures repo.quiet ==> repo.work == old(repo.work) && plannedIndex == old(repo.index)
      ensures headBeforeCommit.Some? ==> headBeforeCommit == old(repo.branch)
      ensures stop.None? && ownCommit.Some? ==> committed
      ensures stop.None? && repo.quiet ==> repo.branch == if ownCommit.Some? then ownCommit else old(repo.branch)
      ensures repo.quiet ==> OwnCommitTakesOnly(repo.work)
      ensures repo.quiet && stop.None? ==> BranchHolds(repo.work)
      ensures repo.calm && repo.quiet && old(IsClean()) ==> stop.None? && ownCommit.None? && repo.StateKept()
    {
      stop := CommitOwnPaths();
      if repo.quiet && ownCommit.Some? {
        PlannedCommitTakesOnly(plannedIndex, repo.work);
      }
    }

    /** The pinned tip is the run's own commit or, without one, the tip the run found. */
    ghost predicate TipIsOwn(branch: Option<CommitId>)
      reads this`localTip, this`ownCommit
    {
      localTip == if ownCommit.Some? then ownCommit else branch
    }

    /** A calm run on a clean checkout at origin's tip. */
    predicate NothingToSync()
      reads repo
    {
      NothingToIntegrate() && repo.quiet && IsClean()
    }

    /** A calm run on a checkout of origin's tip, whatever the branch and the index are at. */
    predicate AdoptsItsCheckout()
      requires repo.ValidGraph()
      reads repo
    {
      && StartsCalmly() && repo.quiet && repo.remote.Some? && IsCheckoutOf(AsStaged(TreeOf(repo.commits, repo.remote)))
      && repo.ReadWorks(AfterCommit) && repo.ReadWorks(ForTip) && repo.ReadWorks(ForLiveTree)
    }

    /** A calm run on a clean checkout, in which the check for a commit before the tip is pinned fails. */
    predicate LosesItsHead()
      reads repo
    {
      StartsCalmly() && repo.quiet && IsClean() && !repo.ReadWorks(AfterCommit)
    }

    ghost predicate AtStart()
      requires repo.Valid()
      reads this, repo
    {
      && NotStarted() && !committed && !pushed && code == OkCode
      && repo.ownMoves == movesBefore && repo.pushAttempts == pushesBefore && repo.rejectedPushes == rejectedBefore
      && repo.failedUndos == failedUndosBefore && |repo.branchTips| == tipsBefore
    }

    /** The steps of a run up to what stops it. */
    method RunSteps() returns (stop: Option<Code>)
      requires Valid() && AtStart()
      modifies this, repo
      ensures Valid() && repo.HistoryKept()
      ensures HasEnded(stop, old(repo.work))
      ensures stop.None? && repo.quiet ==> TipHolds(old(repo.work))
      ensures stop.None? && repo.quiet && repo.refReadsReliable && old(repo.branch).Some? ==>
                TipIsOwn(old(repo.branch)) && plannedIndex == old(repo.index)
      ensures repo.quiet ==> OwnCommitTakesOnly(old(repo.work))
      ensures old(LosesItsHead()) && repo.ReadWorks(AtPreflight) ==> stop.None? && localTip.None? && repo.StateKept()
      ensures old(NothingToSync()) && repo.ReadWorks(AtPreflight) ==> stop.None? && repo.StateKept()
      ensures old(AdoptsItsCheckout()) && !repo.ReadWorks(AtPreflight) ==>
                stop.None? && HasAdopted(old(repo.commits), old(repo.branch), old(repo.remote), old(repo.ownMoves))
      ensures stop == Some(MergeConflict) && repo.quiet && !committed && old(repo.branch).Some? && repo.refReadsReliable ==>
                repo.branch == old(repo.branch) && plannedIndex == old(repo.index)
      ensures repo.quiet && old(MustRefuse()) ==> stop == Some(old(Refusal())) && repo.CheckoutKept() && repo.OwnRecordKept()
    {
      var remoteBranchExists;
      stop, remoteBranchExists := Preflight();
      if stop.None? {
        stop := CommitAndIntegrate(remoteBranchExists);
      }
    }

    /**
     * One whole run. Whatever other writers do between its commands: origin keeps every tip it ever had; the local
     * branch moves only forward, or back over this run's own commit; at most three pushes are made, each of the pinned
     * tip or of one clean merge of it with a tip of origin; an exit status of 0 means that origin contains the run's tip,
     * which HEAD was at during the run and which is pinned exactly where the check after the commit finds HEAD; a run held
     * by a conflict has a tip that conflicts with one of origin's, pushed nothing, and took its own commit back unless that
     * is the branch's first one or git refused to.
     *
     * With nobody else at the checkout: the own commit holds what should be committed and nothing that is protected or
     * reported as left out; the tip of a run that exits 0 is the own commit or the one found, has the disk's content at
     * every path that should be committed, and is on the branch unless the live tree is reported behind; a held run leaves
     * branch and disk as found; and a start in another writer's operation is refused and changes nothing.
     */
    method PerformGitSync()
      requires Valid() && AtStart()
      modifies this, repo
      ensures Valid() && repo.HistoryKept()
      ensures |repo.pushAttempts| <= |pushesBefore| + PUSH_ATTEMPTS
      ensures outcome == GetGitSyncCode(code).outcome && exitCode == GetGitSyncCode(code).exitCode
      ensures exitCode == 0 ==> TipIsIntegrated() && LiveTreeFollows()
      ensures exitCode == 0 && repo.refReadsReliable && old(repo.branch).Some? ==> localTip.Some?
      ensures exitCode == 0 && repo.quiet ==> TipHolds(old(repo.work))
      ensures exitCode == 0 && repo.quiet && repo.refReadsReliable && old(repo.branch).Some? ==>
                TipIsOwn(old(repo.branch)) && plannedIndex == old(repo.index)
      ensures repo.quiet ==> OwnCommitTakesOnly(old(repo.work))
      ensures old(LosesItsHead()) && repo.ReadWorks(AtPreflight) ==> exitCode == 0 && localTip.None? && repo.StateKept()
      ensures old(NothingToSync()) && repo.ReadWorks(AtPreflight) ==> exitCode == 0 && repo.StateKept()
      ensures old(AdoptsItsCheckout()) && !repo.ReadWorks(AtPreflight) ==>
                exitCode == 0 && HasAdopted(old(repo.commits), old(repo.branch), old(repo.remote), old(repo.ownMoves))
      ensures old(StartsCalmly()) && exitCode == 0 && repo.ReadWorks(AfterCommit) ==> localTip.Some?
      ensures code == MergeConflict ==> IsHeld(old(repo.work))
      ensures code == MergeConflict && repo.quiet && !committed && old(repo.branch).Some? && repo.refReadsReliable ==>
                repo.branch == old(repo.branch) && plannedIndex == old(repo.index)
      ensures repo.quiet && localTip.Some? ==> KeepsEdits(localTip.value, old(repo.work))
      ensures repo.quiet && old(MustRefuse()) ==> code == old(Refusal()) && repo.CheckoutKept() && repo.OwnRecordKept()
    {
      var stop := RunSteps();
      label steps:
      Finish(stop);
      SameTip@steps(old(repo.branch));
      SameCommit@steps(old(repo.work));
      SameHold@steps(old(repo.work));
    }

    /** What is said of a run does not depend on its code. */
    twostate lemma SameTip(branch: Option<CommitId>)
      requires old(Valid()) && unchanged(repo)
      requires unchanged(this`ownCommit, this`headBeforeCommit, this`localTip, this`headFound, this`target)
      ensures Valid() && TipIsIntegrated() == old(TipIsIntegrated()) && TipIsOwn(branch) == old(TipIsOwn(branch))
      ensures (code == LiveTreeBehind || old(code) != LiveTreeBehind) && old(LiveTreeFollows()) ==> LiveTreeFollows()
    {
    }

    twostate lemma SameHold(files: WorkTree)
      requires old(Valid()) && Valid() && unchanged(repo)
      requires unchanged(this`committed, this`ownCommit, this`headBeforeCommit, this`localTip, this`ownPaths, this`marked, this`plannedIndex)
      ensures IsHeld(files) == old(IsHeld(files))
    {
    }

    twostate lemma SameCommit(files: WorkTree)
      requires old(Valid()) && Valid() && unchanged(repo)
      requires unchanged(this`ownCommit, this`headBeforeCommit, this`localTip, this`ownPaths, this`marked, this`plannedIndex)
      requires unchanged(this`facts, this`heldBack, this`nestedRepos)
      ensures OwnCommitTakesOnly(files) == old(OwnCommitTakesOnly(files)) && TipHolds(files) == old(TipHolds(files))
    {
    }
  }

  /** However many held runs follow each other, the branch and the disk stay where the first run found them. */
  method RepeatHeldRuns(repo: Repository, isProtected: Path -> bool, maxUntrackedBytes: nat, supportsMergeTree: bool, runs: nat)
    returns (held: bool)
    requires repo.Valid() && repo.quiet && repo.refReadsReliable && repo.branch.Some?
    modifies repo
    ensures repo.Valid()
    ensures held ==> repo.branch == old(repo.branch) && repo.work == old(repo.work)
  {
    held := true;
    for i := 0 to runs
      invariant repo.Valid() && repo.branch == old(repo.branch) && repo.work == old(repo.work)
    {
      var run := new GitSyncRun(repo, isProtected, maxUntrackedBytes, supportsMergeTree);
      run.PerformGitSync();
      if run.code != MergeConflict || run.committed {
        return false;
      }
    }
  }

  // ---- Runs that fail what one would expect ----

  /** Two commits: origin has the first, and the local branch the second. */
  method TwoCommits(lostReads: set<HeadRead>) returns (repo: Repository)
    ensures fresh(repo) && repo.Valid() && repo.calm && repo.quiet && !repo.refReadsReliable && repo.lostReads == lostReads
    ensures repo.commits == [Commit([], map["a" := File(1)]), Commit([0], map["a" := File(1)])]
    ensures repo.remote == Some(0) && repo.branch == Some(1) && repo.ownMoves == [] && !repo.operationInProgress && !repo.unmerged
  {
    repo := new Repository((base, x, y) => None, p => true, p => false, true, false, true, true, lostReads);
    repo.commits := [Commit([], map["a" := File(1)]), Commit([0], map["a" := File(1)])];
    repo.remote, repo.remoteTips, repo.branch, repo.branchTips := Some(0), [0], Some(1), [1];
  }

  /** The second commit changes nothing, and the checkout is clean. */
  method AheadOfOrigin(lostReads: set<HeadRead>) returns (repo: Repository)
    ensures fresh(repo) && repo.Valid() && repo.calm && repo.quiet && !repo.refReadsReliable && repo.lostReads == lostReads
    ensures repo.commits == [Commit([], map["a" := File(1)]), Commit([0], map["a" := File(1)])]
    ensures repo.remote == Some(0) && repo.branch == Some(1) && repo.ownMoves == [] && !repo.operationInProgress && !repo.unmerged
    ensures repo.index == map["a" := Staged(File(1))] && repo.work == map["a" := Regular(1, 1)]
  {
    repo := TwoCommits(lostReads);
    repo.index, repo.work := map["a" := Staged(File(1))], map["a" := Regular(1, 1)];
  }

  /** HEAD cannot be read after the commit: the run ends as ok, and origin still lacks the branch's commit. */
  method RunThatIntegratesNothing() returns (repo: Repository, run: GitSyncRun)
    ensures fresh(repo) && fresh(run) && repo.Valid() && run.exitCode == 0
    ensures repo.branch.Some? && repo.remote.Some? && !IsAncestor(repo.commits, repo.branch.value, repo.remote.value)
  {
    repo := AheadOfOrigin({AfterCommit});
    run := new GitSyncRun(repo, p => false, 0, true);
    RunWithoutHead(run);
  }

  method RunWithoutHead(run: GitSyncRun)
    requires run.Valid() && run.AtStart() && run.LosesItsHead() && run.repo.ReadWorks(AtPreflight)
    modifies run, run.repo
    ensures run.repo.Valid() && run.exitCode == 0 && run.repo.StateKept()
  {
    run.PerformGitSync();
  }

  /** HEAD cannot be read at the start: the run ends as ok, and has reset the branch to origin's tip and dropped its commit. */
  method RunThatDropsACommit() returns (repo: Repository, run: GitSyncRun)
    ensures fresh(repo) && fresh(run) && repo.Valid() && run.exitCode == 0
    ensures |repo.ownMoves| == 1 && !IsForward(repo.commits, repo.ownMoves[0])
    ensures repo.branch.Some? && !IsAncestor(repo.commits, 1, repo.branch.value)
  {
    repo := AheadOfOrigin({AtPreflight});
    run := new GitSyncRun(repo, p => false, 0, true);
    RunThatAdopts(run);
  }

  method RunThatAdopts(run: GitSyncRun)
    requires run.Valid() && run.AtStart() && run.AdoptsItsCheckout() && !run.repo.ReadWorks(AtPreflight)
    modifies run, run.repo
    ensures run.repo.Valid() && run.exitCode == 0 && run.repo.commits == old(run.repo.commits) && run.repo.branch == old(run.repo.remote)
    ensures run.repo.ownMoves == old(run.repo.ownMoves) + [Move(old(run.repo.branch), run.repo.branch)]
  {
    run.PerformGitSync();
  }

  /** Another writer commits on top of the branch. */
  method AnotherCommits(repo: Repository)
    requires repo.Valid() && repo.branch.Some?
    modifies repo`commits, repo`branch, repo`branchTips
    ensures repo.Valid() && repo.HistoryKept() && repo.branch == Some(|old(repo.commits)|)
    ensures repo.commits == old(repo.commits) + [Commit([old(repo.branch).value], map[])]
  {
    var c := repo.StoreCommit([repo.branch.value], map[]);
    repo.branch, repo.branchTips := Some(c), repo.branchTips + [c];
  }

  /** One commit, and a new file that is staged. */
  method WithStagedFile() returns (repo: Repository)
    ensures fresh(repo) && repo.Valid() && repo.calm && repo.refReadsReliable && !repo.lockHonoured && !repo.quiet
    ensures repo.commits == [Commit([], map[])] && repo.branch == Some(0)
    ensures repo.index == map["a" := Staged(File(1))] && repo.work == map["a" := Regular(1, 1)]
  {
    repo := new Repository((base, x, y) => None, p => true, p => false, false, true, false, true, {});
    repo.commits, repo.branch, repo.branchTips := [Commit([], map[])], Some(0), [0];
    repo.index, repo.work := map["a" := Staged(File(1))], map["a" := Regular(1, 1)];
  }

  lemma StagedFileCanBeCommitted(repo: Repository)
    requires repo.ValidGraph() && TreeOf(repo.commits, repo.branch) == map[]
    requires repo.index == map["a" := Staged(File(1))] && repo.work == map["a" := Regular(1, 1)]
    ensures repo.CanCommit({"a"})
  {
    assert PathspecMatches("a", "a");
    assert "a" in MatchedPaths({"a"}, repo.index, map[]);
  }

  /** The other writer commits after the run has read HEAD. */
  method AnotherAfterRead(repo: Repository) returns (run: GitSyncRun)
    requires repo.Valid() && repo.calm && repo.refReadsReliable && !repo.lockHonoured && repo.branch.Some?
    modifies repo`commits, repo`branch, repo`branchTips
    ensures fresh(run) && run.repo == repo && run.Valid() && run.NotStarted() && run.headBeforeCommit == old(repo.branch)
    ensures repo.branch == Some(|old(repo.commits)|)
    ensures repo.commits == old(repo.commits) + [Commit([old(repo.branch).value], map[])]
  {
    run := new GitSyncRun(repo, p => false, 0, true);
    var _ := run.ReadHeadBeforeCommit();
    label headRead:
    AnotherCommits(repo);
    run.StillValid@headRead();
  }

  /** HEAD is read, the other writer commits, and then the run does. */
  method OwnCommitOnAnother(repo: Repository) returns (run: GitSyncRun)
    requires repo.Valid() && repo.calm && repo.refReadsReliable && !repo.lockHonoured && !repo.quiet
    requires repo.commits == [Commit([], map[])] && repo.branch == Some(0)
    requires repo.index == map["a" := Staged(File(1))] && repo.work == map["a" := Regular(1, 1)]
    modifies repo
    ensures fresh(run) && run.repo == repo && run.Valid() && |repo.commits| == 3
    ensures run.headBeforeCommit == Some(0) && run.ownCommit.Some? && repo.branch == run.ownCommit
  {
    run := AnotherAfterRead(repo);
    StagedFileCanBeCommitted(repo);
    CommitAlone(run, {"a"});
  }

  /** The run's own commit, when nothing fails and no lock is held. */
  method CommitAlone(run: GitSyncRun, specs: set<Path>)
    requires run.Valid() && run.NotStarted() && run.repo.calm && run.repo.refReadsReliable && !run.repo.lockHonoured
    requires run.repo.branch.Some? && run.repo.CanCommit(specs)
    modifies run`committed, run`ownCommit, run`ownPaths, run.repo
    ensures run.Valid() && run.ownCommit.Some? && run.repo.branch == run.ownCommit && |run.repo.commits| == |old(run.repo.commits)| + 1
  {
    var _ := run.CommitSpecs(specs);
    var _ := run.NoteOwnCommit(specs);
  }

  /**
   * Without the writer lock, another commit can land between the reading of HEAD and the run's own commit. Taking that own
   * commit back then drops the other one too.
   */
  method UndoThatDropsAnother() returns (repo: Repository, run: GitSyncRun)
    ensures fresh(repo) && fresh(run) && repo.Valid() && !repo.lockHonoured
    ensures |repo.commits| == 3 && repo.branch.Some? && !IsAncestor(repo.commits, 1, repo.branch.value)
  {
    repo := WithStagedFile();
    run := OwnCommitOnAnother(repo);
    var _ := run.UndoOwnCommit();
  }
}
