/**
 * A checkout that other writers share, and its origin. Each method is one git command of the sync and acts at one
 * instant; OthersRun is everything other writers may do between two of them.
 */
module Repository {
  import opened Wrappers
  import opened PathTrees
  import opened CommitGraph
  import opened TreeMerge
  import opened Staging
  import opened CommitPlan
  import opened GitSyncCodes

  /** Why a command failed. `Stop` is the runner giving up; the other kinds are told apart by git's message or status. */
  datatype Failure = Stop(code: Code) | NothingToCommit | PathspecMismatch | RejectedByRace | Unrelated | StatusOne | OtherFailure

  datatype Result<+T> = Value(value: T) | Error(failure: Failure)

  /** Where a run reads HEAD. */
  datatype HeadRead = AtPreflight | BeforeCommit | OfOwnCommit | AfterCommit | ForTip | ForLiveTree

  /** One move of the local branch. */
  datatype Move = Move(before: Option<CommitId>, after: Option<CommitId>)

  predicate PlainTree(tree: Tree) {
    forall p :: p in tree ==> !EndsWith(p, "/")
  }

  predicate RefInGraph(graph: seq<Commit>, ref: Option<CommitId>) {
    ref.Some? ==> ref.value < |graph|
  }

  function TreeOf(graph: seq<Commit>, tip: Option<CommitId>): Tree
    requires RefInGraph(graph, tip)
  {
    if tip.Some? then graph[tip.value].tree else map[]
  }

  /** `base` is the only best common ancestor. */
  predicate IsOnlyMergeBase(graph: seq<Commit>, base: CommitId, l: CommitId, r: CommitId)
    requires WellFormed(graph)
  {
    base < |graph| && IsMergeBase(graph, base, l, r)
    && forall o: CommitId :: o < |graph| && IsMergeBase(graph, o, l, r) ==> o == base
  }

  /** The tree a merge compares both sides with: the only merge base's, or one git builds from several. */
  ghost predicate IsBaseTree(graph: seq<Commit>, base: Tree, l: CommitId, r: CommitId)
    requires WellFormed(graph)
  {
    forall b: CommitId :: IsOnlyMergeBase(graph, b, l, r) ==> base == graph[b].tree
  }

  /** Merging `l` and `r` over the base tree `base` is clean and gives `tree`. */
  ghost predicate MergesTo(graph: seq<Commit>, mergeFile: FileMerge, l: CommitId, r: CommitId, base: Tree, tree: Tree)
    requires WellFormed(graph) && l < |graph| && r < |graph|
  {
    && IsBaseTree(graph, base, l, r)
    && MergesCleanly(base, graph[l].tree, graph[r].tree, mergeFile)
    && tree == MergeTrees(base, graph[l].tree, graph[r].tree, mergeFile)
  }

  ghost predicate MergeConflicts(graph: seq<Commit>, mergeFile: FileMerge, l: CommitId, r: CommitId, base: Tree)
    requires WellFormed(graph) && l < |graph| && r < |graph|
  {
    IsBaseTree(graph, base, l, r) && !MergesCleanly(base, graph[l].tree, graph[r].tree, mergeFile)
  }

  /** `m` is the merge of the commits `l` and `r`, clean at every path. */
  ghost predicate IsCleanMerge(graph: seq<Commit>, mergeFile: FileMerge, m: CommitId, l: CommitId, r: CommitId)
    requires WellFormed(graph)
  {
    && m < |graph| && graph[m].parents == [l, r] && l < m && r < m
    && exists base: Tree :: MergesTo(graph, mergeFile, l, r, base, graph[m].tree)
  }

  /** What a fast-forward does to one path of the index or the work tree: a change between the commits is checked out. */
  function FastForwarded<V>(files: map<Path, V>, changed: set<Path>, target: map<Path, V>): map<Path, V> {
    Overlay(files, map p | p in changed && p in target :: target[p], changed)
  }

  /** The files of a tree as a checkout writes them; sizes are not recorded in a tree. */
  function CheckedOut(tree: Tree): WorkTree {
    map p | p in tree :: if tree[p].File? then Regular(tree[p].blob, 0) else WorkFile.NestedRepo(tree[p].pointer)
  }

  predicate OnDiskAs(work: WorkTree, tree: Tree, p: Path) {
    ObjectAt(work, p) == Lookup(tree, p)
  }

  /** The paths a fast-forward from `head` to `target` has to write, where the index is not there already. */
  function ChangedPaths(head: Tree, target: Tree, index: Index): set<Path> {
    set p | p in head.Keys + target.Keys && Lookup(head, p) != Lookup(target, p) && Lookup(index, p) != StagedAt(target, p)
  }

  /** No path the fast-forward writes has a local edit. */
  predicate NoLocalEdits(head: Tree, index: Index, work: WorkTree, changed: set<Path>) {
    forall p :: p in changed ==> Lookup(index, p) == StagedAt(head, p) && OnDiskAs(work, head, p)
  }

  /** Every file the fast-forward writes can stand on disk beside the files it leaves alone. */
  predicate RoomFor(files: set<Path>, changed: set<Path>, target: Tree) {
    forall p, q :: p in changed && p in target && q in files && q !in changed ==> !Clash(p, q)
  }

  class Repository {
    const mergeFile: FileMerge
    const inScope: Path -> bool
    const ignored: Path -> bool
    /** The other writers honour the writer lock until the sync has noted its own commit. */
    const lockHonoured: bool
    /** Reading HEAD fails only on a branch with no commit, or when the runner gives up. */
    const refReadsReliable: bool
    /** Nobody else touches this checkout during the run; origin still moves. */
    const quiet: bool
    /** Nobody else acts at all, and no command fails but the reads of HEAD in `lostReads`, where such reads can fail. */
    const calm: bool
    const lostReads: set<HeadRead>

    var commits: seq<Commit>
    var remote: Option<CommitId>
    var branch: Option<CommitId>
    var tracking: Option<CommitId>
    var index: Index
    var work: WorkTree
    var operationInProgress: bool
    var unmerged: bool

    /** Every tip origin's branch and the local branch have had, oldest first. */
    ghost var remoteTips: seq<CommitId>
    ghost var branchTips: seq<CommitId>
    /** The moves of the local branch and the pushes that runs made, and how often git refused to undo a commit. */
    ghost var ownMoves: seq<Move>
    ghost var pushAttempts: seq<CommitId>
    ghost var rejectedPushes: nat
    ghost var failedUndos: nat

    predicate ValidGraph()
      reads this`commits, this`remote, this`branch, this`tracking, this`index, this`work
    {
      && WellFormed(commits)
      && RefInGraph(commits, remote) && RefInGraph(commits, branch) && RefInGraph(commits, tracking)
      && TreeShaped(index) && TreeShaped(work) && PlainNames(index, work)
      && forall c :: 0 <= c < |commits| ==> PlainTree(commits[c].tree)
    }

    /** Origin only ever moved forward: every tip it has had can still be reached from its branch. */
    ghost predicate OriginKeepsHistory()
      requires ValidGraph()
      reads this`commits, this`remote, this`branch, this`tracking, this`index, this`work, this`remoteTips
    {
      && (remote.Some? ==> remote.value in remoteTips)
      && forall t :: t in remoteTips ==> remote.Some? && IsAncestor(commits, t, remote.value)
    }

    ghost predicate Valid()
      reads this`commits, this`remote, this`branch, this`tracking, this`index, this`work, this`remoteTips, this`branchTips
    {
      ValidGraph() && OriginKeepsHistory() && (branch.Some? ==> branchTips != [] && branchTips[|branchTips| - 1] == branch.value)
    }

    constructor (mergeFile: FileMerge, inScope: Path -> bool, ignored: Path -> bool, lockHonoured: bool,
                 refReadsReliable: bool, quiet: bool, calm: bool, lostReads: set<HeadRead>)
      ensures Valid() && remote == None && branch == None && commits == [] && index == map[] && work == map[]
      ensures remoteTips == [] && branchTips == [] && ownMoves == [] && pushAttempts == [] && rejectedPushes == failedUndos == 0
      ensures this.mergeFile == mergeFile && this.inScope == inScope && this.ignored == ignored
      ensures this.lockHonoured == lockHonoured && this.refReadsReliable == refReadsReliable && this.quiet == quiet
      ensures this.calm == calm && this.lostReads == lostReads && !operationInProgress && !unmerged && tracking.None?
    {
      this.mergeFile, this.inScope, this.ignored := mergeFile, inScope, ignored;
      this.lockHonoured, this.refReadsReliable, this.quiet := lockHonoured, refReadsReliable, quiet;
      this.calm, this.lostReads := calm, lostReads;
      commits, remote, branch, tracking := [], None, None, None;
      index, work, operationInProgress, unmerged := map[], map[], false, false;
      remoteTips, branchTips, ownMoves, pushAttempts, rejectedPushes, failedUndos := [], [], [], [], 0, 0;
    }

    /** Commits and what is on record are never lost, and a branch with a commit keeps having one. */
    twostate predicate HistoryKept()
      reads this
    {
      && old(commits) <= commits && old(remoteTips) <= remoteTips && old(branchTips) <= branchTips
      && old(ownMoves) <= ownMoves && old(failedUndos) <= failedUndos
      && (old(remote).Some? ==> remote.Some?) && (old(branch).Some? ==> branch.Some?)
    }

    /** Nothing changed, here or on origin. */
    twostate predicate StateKept()
      reads this
    {
      && CheckoutKept() && OwnRecordKept() && commits == old(commits) && remote == old(remote) && remoteTips == old(remoteTips)
      && operationInProgress == old(operationInProgress) && unmerged == old(unmerged)
    }

    /** This read of HEAD works if nothing but `lostReads` fails. */
    predicate ReadWorks(which: HeadRead) {
      refReadsReliable || which !in lostReads
    }

    /** The check for a commit before the tip is pinned finds it on every branch that has one. */
    predicate TipIsFound() {
      refReadsReliable || (calm && ReadWorks(AfterCommit))
    }

    /** The checkout as this run's commands see it did not change. */
    twostate predicate CheckoutKept()
      reads this
    {
      index == old(index) && work == old(work) && branch == old(branch)
    }

    twostate predicate OwnRecordKept()
      reads this
    {
      && ownMoves == old(ownMoves) && pushAttempts == old(pushAttempts) && rejectedPushes == old(rejectedPushes)
      && failedUndos == old(failedUndos)
    }

    lemma OriginKeptForward(grown: seq<Commit>, tip: CommitId)
      requires Valid() && WellFormed(grown) && commits <= grown && tip < |grown|
      requires remote.Some? ==> IsAncestor(grown, remote.value, tip)
      ensures forall t :: t in remoteTips ==> IsAncestor(grown, t, tip)
    {
      forall t | t in remoteTips
        ensures IsAncestor(grown, t, tip)
      {
        AncestryIsStable(commits, grown, t, remote.value);
        AncestorTransitive(grown, t, remote.value, tip);
      }
    }

    lemma OriginStableUnderGrowth(grown: seq<Commit>)
      requires Valid() && WellFormed(grown) && commits <= grown
      ensures remote.Some? ==> remote.value < |grown| && forall t :: t in remoteTips ==> IsAncestor(grown, t, remote.value)
    {
      if remote.Some? {
        AncestryIsStable(commits, grown, remote.value, remote.value);
        OriginKeptForward(grown, remote.value);
      }
    }

    method StoreCommit(parents: seq<CommitId>, tree: Tree) returns (c: CommitId)
      requires Valid() && TreeShaped(tree) && PlainTree(tree) && forall k :: 0 <= k < |parents| ==> parents[k] < |commits|
      modifies this`commits
      ensures Valid() && c == |old(commits)| && commits == old(commits) + [Commit(parents, tree)]
    {
      c := |commits|;
      ghost var grown := commits + [Commit(parents, tree)];
      OriginStableUnderGrowth(grown);
      commits := commits + [Commit(parents, tree)];
    }

    method OtherPushes()
      requires Valid()
      modifies this`remote, this`remoteTips
      ensures Valid() && HistoryKept()
    {
      var tip: CommitId := *;
      if tip < |commits| && (remote.None? || IsAncestor(commits, remote.value, tip)) {
        OriginKeptForward(commits, tip);
        remote, remoteTips := Some(tip), remoteTips + [tip];
      }
    }

    method OtherMovesBranch()
      requires Valid()
      modifies this`branch, this`branchTips
      ensures Valid() && HistoryKept()
    {
      var tip: CommitId := *;
      if tip < |commits| {
        branch, branchTips := Some(tip), branchTips + [tip];
      }
    }

    /** One step of another writer, here or on another machine. */
    method OtherWriterActs(localRefs: bool)
      requires Valid()
      modifies this`commits, this`remote, this`branch, this`tracking, this`index, this`work,
               this`operationInProgress, this`unmerged, this`remoteTips, this`branchTips
      ensures Valid() && HistoryKept() && OwnRecordKept()
      ensures tracking == old(tracking) || (tracking.Some? && tracking.value in remoteTips)
      ensures !localRefs || quiet ==> branch == old(branch)
      ensures quiet ==> CheckoutKept() && operationInProgress == old(operationInProgress) && unmerged == old(unmerged)
      ensures calm ==> StateKept() && tracking == old(tracking)
    {
      var kind: int := *;
      if calm {
        return;
      }
      if kind == 0 {
        var parents: seq<CommitId>, tree: Tree := *, *;
        if TreeShaped(tree) && PlainTree(tree) && forall k :: 0 <= k < |parents| ==> parents[k] < |commits| {
          var _ := StoreCommit(parents, tree);
        }
      } else if kind == 1 {
        OtherPushes();
      } else if kind == 2 && localRefs && !quiet {
        OtherMovesBranch();
      } else if kind == 3 && !quiet {
        var staged: Index, files: WorkTree := *, *;
        if TreeShaped(staged) && TreeShaped(files) && PlainNames(staged, files) {
          index, work := staged, files;
        }
        operationInProgress, unmerged := *, *;
      } else if kind == 4 {
        tracking := if remote.Some? then remote else tracking;
      }
    }

    /** Any number of steps of other writers. */
    method OthersRun(localRefs: bool)
      requires Valid()
      modifies this`commits, this`remote, this`branch, this`tracking, this`index, this`work,
               this`operationInProgress, this`unmerged, this`remoteTips, this`branchTips
      ensures Valid() && HistoryKept() && OwnRecordKept()
      ensures tracking == old(tracking) || (tracking.Some? && tracking.value in remoteTips)
      ensures !localRefs || quiet ==> branch == old(branch)
      ensures quiet ==> CheckoutKept() && operationInProgress == old(operationInProgress) && unmerged == old(unmerged)
      ensures calm ==> StateKept() && tracking == old(tracking)
    {
      var steps: int := *;
      while steps > 0
        invariant Valid() && HistoryKept() && OwnRecordKept()
        invariant tracking == old(tracking) || (tracking.Some? && tracking.value in remoteTips)
        invariant !localRefs || quiet ==> branch == old(branch)
        invariant quiet ==> CheckoutKept() && operationInProgress == old(operationInProgress) && unmerged == old(unmerged)
        invariant calm ==> StateKept() && tracking == old(tracking)
      {
        OtherWriterActs(localRefs);
        steps := steps - 1;
      }
    }

    /** What the outside world decides for one command: whether it reports failure, and whether it took effect anyway. */
    method Fate() returns (failure: Option<Failure>, tookEffect: bool)
      ensures failure.Some? ==> failure.value.Stop? || failure.value.OtherFailure?
      ensures failure.Some? && failure.value.Stop? ==> failure.value.code in {DeadlineExceeded, IndexLocked, FailedCode}
      ensures failure.None? ==> tookEffect
      ensures calm ==> failure.None?
    {
      var kind: int, effect: bool := *, *;
      failure := if kind == 0 || calm then None else if kind == 1 then Some(OtherFailure)
                 else Some(Stop(if kind == 2 then DeadlineExceeded else if kind == 3 then IndexLocked else FailedCode));
      tookEffect := failure.None? || effect;
    }

    // ---- Reading ----

    method RevParseHead(which: HeadRead) returns (r: Result<CommitId>)
      ensures r.Value? ==> branch == Some(r.value)
      ensures r.Error? ==> r.failure.Stop? || r.failure.OtherFailure?
      ensures r == Error(OtherFailure) && refReadsReliable ==> branch.None?
      ensures r.Error? && r.failure.Stop? ==> r.failure.code in {DeadlineExceeded, IndexLocked, FailedCode}
      ensures calm ==> r == if branch.Some? && ReadWorks(which) then Value(branch.value) else Error(OtherFailure)
    {
      var failure, _ := Fate();
      if failure == Some(OtherFailure) && refReadsReliable {
        failure := None;
      } else if !ReadWorks(which) && calm {
        failure := Some(OtherFailure);
      }
      r := if failure.Some? then Error(failure.value) else if branch.None? then Error(OtherFailure) else Value(branch.value);
    }

    /** ls-remote --exit-code: status 2 when origin has no such branch. */
    method RemoteBranchExists() returns (r: Result<bool>)
      ensures r.Value? ==> r.value == remote.Some?
      ensures calm ==> r.Value?
      ensures r.Error? && r.failure.Stop? ==> r.failure.code in {DeadlineExceeded, IndexLocked, FailedCode}
    {
      var failure, _ := Fate();
      r := if failure.Some? then Error(failure.value) else Value(remote.Some?);
    }

    method MergeBaseIsAncestor(ancestor: CommitId, commit: CommitId) returns (r: Result<bool>)
      requires Valid()
      ensures r.Value? ==> r.value == IsAncestor(commits, ancestor, commit)
      ensures calm ==> r.Value?
      ensures r.Error? && r.failure.Stop? ==> r.failure.code in {DeadlineExceeded, IndexLocked, FailedCode}
    {
      var failure, _ := Fate();
      r := if failure.Some? then Error(failure.value) else Value(IsAncestor(commits, ancestor, commit));
    }

    /** git rev-parse --short, for the last line of the run; only the runner giving up ends it. */
    method ShortHash() returns (stop: Option<Code>)
      ensures stop.Some? ==> stop.value in {DeadlineExceeded, IndexLocked, FailedCode}
      ensures calm ==> stop.None?
    {
      var failure, _ := Fate();
      stop := if failure.Some? && failure.value.Stop? then Some(failure.value.code) else None;
    }

    method TrackingTip() returns (r: Result<CommitId>)
      ensures r.Value? ==> tracking == Some(r.value)
      ensures calm && tracking.Some? ==> r.Value?
      ensures r.Error? && r.failure.Stop? ==> r.failure.code in {DeadlineExceeded, IndexLocked, FailedCode}
    {
      var failure, _ := Fate();
      r := if failure.Some? then Error(failure.value) else if tracking.None? then Error(OtherFailure) else Value(tracking.value);
    }

    static method InAnyOrder(s: set<Path>) returns (r: seq<Path>)
      ensures (forall p :: p in r <==> p in s) && NoneTwice(r)
    {
      var rest := s;
      r := [];
      while rest != {}
        invariant (forall p :: p in s <==> p in rest || p in r) && (forall p :: p in r ==> p !in rest) && NoneTwice(r)
        decreases rest
      {
        var p :| p in rest;
        rest, r := rest - {p}, r + [p];
      }
    }

    /** git status over the scope. */
    method ReadStatus() returns (r: Result<Status>)
      requires Valid()
      ensures r.Value? ==>
                && Describes(r.value, index, work, inScope, ignored) && NoneTwice(r.value.untracked)
                && (forall p :: p in r.value.untracked ==> p in r.value.candidates)
                && (forall p :: p in r.value.deleted ==> p in r.value.candidates && p !in r.value.untracked)
                && (forall p :: p in r.value.candidates && p !in r.value.untracked ==> !EndsWith(p, "/"))
      ensures calm ==> r.Value?
      ensures r.Error? && r.failure.Stop? ==> r.failure.code in {DeadlineExceeded, IndexLocked, FailedCode}
    {
      var failure, _ := Fate();
      if failure.Some? {
        return Error(failure.value);
      }
      var newPaths := set p | p in work && p !in index && inScope(p) && !ignored(p) :: ShownName(work, p);
      var edited := set p | p in index && inScope(p) && EditedOnDisk(index, work, p);
      var untracked := InAnyOrder(newPaths);
      var candidates := InAnyOrder(newPaths + edited);
      var deleted := InAnyOrder(set p | p in index && p !in work && inScope(p));
      var skippedStaged: nat := *;
      forall p | p in index
        ensures p !in newPaths
      {
        if q :| q in work && q !in index && inScope(q) && !ignored(q) && p == ShownName(work, q) {
          assert work[q].NestedRepo? ==> EndsWith(q + "/", "/");
        }
      }
      r := Value(Status(candidates, untracked, deleted, skippedStaged));
    }

    /**
     * git status with each wholly new folder named once: every new file is listed, no folder inside another, and none with a
     * tracked path in it.
     */
    method ReadNewRoots() returns (r: Result<set<Path>>)
      requires Valid()
      ensures r.Value? ==> IsRootListing(r.value)
      ensures calm ==> r.Value?
      ensures r.Error? && r.failure.Stop? ==> r.failure.code in {DeadlineExceeded, IndexLocked, FailedCode}
    {
      var failure, _ := Fate();
      var roots: set<Path> := *;
      if failure.None? && !IsRootListing(roots) {
        roots := set p | p in work && IsNewPath(index, work, inScope, ignored, p);
        NewFilesListThemselves(roots, index, work, inScope, ignored);
      }
      r := if failure.Some? then Error(failure.value) else Value(roots);
    }

    predicate IsRootListing(roots: set<Path>)
      reads this`index, this`work
    {
      NewRootsOf(roots, index) && ListsNewFiles(roots, index, work, inScope, ignored)
    }

    /** The gitlinks of the index in scope; none when the listing fails. */
    method ListGitlinks() returns (r: Result<set<Path>>)
      ensures r.Value? ==> IsGitlinkListing(r.value, index, inScope)
      ensures r.Error? ==> r.failure.Stop? && r.failure.code in {DeadlineExceeded, IndexLocked, FailedCode}
      ensures calm ==> r.Value?
    {
      var failure, _ := Fate();
      if failure.Some? {
        return if failure.value.Stop? then Error(failure.value) else Value({});
      }
      r := Value(set p | p in index && inScope(p) && index[p].Staged? && index[p].entry.Gitlink?);
    }

    // ---- The index and the local branch ----

    /** git add -N. */
    method AddIntentToAdd(added: set<Path>) returns (failure: Option<Failure>)
      requires Valid() && forall p :: p in added ==> !EndsWith(p, "/")
      modifies this`index
      ensures Valid()
      ensures failure.None? ==> added <= old(work).Keys && index == AddIntent(old(index), added)
      ensures failure.Some? ==> failure.value.PathspecMismatch? || failure.value.OtherFailure? || failure.value.Stop?
      ensures failure.Some? && failure.value.Stop? ==> failure.value.code in {DeadlineExceeded, IndexLocked, FailedCode}
      ensures failure.Some? && !failure.value.Stop? && !failure.value.OtherFailure? ==> index == old(index)
    {
      var tookEffect: bool;
      failure, tookEffect := Fate();
      if !(added <= work.Keys) {
        return if failure.Some? then failure else Some(PathspecMismatch);
      }
      if tookEffect {
        AddIntentKeepsTreeShape(index, added, work);
        index := AddIntent(index, added);
      }
    }

    /** git accepts the pathspecs, and the commit would change something. */
    predicate CanCommit(specs: set<Path>)
      requires ValidGraph()
      reads this
    {
      var head := TreeOf(commits, branch);
      CommitAccepts(head, index, work, specs) && CommittedTree(head, index, work, specs) != head
    }

    /** git commit --only with literal pathspecs. */
    method CommitOnly(specs: set<Path>) returns (failure: Option<Failure>)
      requires Valid()
      modifies this`commits, this`branch, this`branchTips, this`index, this`ownMoves
      ensures Valid() && HistoryKept()
      ensures failure.Some? && failure.value.Stop? ==> failure.value.code in {DeadlineExceeded, IndexLocked, FailedCode}
      ensures commits == old(commits) ==> branch == old(branch) && index == old(index) && ownMoves == old(ownMoves)
      ensures commits != old(commits) ==>
                var head := TreeOf(old(commits), old(branch));
                && (failure.Some? ==> failure.value.Stop? || failure.value.OtherFailure?)
                && commits == old(commits)
                     + [Commit(if old(branch).Some? then [old(branch).value] else [], CommittedTree(head, old(index), old(work), specs))]
                && branch == Some(|old(commits)|) && ownMoves == old(ownMoves) + [Move(old(branch), branch)]
                && index == CommittedIndex(head, old(index), old(work), specs)
      ensures failure.None? ==> commits != old(commits)
      ensures failure == Some(NothingToCommit) ==>
                var head := TreeOf(commits, branch); CommittedTree(head, index, work, specs) == head
      ensures calm && old(CanCommit(specs)) ==> failure.None?
    {
      var tookEffect: bool;
      failure, tookEffect := Fate();
      var head := TreeOf(commits, branch);
      if !CommitAccepts(head, index, work, specs) {
        return if failure.Some? then failure else Some(PathspecMismatch);
      }
      var tree := CommittedTree(head, index, work, specs);
      if tree == head {
        return if failure.Some? then failure else Some(NothingToCommit);
      }
      if tookEffect {
        RecordCommit(specs);
      }
    }

    method RecordCommit(specs: set<Path>)
      requires Valid()
      modifies this`commits, this`branch, this`branchTips, this`index, this`ownMoves
      ensures Valid() && old(branchTips) <= branchTips
      ensures commits == old(commits)
                + [Commit(if old(branch).Some? then [old(branch).value] else [],
                          CommittedTree(TreeOf(old(commits), old(branch)), old(index), old(work), specs))]
      ensures branch == Some(|old(commits)|) && ownMoves == old(ownMoves) + [Move(old(branch), branch)]
      ensures index == CommittedIndex(TreeOf(old(commits), old(branch)), old(index), old(work), specs)
    {
      var head := TreeOf(commits, branch);
      CommitKeepsShapes(head, index, work, specs);
      var tree, staged := CommittedTree(head, index, work, specs), CommittedIndex(head, index, work, specs);
      var c := StoreCommit(if branch.Some? then [branch.value] else [], tree);
      ownMoves := ownMoves + [Move(branch, Some(c))];
      branch, branchTips, index := Some(c), branchTips + [c], staged;
    }

    /** git reset -q <commit> with literal pathspecs: the index only. */
    method ResetPaths(commit: CommitId, specs: set<Path>) returns (failure: Option<Failure>)
      requires Valid() && commit < |commits|
      modifies this`index, this`failedUndos
      ensures Valid() && failedUndos == old(failedUndos) + if failure.Some? then 1 else 0
      ensures failure.None? ==> index == ResetIndex(old(index), commits[commit].tree, specs)
      ensures calm ==> failure.None?
      ensures failure.Some? && failure.value.Stop? ==> failure.value.code in {DeadlineExceeded, IndexLocked, FailedCode}
    {
      var tookEffect: bool;
      failure, tookEffect := Fate();
      if tookEffect {
        StagingKeepsTreeShape(commits[commit].tree, index, map[], specs);
        index := ResetIndex(index, commits[commit].tree, specs);
      }
      if failure.Some? {
        failedUndos := failedUndos + 1;
      }
    }

    /** git reset --mixed FETCH_HEAD; the disk is not touched. */
    method ResetMixed(tip: CommitId) returns (failure: Option<Failure>)
      requires Valid() && tip < |commits|
      modifies this`branch, this`branchTips, this`index, this`ownMoves
      ensures Valid() && HistoryKept()
      ensures (branch == Some(tip) && index == AsStaged(commits[tip].tree) && ownMoves == old(ownMoves) + [Move(old(branch), Some(tip))])
              || (branch == old(branch) && index == old(index) && ownMoves == old(ownMoves))
      ensures failure.None? ==> ownMoves == old(ownMoves) + [Move(old(branch), Some(tip))]
      ensures calm ==> failure.None?
      ensures failure.Some? && failure.value.Stop? ==> failure.value.code in {DeadlineExceeded, IndexLocked, FailedCode}
    {
      var tookEffect: bool;
      failure, tookEffect := Fate();
      if tookEffect {
        ownMoves := ownMoves + [Move(branch, Some(tip))];
        branch, branchTips, index := Some(tip), branchTips + [tip], AsStaged(commits[tip].tree);
      }
    }

    /** git update-ref <branch> <after> <before>: refused unless the branch is still at `before`. */
    method UpdateRef(after: CommitId, before: CommitId) returns (failure: Option<Failure>)
      requires Valid() && after < |commits|
      modifies this`branch, this`branchTips, this`ownMoves, this`failedUndos
      ensures Valid() && HistoryKept() && failedUndos == old(failedUndos) + if failure.Some? then 1 else 0
      ensures (old(branch) == Some(before) && branch == Some(after) && ownMoves == old(ownMoves) + [Move(Some(before), Some(after))])
              || (branch == old(branch) && ownMoves == old(ownMoves))
      ensures failure.None? ==> old(branch) == Some(before) && branch == Some(after)
                                && ownMoves == old(ownMoves) + [Move(Some(before), Some(after))]
      ensures calm && old(branch) == Some(before) ==> failure.None?
      ensures failure.Some? && failure.value.Stop? ==> failure.value.code in {DeadlineExceeded, IndexLocked, FailedCode}
    {
      var tookEffect: bool;
      failure, tookEffect := Fate();
      if branch != Some(before) {
        failure := if failure.Some? then failure else Some(OtherFailure);
      } else if tookEffect {
        ownMoves := ownMoves + [Move(branch, Some(after))];
        branch, branchTips := Some(after), branchTips + [after];
      }
      if failure.Some? {
        failedUndos := failedUndos + 1;
      }
    }

    /** git merge --ff-only: refused unless the branch only moves forward and no path it writes has a local edit. */
    method MergeFfOnly(target: CommitId) returns (failure: Option<Failure>)
      requires Valid() && target < |commits|
      modifies this`branch, this`branchTips, this`index, this`work, this`ownMoves
      ensures Valid() && HistoryKept()
      ensures branch == old(branch) ==> index == old(index) && work == old(work) && ownMoves == old(ownMoves)
      ensures branch != old(branch) ==>
                && old(branch).Some? && branch == Some(target) && IsAncestor(commits, old(branch).value, target)
                && ownMoves == old(ownMoves) + [Move(old(branch), branch)]
                && forall p :: !OnDiskAs(old(work), commits[old(branch).value].tree, p) ==> Lookup(work, p) == Lookup(old(work), p)
      ensures failure.None? ==> branch == Some(target)
      ensures failure.Some? && failure.value.Stop? ==> failure.value.code in {DeadlineExceeded, IndexLocked, FailedCode}
    {
      var tookEffect: bool;
      failure, tookEffect := Fate();
      if branch == Some(target) {
        return;
      }
      if branch.None? || !IsAncestor(commits, branch.value, target) {
        return if failure.Some? then failure else Some(OtherFailure);
      }
      var head, tree := commits[branch.value].tree, commits[target].tree;
      var changed := ChangedPaths(head, tree, index);
      if !NoLocalEdits(head, index, work, changed) || !RoomFor(work.Keys + index.Keys, changed, tree) {
        return if failure.Some? then failure else Some(OtherFailure);
      }
      if tookEffect {
        CheckOut(target, changed);
      }
    }

    method CheckOut(target: CommitId, changed: set<Path>)
      requires Valid() && target < |commits| && branch.Some? && branch.value != target && IsAncestor(commits, branch.value, target)
      requires NoLocalEdits(commits[branch.value].tree, index, work, changed)
      requires RoomFor(work.Keys + index.Keys, changed, commits[target].tree)
      modifies this`branch, this`branchTips, this`index, this`work, this`ownMoves
      ensures Valid() && old(branchTips) <= branchTips
      ensures branch == Some(target) && ownMoves == old(ownMoves) + [Move(old(branch), branch)]
      ensures forall p :: !OnDiskAs(old(work), commits[old(branch).value].tree, p) ==> Lookup(work, p) == Lookup(old(work), p)
    {
      var newIndex, newWork := FastForwardFiles(commits[branch.value].tree, commits[target].tree, index, work, changed);
      index, work := newIndex, newWork;
      ownMoves := ownMoves + [Move(branch, Some(target))];
      branch, branchTips := Some(target), branchTips + [target];
    }

    static method FastForwardFiles(head: Tree, tree: Tree, index: Index, work: WorkTree, changed: set<Path>)
      returns (newIndex: Index, newWork: WorkTree)
      requires TreeShaped(tree) && TreeShaped(index) && TreeShaped(work) && PlainTree(tree) && PlainNames(index, work)
      requires NoLocalEdits(head, index, work, changed) && RoomFor(work.Keys + index.Keys, changed, tree)
      ensures newIndex == FastForwarded(index, changed, AsStaged(tree)) && newWork == FastForwarded(work, changed, CheckedOut(tree))
      ensures TreeShaped(newIndex) && TreeShaped(newWork) && PlainNames(newIndex, newWork)
      ensures forall p :: !OnDiskAs(work, head, p) ==> Lookup(newWork, p) == Lookup(work, p)
    {
      FastForwardLeavesEdits(head, index, work, tree, CheckedOut(tree), changed);
      FastForwardKeepsShapes(index, work, changed, AsStaged(tree), CheckedOut(tree));
      newIndex, newWork := FastForwarded(index, changed, AsStaged(tree)), FastForwarded(work, changed, CheckedOut(tree));
    }

    // ---- Origin ----

    /** git fetch with a forced refspec. */
    method Fetch() returns (fetchHead: Result<CommitId>)
      requires Valid()
      modifies this`tracking
      ensures Valid()
      ensures tracking == old(tracking) || tracking == remote
      ensures fetchHead.Value? ==> remote == Some(fetchHead.value) && tracking == remote
      ensures calm && remote.Some? ==> fetchHead.Value?
      ensures fetchHead.Error? && fetchHead.failure.Stop? ==> fetchHead.failure.code in {DeadlineExceeded, IndexLocked, FailedCode}
    {
      var failure, tookEffect := Fate();
      if remote.None? {
        return Error(if failure.Some? then failure.value else OtherFailure);
      }
      if tookEffect {
        tracking := remote;
      }
      fetchHead := if failure.Some? then Error(failure.value) else Value(remote.value);
    }

    /**
     * git push without force: origin takes the commit only when its branch is absent or an ancestor of it. A push can
     * fail after origin took it.
     */
    method Push(commit: CommitId) returns (failure: Option<Failure>)
      requires Valid() && commit < |commits|
      modifies this`remote, this`remoteTips, this`pushAttempts, this`rejectedPushes
      ensures Valid() && HistoryKept()
      ensures pushAttempts == old(pushAttempts) + [commit]
      ensures failure.None? ==> remote == Some(commit) && (old(remote).Some? ==> IsAncestor(commits, old(remote).value, commit))
      ensures failure.Some? && failure.value.RejectedByRace? ==>
                remote == old(remote) && remoteTips == old(remoteTips) && rejectedPushes == old(rejectedPushes) + 1
      ensures !(failure.Some? && failure.value.RejectedByRace?) ==> rejectedPushes == old(rejectedPushes)
      ensures failure.Some? && failure.value.Stop? ==> failure.value.code in {DeadlineExceeded, IndexLocked, FailedCode}
    {
      pushAttempts := pushAttempts + [commit];
      var tookEffect: bool;
      failure, tookEffect := Fate();
      if remote.Some? && !IsAncestor(commits, remote.value, commit) {
        if failure.None? {
          failure, rejectedPushes := Some(RejectedByRace), rejectedPushes + 1;
        }
        return;
      }
      if tookEffect {
        OriginKeptForward(commits, commit);
        remote, remoteTips := Some(commit), remoteTips + [commit];
      }
    }

    // ---- Merging without a work tree ----

    /** The tree git builds when there are several best common ancestors. */
    method SeveralBasesMerged() returns (base: Tree)
    {
      base := *;
    }

    /** git merge-tree --write-tree: status 1 on a conflict. */
    method MergeTree(l: CommitId, r: CommitId) returns (result: Result<Tree>)
      requires Valid() && l < |commits| && r < |commits|
      ensures result.Value? ==> TreeShaped(result.value) && PlainTree(result.value)
      ensures result.Value? ==> exists base: Tree :: MergesTo(commits, mergeFile, l, r, base, result.value)
      ensures result == Error(StatusOne) ==> exists base: Tree :: MergeConflicts(commits, mergeFile, l, r, base)
      ensures result.Error? && result.failure.Stop? ==> result.failure.code in {DeadlineExceeded, IndexLocked, FailedCode}
    {
      var failure, _ := Fate();
      if failure.Some? {
        return Error(failure.value);
      }
      var base := SeveralBasesMerged();
      if b: int :| 0 <= b < |commits| && IsOnlyMergeBase(commits, b, l, r) {
        base := commits[b].tree;
      } else if forall b :: 0 <= b < |commits| ==> !(IsAncestor(commits, b, l) && IsAncestor(commits, b, r)) {
        return Error(Unrelated);
      }
      assert IsBaseTree(commits, base, l, r);
      if MergesCleanly(base, commits[l].tree, commits[r].tree, mergeFile) {
        CleanMergeIsTreeShaped(base, commits[l].tree, commits[r].tree, mergeFile);
        result := Value(MergeTrees(base, commits[l].tree, commits[r].tree, mergeFile));
        assert MergesTo(commits, mergeFile, l, r, base, result.value);
      } else {
        assert MergeConflicts(commits, mergeFile, l, r, base);
        result := Error(StatusOne);
      }
    }

    /** git commit-tree with two parents. */
    method CommitTree(tree: Tree, l: CommitId, r: CommitId) returns (result: Result<CommitId>)
      requires Valid() && TreeShaped(tree) && PlainTree(tree) && l < |commits| && r < |commits|
      modifies this`commits
      ensures Valid() && HistoryKept()
      ensures result.Value? ==> result.value == |old(commits)| && commits == old(commits) + [Commit([l, r], tree)]
      ensures result.Error? && result.failure.Stop? ==> result.failure.code in {DeadlineExceeded, IndexLocked, FailedCode}
    {
      var failure, tookEffect := Fate();
      if failure.Some? {
        return Error(failure.value);
      }
      var c := StoreCommit([l, r], tree);
      result := Value(c);
    }
  }

  lemma CommitKeepsShapes(head: Tree, index: Index, work: WorkTree, specs: set<Path>)
    requires TreeShaped(head) && TreeShaped(index) && TreeShaped(work) && PlainTree(head) && PlainNames(index, work)
    ensures TreeShaped(CommittedTree(head, index, work, specs)) && PlainTree(CommittedTree(head, index, work, specs))
    ensures TreeShaped(CommittedIndex(head, index, work, specs)) && PlainNames(CommittedIndex(head, index, work, specs), work)
  {
    StagingKeepsTreeShape(head, index, work, specs);
    assert CommittedTree(head, index, work, specs).Keys <= head.Keys + index.Keys + work.Keys;
    assert CommittedIndex(head, index, work, specs).Keys <= head.Keys + index.Keys + work.Keys;
  }

  lemma FastForwardKeepsShapes(index: Index, work: WorkTree, changed: set<Path>, staged: Index, files: WorkTree)
    requires TreeShaped(index) && TreeShaped(work) && TreeShaped(staged) && TreeShaped(files)
    requires PlainNames(index, work) && PlainNames(staged, files)
    ensures TreeShaped(FastForwarded(index, changed, staged)) && TreeShaped(FastForwarded(work, changed, files))
    ensures PlainNames(FastForwarded(index, changed, staged), FastForwarded(work, changed, files))
  {
    OverlayTreeShaped(index, map p | p in changed && p in staged :: staged[p], changed);
    OverlayTreeShaped(work, map p | p in changed && p in files :: files[p], changed);
    assert FastForwarded(index, changed, staged).Keys <= index.Keys + staged.Keys;
    assert FastForwarded(work, changed, files).Keys <= work.Keys + files.Keys;
  }

  /** A path whose disk content differs from the branch keeps that content. */
  lemma FastForwardLeavesEdits(head: Tree, index: Index, work: WorkTree, tree: Tree, files: WorkTree, changed: set<Path>)
    requires NoLocalEdits(head, index, work, changed) && RoomFor(work.Keys + index.Keys, changed, tree) && files.Keys == tree.Keys
    ensures forall p :: !OnDiskAs(work, head, p) ==> Lookup(FastForwarded(work, changed, files), p) == Lookup(work, p)
  {
    var update := map p | p in changed && p in files :: files[p];
    forall p | !OnDiskAs(work, head, p)
      ensures Lookup(FastForwarded(work, changed, files), p) == Lookup(work, p)
    {
      OverlayAt(work, update, changed, p);
      assert p !in changed;
      if p in work {
        assert forall u :: u in update ==> !Clash(u, p);
      }
    }
  }
}
