/**
 * The three git commands the sync edits the index with: `add -N`, `commit --only` and a path-limited `reset`,
 * each given literal pathspecs. What they do to the paths nobody named is the point of this module.
 */
module Staging {
  import opened Wrappers
  import opened PathTrees
  import opened CommitGraph

  datatype Entry = Staged(entry: Object) | IntentToAdd

  type Index = map<Path, Entry>

  /** A file on disk, or a folder holding a repository of its own. */
  datatype WorkFile = Regular(blob: Blob, size: nat) | NestedRepo(tip: nat)

  type WorkTree = map<Path, WorkFile>

  function AsObject(file: WorkFile): Object {
    match file
    case Regular(blob, _) => File(blob)
    case NestedRepo(tip) => Gitlink(tip)
  }

  function ObjectAt(work: WorkTree, p: Path): Option<Object> {
    if p in work then Some(AsObject(work[p])) else None
  }

  function StagedAt(tree: Tree, p: Path): Option<Entry> {
    if p in tree then Some(Staged(tree[p])) else None
  }

  /** `p` is a folder on disk. */
  predicate IsFolder(work: WorkTree, p: Path) {
    exists q :: q in work && Below(p, q)
  }

  predicate Matched(specs: set<Path>, p: Path) {
    exists s :: s in specs && PathspecMatches(s, p)
  }

  function MatchedPaths(specs: set<Path>, index: Index, tree: Tree): set<Path> {
    set p | p in index.Keys + tree.Keys && Matched(specs, p)
  }

  /** git add -N. */
  function AddIntent(index: Index, added: set<Path>): Index {
    var unknown := added - index.Keys;
    Overlay(index, map p | p in unknown :: IntentToAdd, unknown)
  }

  /** git commit refuses a pathspec that matches nothing tracked, and a tracked path that is now a plain folder. */
  predicate CommitAccepts(head: Tree, index: Index, work: WorkTree, specs: set<Path>) {
    && (forall s :: s in specs ==> exists p :: p in index.Keys + head.Keys && PathspecMatches(s, p))
    && (forall p :: p in MatchedPaths(specs, index, head) ==> p in work || !IsFolder(work, p))
  }

  /** The work tree's content for the matched paths that exist on disk. */
  function CommitUpdate(head: Tree, index: Index, work: WorkTree, specs: set<Path>): Tree {
    map p | p in MatchedPaths(specs, index, head) && p in work :: AsObject(work[p])
  }

  function AsStaged(tree: Tree): Index {
    map p | p in tree :: Staged(tree[p])
  }

  /** The tree of the commit that git commit --only makes. */
  function CommittedTree(head: Tree, index: Index, work: WorkTree, specs: set<Path>): Tree {
    Overlay(head, CommitUpdate(head, index, work, specs), MatchedPaths(specs, index, head))
  }

  /** The index git commit --only leaves behind. */
  function CommittedIndex(head: Tree, index: Index, work: WorkTree, specs: set<Path>): Index {
    Overlay(index, AsStaged(CommitUpdate(head, index, work, specs)), MatchedPaths(specs, index, head))
  }

  function ResetUpdate(index: Index, tree: Tree, specs: set<Path>): Index {
    map p | p in MatchedPaths(specs, index, tree) && p in tree :: Staged(tree[p])
  }

  /** git reset <tree> -- <specs>. */
  function ResetIndex(index: Index, tree: Tree, specs: set<Path>): Index {
    Overlay(index, ResetUpdate(index, tree, specs), MatchedPaths(specs, index, tree))
  }

  lemma StagingKeepsTreeShape(head: Tree, index: Index, work: WorkTree, specs: set<Path>)
    requires TreeShaped(head) && TreeShaped(index) && TreeShaped(work)
    ensures TreeShaped(CommittedTree(head, index, work, specs)) && TreeShaped(CommittedIndex(head, index, work, specs))
    ensures TreeShaped(ResetIndex(index, head, specs))
  {
    var update, taken := CommitUpdate(head, index, work, specs), MatchedPaths(specs, index, head);
    OverlayTreeShaped(head, update, taken);
    OverlayTreeShaped(index, AsStaged(update), taken);
    OverlayTreeShaped(index, ResetUpdate(index, head, specs), taken);
  }

  lemma AddIntentKeepsTreeShape(index: Index, added: set<Path>, work: WorkTree)
    requires TreeShaped(index) && TreeShaped(work) && added <= work.Keys
    ensures TreeShaped(AddIntent(index, added))
  {
    var unknown := added - index.Keys;
    OverlayTreeShaped(index, map p | p in unknown :: IntentToAdd, unknown);
  }

  /**
   * The candidates of a sync: a file on disk, or a tracked path that is gone from disk. `added` are the ones not yet
   * tracked.
   */
  ghost predicate IsCommitPlan(index: Index, work: WorkTree, candidates: set<Path>, added: set<Path>) {
    && added <= candidates && added !! index.Keys
    && (forall c :: c in candidates ==>
          || (c in work && work[c].Regular? && c in index.Keys + added)
          || (c in index && c !in work && !IsFolder(work, c)))
  }

  /** A candidate stands at `p`'s place: below it on disk, or above it. */
  ghost predicate GivesWay(work: WorkTree, candidates: set<Path>, p: Path) {
    exists c :: c in candidates && (Below(c, p) || (c in work && Below(p, c)))
  }

  lemma NothingOnDiskBelowCandidates(index: Index, work: WorkTree, candidates: set<Path>, added: set<Path>, p: Path)
    requires TreeShaped(work) && IsCommitPlan(index, work, candidates, added)
    requires Matched(candidates, p) && p in work
    ensures p in candidates
  {
    var c :| c in candidates && PathspecMatches(c, p);
    if c != p {
      assert Below(c, p);
      assert c !in work;
      assert IsFolder(work, c);
    }
  }

  /** The update of a commit writes exactly the candidates that exist on disk. */
  lemma CommitWritesCandidatesOnDisk(head: Tree, index: Index, work: WorkTree, candidates: set<Path>, added: set<Path>)
    requires TreeShaped(work) && IsCommitPlan(index, work, candidates, added)
    ensures CommitUpdate(head, AddIntent(index, added), work, candidates).Keys == candidates * work.Keys
  {
    var marked := AddIntent(index, added);
    var update := CommitUpdate(head, marked, work, candidates);
    forall p | p in update
      ensures p in candidates
    {
      NothingOnDiskBelowCandidates(index, work, candidates, added, p);
    }
    forall c | c in candidates && c in work
      ensures c in update
    {
      assert Matched(candidates, c) by { assert PathspecMatches(c, c); }
      if c in index {
        forall u | u in added
          ensures !Clash(c, u)
        {
          assert u in work;
        }
        assert c in marked;
      }
    }
  }

  /**
   * What the commit holds at every path: the work tree's content at a candidate, nothing where a candidate stands
   * above it or below it, and the old commit's content everywhere else. No other path gets new content.
   */
  lemma CommitTakesExactlyTheCandidates(head: Tree, index: Index, work: WorkTree, candidates: set<Path>, added: set<Path>, p: Path)
    requires TreeShaped(work) && IsCommitPlan(index, work, candidates, added)
    ensures var tree := CommittedTree(head, AddIntent(index, added), work, candidates);
            Lookup(tree, p) == if p in candidates then ObjectAt(work, p)
                               else if GivesWay(work, candidates, p) then None
                               else Lookup(head, p)
  {
    var marked := AddIntent(index, added);
    var update, taken := CommitUpdate(head, marked, work, candidates), MatchedPaths(candidates, marked, head);
    CommitWritesCandidatesOnDisk(head, index, work, candidates, added);
    OverlayAt(head, update, taken, p);
    if p in candidates {
      if p !in taken {
        assert Matched(candidates, p) by { assert PathspecMatches(p, p); }
        assert p !in head;
      }
    } else {
      if p in taken {
        var c :| c in candidates && PathspecMatches(c, p);
        assert GivesWay(work, candidates, p);
      } else if c :| c in candidates && (Below(c, p) || (c in work && Below(p, c))) {
        assert p in head ==> Clash(p, c) && c in update by {
          if Below(c, p) { assert Matched(candidates, p); }
        }
      }
    }
  }

  lemma IntentAt(index: Index, added: set<Path>, p: Path)
    requires added !! index.Keys
    ensures Lookup(AddIntent(index, added), p) ==
            if p in added then Some(IntentToAdd) else if exists u :: u in added && Clash(p, u) then None else Lookup(index, p)
  {
    assert added - index.Keys == added;
    OverlayAt(index, map q | q in added :: IntentToAdd, added, p);
  }

  lemma GivesWayByClash(work: WorkTree, candidates: set<Path>, p: Path)
    requires !Matched(candidates, p)
    ensures GivesWay(work, candidates, p) <==> exists u :: u in candidates && u in work && Clash(p, u)
  {
    assert forall c :: c in candidates ==> !PathspecMatches(c, p);
  }

  /** The same for the index the commit leaves: the candidates' new content, and everything else as it was staged. */
  lemma CommitStagesExactlyTheCandidates(head: Tree, index: Index, work: WorkTree, candidates: set<Path>, added: set<Path>, p: Path)
    requires TreeShaped(index) && TreeShaped(work) && IsCommitPlan(index, work, candidates, added)
    ensures var after := CommittedIndex(head, AddIntent(index, added), work, candidates);
            Lookup(after, p) == if p in candidates then (if p in work then Some(Staged(AsObject(work[p]))) else None)
                                else if GivesWay(work, candidates, p) then None
                                else Lookup(index, p)
  {
    var marked := AddIntent(index, added);
    var update, taken := CommitUpdate(head, marked, work, candidates), MatchedPaths(candidates, marked, head);
    CommitWritesCandidatesOnDisk(head, index, work, candidates, added);
    IntentAt(index, added, p);
    OverlayAt(marked, AsStaged(update), taken, p);
    if p in candidates {
      assert Matched(candidates, p) by { assert PathspecMatches(p, p); }
    } else if Matched(candidates, p) {
      var c :| c in candidates && PathspecMatches(c, p);
      assert GivesWay(work, candidates, p);
    } else {
      GivesWayByClash(work, candidates, p);
      assert GivesWay(work, candidates, p) <==> exists u :: u in update && Clash(p, u);
      if u :| u in added && Clash(p, u) {
        assert u in update;
      }
    }
  }

  /** An entry someone staged and did not touch since: the index differs from the commit, the disk agrees with the index. */
  predicate StagedOnly(head: Tree, index: Index, work: WorkTree, p: Path) {
    && Lookup(index, p) != StagedAt(head, p)
    && (if p in index then ObjectAt(work, p).Some? && index[p] == Staged(ObjectAt(work, p).value) else p !in work)
  }

  lemma NothingGivesWayOnDisk(index: Index, work: WorkTree, candidates: set<Path>, added: set<Path>, p: Path)
    requires TreeShaped(work) && IsCommitPlan(index, work, candidates, added)
    requires p in work
    ensures !GivesWay(work, candidates, p)
  {
    assert forall c :: Below(c, p) ==> IsFolder(work, c);
  }

  /** Staged content stays staged and stays out of the commit, whatever the sync takes. */
  lemma StagedContentIsLeftAlone(head: Tree, index: Index, work: WorkTree, candidates: set<Path>, added: set<Path>, p: Path)
    requires TreeShaped(index) && TreeShaped(work) && IsCommitPlan(index, work, candidates, added)
    requires StagedOnly(head, index, work, p) && p in index && p !in candidates
    ensures Lookup(CommittedTree(head, AddIntent(index, added), work, candidates), p) == Lookup(head, p)
    ensures Lookup(CommittedIndex(head, AddIntent(index, added), work, candidates), p) == Lookup(index, p)
  {
    CommitTakesExactlyTheCandidates(head, index, work, candidates, added, p);
    CommitStagesExactlyTheCandidates(head, index, work, candidates, added, p);
    NothingGivesWayOnDisk(index, work, candidates, added, p);
  }

  /** A staged deletion stays out of the commit exactly when no candidate stands at its place. */
  lemma StagedDeletionIsLeftAlone(head: Tree, index: Index, work: WorkTree, candidates: set<Path>, added: set<Path>, p: Path)
    requires TreeShaped(work) && IsCommitPlan(index, work, candidates, added)
    requires StagedOnly(head, index, work, p) && p !in index
    ensures Lookup(CommittedTree(head, AddIntent(index, added), work, candidates), p) == Lookup(head, p)
            <==> !GivesWay(work, candidates, p)
  {
    CommitTakesExactlyTheCandidates(head, index, work, candidates, added, p);
    assert p in head && p !in candidates;
  }

  /** The staged deletion of a file whose name is now a folder is committed with the new file in that folder. */
  lemma StagedDeletionTakenWithItsFolder()
    ensures var head, index, work := map["a" := File(1)], map[], map["a/b" := Regular(2, 1)];
            && IsCommitPlan(index, work, {"a/b"}, {"a/b"}) && StagedOnly(head, index, work, "a")
            && CommittedTree(head, AddIntent(index, {"a/b"}), work, {"a/b"}) == map["a/b" := File(2)]
  {
    var head: Tree, index: Index, work: WorkTree := map["a" := File(1)], map[], map["a/b" := Regular(2, 1)];
    var tree := CommittedTree(head, AddIntent(index, {"a/b"}), work, {"a/b"});
    assert TreeShaped(work);
    assert Below("a", "a/b");
    forall p
      ensures Lookup(tree, p) == if p == "a/b" then Some(File(2)) else None
    {
      CommitTakesExactlyTheCandidates(head, index, work, {"a/b"}, {"a/b"}, p);
      assert p == "a" ==> GivesWay(work, {"a/b"}, p);
    }
    assert Lookup(tree, "a/b") == Some(File(2));
    assert tree.Keys == {"a/b"} by {
      forall p ensures p in tree <==> p == "a/b" { assert Lookup(tree, p).Some? <==> p in tree; }
    }
  }

  /** The index once the run has committed its candidates and then taken the commit back with a path-limited reset. */
  function UndoneIndex(head: Tree, index: Index, work: WorkTree, candidates: set<Path>, added: set<Path>): Index {
    ResetIndex(CommittedIndex(head, AddIntent(index, added), work, candidates), head, candidates)
  }

  /** A tracked path that is now a folder on disk with a committed file in it. */
  ghost predicate ReplacedByFolder(work: WorkTree, candidates: set<Path>, p: Path) {
    exists c :: c in candidates && c in work && Below(p, c)
  }

  lemma ReplacedByResetIsReplacedOnDisk(head: Tree, index: Index, work: WorkTree, candidates: set<Path>, added: set<Path>, p: Path, u: Path)
    requires TreeShaped(index) && IsCommitPlan(index, work, candidates, added)
    requires !Matched(candidates, p) && p in index && Matched(candidates, u) && Clash(p, u)
    ensures ReplacedByFolder(work, candidates, p)
  {
    var c :| c in candidates && PathspecMatches(c, u);
    assert !PathspecMatches(c, p);
    if Below(u, p) {
      if c != u { BelowTransitive(c, u, p); }
    } else {
      FoldersOfOnePathAreNested(p, c, u);
    }
    assert Below(p, c);
  }

  /** What an undone run leaves in the index at every path. */
  lemma UndoRestoresAt(head: Tree, index: Index, work: WorkTree, candidates: set<Path>, added: set<Path>, p: Path)
    requires TreeShaped(index) && TreeShaped(work) && IsCommitPlan(index, work, candidates, added)
    ensures Lookup(UndoneIndex(head, index, work, candidates, added), p) ==
            if Matched(candidates, p) then StagedAt(head, p)
            else if ReplacedByFolder(work, candidates, p) then None
            else Lookup(index, p)
  {
    var after := CommittedIndex(head, AddIntent(index, added), work, candidates);
    var update, taken := ResetUpdate(after, head, candidates), MatchedPaths(candidates, after, head);
    OverlayAt(after, update, taken, p);
    CommitStagesExactlyTheCandidates(head, index, work, candidates, added, p);
    if !Matched(candidates, p) {
      assert p !in candidates by { if p in candidates { assert PathspecMatches(p, p); } }
      GivesWayByClash(work, candidates, p);
      assert GivesWay(work, candidates, p) <==> ReplacedByFolder(work, candidates, p) by {
        assert forall c :: c in candidates ==> !PathspecMatches(c, p);
      }
      if u :| u in update && Clash(p, u) && p in index {
        ReplacedByResetIsReplacedOnDisk(head, index, work, candidates, added, p, u);
      }
    }
  }

  /** An undone run leaves the index as it found it exactly when no committed path was also staged and none took a tracked file's place. */
  lemma UndoRestoresIndexExactlyWhen(head: Tree, index: Index, work: WorkTree, candidates: set<Path>, added: set<Path>)
    requires TreeShaped(index) && TreeShaped(work) && IsCommitPlan(index, work, candidates, added)
    ensures UndoneIndex(head, index, work, candidates, added) == index <==>
            && (forall p :: Matched(candidates, p) ==> Lookup(index, p) == StagedAt(head, p))
            && (forall p :: p in index && !Matched(candidates, p) ==> !ReplacedByFolder(work, candidates, p))
  {
    forall p
      ensures Lookup(UndoneIndex(head, index, work, candidates, added), p) ==
              if Matched(candidates, p) then StagedAt(head, p)
              else if ReplacedByFolder(work, candidates, p) then None
              else Lookup(index, p)
    {
      UndoRestoresAt(head, index, work, candidates, added, p);
    }
    RestoredExactlyWhen(UndoneIndex(head, index, work, candidates, added), head, index, work, candidates);
  }

  lemma RestoredExactlyWhen(undone: Index, head: Tree, index: Index, work: WorkTree, candidates: set<Path>)
    requires forall p :: Lookup(undone, p) == if Matched(candidates, p) then StagedAt(head, p)
                                              else if ReplacedByFolder(work, candidates, p) then None
                                              else Lookup(index, p)
    ensures undone == index <==>
            && (forall p :: Matched(candidates, p) ==> Lookup(index, p) == StagedAt(head, p))
            && (forall p :: p in index && !Matched(candidates, p) ==> !ReplacedByFolder(work, candidates, p))
  {
    SameEntriesSameMap(undone, index);
    if undone == index {
      forall p | p in index && !Matched(candidates, p)
        ensures !ReplacedByFolder(work, candidates, p)
      {
        assert Lookup(undone, p).Some?;
      }
    }
  }

  lemma SameEntriesSameMap<V>(m: map<Path, V>, n: map<Path, V>)
    ensures m == n <==> forall p :: Lookup(m, p) == Lookup(n, p)
  {
    if forall p :: Lookup(m, p) == Lookup(n, p) {
      assert forall p :: Lookup(m, p).Some? <==> Lookup(n, p).Some?;
      assert forall p :: p in m <==> Lookup(m, p).Some?;
      assert forall p :: p in n <==> Lookup(n, p).Some?;
      assert m.Keys == n.Keys;
      assert forall p :: p in m ==> Lookup(m, p) == Some(m[p]);
      assert forall p :: p in m ==> Lookup(n, p) == Some(n[p]);
    }
  }

  /** A tracked file whose name is now a folder is no committed path, yet an undone run drops it from the index. */
  lemma UndoDropsFileReplacedByFolder()
    ensures var head, index, work := map["a" := File(1)], map["a" := Staged(File(1))], map["a/b" := Regular(2, 1)];
            && IsCommitPlan(index, work, {"a/b"}, {"a/b"}) && !Matched({"a/b"}, "a")
            && "a" !in UndoneIndex(head, index, work, {"a/b"}, {"a/b"})
  {
    var head: Tree, index: Index, work: WorkTree :=
      map["a" := File(1)], map["a" := Staged(File(1))], map["a/b" := Regular(2, 1)];
    assert Below("a", "a/b") && !PathspecMatches("a/b", "a");
    assert ReplacedByFolder(work, {"a/b"}, "a");
    UndoRestoresAt(head, index, work, {"a/b"}, {"a/b"}, "a");
  }

  /**
   * Even when files changed after the plan was made, a commit takes new content only at a path the pathspecs match,
   * and then it is what is on disk at that moment.
   */
  lemma CommitTouchesOnlyMatchedPaths(head: Tree, index: Index, work: WorkTree, specs: set<Path>, p: Path)
    ensures var tree := CommittedTree(head, index, work, specs);
            p in tree && Lookup(tree, p) != Lookup(head, p) ==> Matched(specs, p) && Lookup(tree, p) == ObjectAt(work, p)
  {
    OverlayAt(head, CommitUpdate(head, index, work, specs), MatchedPaths(specs, index, head), p);
  }

  /** Marking new files in two goes marks them all. */
  lemma IntentTwice(index: Index, work: WorkTree, earlier: set<Path>, later: set<Path>)
    requires TreeShaped(work) && earlier + later <= work.Keys
    requires earlier !! index.Keys && later !! AddIntent(index, earlier).Keys
    ensures later !! index.Keys
    ensures AddIntent(AddIntent(index, earlier), later) == AddIntent(index, earlier + later)
  {
    forall u | u in later
      ensures u !in index
    {
      IntentAt(index, earlier, u);
    }
    var once, twice := AddIntent(index, earlier + later), AddIntent(AddIntent(index, earlier), later);
    forall p
      ensures Lookup(once, p) == Lookup(twice, p)
    {
      IntentAt(index, earlier, p);
      IntentAt(AddIntent(index, earlier), later, p);
      IntentAt(index, earlier + later, p);
      assert p in earlier ==> !exists u :: u in later && Clash(p, u);
    }
    SameEntriesSameMap(once, twice);
  }

  /** A plan made on an index that already carries marks is a plan on the index before them. */
  lemma PlanOnMarkedIndex(index: Index, work: WorkTree, marked: set<Path>, candidates: set<Path>, added: set<Path>)
    requires TreeShaped(work) && marked <= work.Keys && marked !! index.Keys && marked <= candidates
    requires IsCommitPlan(AddIntent(index, marked), work, candidates, added) && added <= work.Keys
    ensures IsCommitPlan(index, work, candidates, marked + added)
    ensures AddIntent(AddIntent(index, marked), added) == AddIntent(index, marked + added)
  {
    IntentTwice(index, work, marked, added);
    forall c | c in candidates
      ensures || (c in work && work[c].Regular? && c in index.Keys + marked + added)
              || (c in index && c !in work && !IsFolder(work, c))
    {
      IntentAt(index, marked, c);
    }
  }
}
