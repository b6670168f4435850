/** git merge-tree: the three-way merge of two trees, path by path, with no index and no work tree. */
module TreeMerge {
  import opened Wrappers
  import opened PathTrees
  import opened CommitGraph

  /** git's line merge of one file changed on both sides; None when it finds a conflict. */
  type FileMerge = (Option<Object>, Blob, Blob) -> Option<Blob>

  datatype Merged = Clean(entry: Option<Object>) | Conflict

  function MergePath(base: Option<Object>, ours: Option<Object>, theirs: Option<Object>, mergeFile: FileMerge): Merged {
    if ours == theirs || base == theirs then Clean(ours)
    else if base == ours then Clean(theirs)
    else if ours.Some? && theirs.Some? && ours.value.File? && theirs.value.File? then
      match mergeFile(base, ours.value.blob, theirs.value.blob)
      case Some(blob) => Clean(Some(File(blob)))
      case None => Conflict
    else Conflict
  }

  function MergeAt(base: Tree, ours: Tree, theirs: Tree, mergeFile: FileMerge, p: Path): Merged {
    MergePath(Lookup(base, p), Lookup(ours, p), Lookup(theirs, p), mergeFile)
  }

  /** The merged tree; meaningful when nothing conflicts. */
  function MergeTrees(base: Tree, ours: Tree, theirs: Tree, mergeFile: FileMerge): Tree {
    map p | p in ours.Keys + theirs.Keys
            && var m := MergeAt(base, ours, theirs, mergeFile, p); m.Clean? && m.entry.Some?
         :: MergeAt(base, ours, theirs, mergeFile, p).entry.value
  }

  /** The files a conflicted merge lists: contents that did not merge, and a file where the other side made a folder. */
  function Conflicts(base: Tree, ours: Tree, theirs: Tree, mergeFile: FileMerge): set<Path> {
    var merged := MergeTrees(base, ours, theirs, mergeFile);
    (set p | p in base.Keys + ours.Keys + theirs.Keys && MergeAt(base, ours, theirs, mergeFile, p).Conflict?)
    + (set p, q | p in merged && q in merged && Clash(p, q) :: p)
  }

  predicate MergesCleanly(base: Tree, ours: Tree, theirs: Tree, mergeFile: FileMerge) {
    Conflicts(base, ours, theirs, mergeFile) == {}
  }

  /** `p` was changed by the two sides, and not to the same content. */
  predicate ChangedDifferently(base: Tree, ours: Tree, theirs: Tree, p: Path) {
    Lookup(ours, p) != Lookup(base, p) && Lookup(theirs, p) != Lookup(base, p) && Lookup(ours, p) != Lookup(theirs, p)
  }

  lemma CleanMergeAt(base: Tree, ours: Tree, theirs: Tree, mergeFile: FileMerge, p: Path)
    requires MergesCleanly(base, ours, theirs, mergeFile)
    ensures MergeAt(base, ours, theirs, mergeFile, p) == Clean(Lookup(MergeTrees(base, ours, theirs, mergeFile), p))
  {
    if p in base.Keys + ours.Keys + theirs.Keys {
      assert p !in Conflicts(base, ours, theirs, mergeFile);
    }
  }

  /**
   * `merged` holds at `p` what both sides ask for: a change only one side made keeps that side's content, a change both made
   * alike is kept, and a path they changed differently holds the line merge of two files.
   */
  ghost predicate KeepsEverySide(base: Tree, ours: Tree, theirs: Tree, merged: Option<Object>, mergeFile: FileMerge, p: Path) {
    && (Lookup(theirs, p) == Lookup(base, p) ==> merged == Lookup(ours, p))
    && (Lookup(ours, p) == Lookup(base, p) ==> merged == Lookup(theirs, p))
    && (Lookup(ours, p) == Lookup(theirs, p) ==> merged == Lookup(ours, p))
    && (ChangedDifferently(base, ours, theirs, p) ==>
          exists x, y, z :: Lookup(ours, p) == Some(File(x)) && Lookup(theirs, p) == Some(File(y))
            && mergeFile(Lookup(base, p), x, y) == Some(z) && merged == Some(File(z)))
  }

  lemma CleanMergeKeepsEverySide(base: Tree, ours: Tree, theirs: Tree, mergeFile: FileMerge, p: Path)
    requires MergesCleanly(base, ours, theirs, mergeFile)
    ensures KeepsEverySide(base, ours, theirs, Lookup(MergeTrees(base, ours, theirs, mergeFile), p), mergeFile, p)
  {
    CleanMergeAt(base, ours, theirs, mergeFile, p);
    if ChangedDifferently(base, ours, theirs, p) {
      var x, y := ours[p].blob, theirs[p].blob;
      assert Lookup(ours, p) == Some(File(x)) && Lookup(theirs, p) == Some(File(y));
    }
  }

  /** Both sides hold a file at `p`, and the two merge line by line. */
  ghost predicate LineMerges(base: Tree, ours: Tree, theirs: Tree, mergeFile: FileMerge, p: Path) {
    exists x, y :: Lookup(ours, p) == Some(File(x)) && Lookup(theirs, p) == Some(File(y)) && mergeFile(Lookup(base, p), x, y).Some?
  }

  /** What happens at one path: a conflict is a path changed differently whose contents do not merge. */
  lemma ConflictAtExactlyWhen(base: Tree, ours: Tree, theirs: Tree, mergeFile: FileMerge, p: Path)
    ensures MergeAt(base, ours, theirs, mergeFile, p).Conflict? <==>
            ChangedDifferently(base, ours, theirs, p) && !LineMerges(base, ours, theirs, mergeFile, p)
  {
    if ChangedDifferently(base, ours, theirs, p) && p in ours && p in theirs && ours[p].File? && theirs[p].File? {
      assert Lookup(ours, p) == Some(File(ours[p].blob)) && Lookup(theirs, p) == Some(File(theirs[p].blob));
    }
  }

  /** A merge conflicts exactly when some path was changed differently without a line merge, or a file met a folder. */
  lemma ConflictsExactly(base: Tree, ours: Tree, theirs: Tree, mergeFile: FileMerge)
    ensures !MergesCleanly(base, ours, theirs, mergeFile) <==>
            || (exists p :: ChangedDifferently(base, ours, theirs, p) && !LineMerges(base, ours, theirs, mergeFile, p))
            || (exists p, q :: p in MergeTrees(base, ours, theirs, mergeFile) && q in MergeTrees(base, ours, theirs, mergeFile)
                               && Below(p, q))
  {
    var merged := MergeTrees(base, ours, theirs, mergeFile);
    var conflicts := Conflicts(base, ours, theirs, mergeFile);
    if conflicts != {} {
      var p :| p in conflicts;
      if !MergeAt(base, ours, theirs, mergeFile, p).Conflict? {
        var q :| p in merged && q in merged && Clash(p, q);
        assert Below(p, q) || Below(q, p);
      } else {
        ConflictAtExactlyWhen(base, ours, theirs, mergeFile, p);
      }
    }
    if p :| ChangedDifferently(base, ours, theirs, p) && !LineMerges(base, ours, theirs, mergeFile, p) {
      ConflictAtExactlyWhen(base, ours, theirs, mergeFile, p);
      assert p in conflicts;
    }
    if p, q :| p in merged && q in merged && Below(p, q) {
      assert Clash(p, q);
      assert p in conflicts;
    }
  }

  lemma CleanMergeIsTreeShaped(base: Tree, ours: Tree, theirs: Tree, mergeFile: FileMerge)
    requires MergesCleanly(base, ours, theirs, mergeFile)
    ensures TreeShaped(MergeTrees(base, ours, theirs, mergeFile))
  {
    ConflictsExactly(base, ours, theirs, mergeFile);
  }

  /** Merging a side that changed nothing takes the other side whole. */
  lemma UnchangedSideTakesTheOther(base: Tree, other: Tree, mergeFile: FileMerge)
    requires TreeShaped(other)
    ensures MergesCleanly(base, base, other, mergeFile) && MergeTrees(base, base, other, mergeFile) == other
    ensures MergesCleanly(base, other, base, mergeFile) && MergeTrees(base, other, base, mergeFile) == other
  {
    forall p
      ensures MergeAt(base, base, other, mergeFile, p) == Clean(Lookup(other, p))
      ensures MergeAt(base, other, base, mergeFile, p) == Clean(Lookup(other, p))
    {
    }
    assert MergeTrees(base, base, other, mergeFile) == other;
    assert MergeTrees(base, other, base, mergeFile) == other;
    ConflictsExactly(base, base, other, mergeFile);
    ConflictsExactly(base, other, base, mergeFile);
  }

  /** With a line merge that ignores the order of its sides, neither does the tree merge depend on it. */
  lemma MergeIsSymmetric(base: Tree, ours: Tree, theirs: Tree, mergeFile: FileMerge)
    requires forall b, x, y :: mergeFile(b, x, y) == mergeFile(b, y, x)
    ensures MergeTrees(base, ours, theirs, mergeFile) == MergeTrees(base, theirs, ours, mergeFile)
    ensures Conflicts(base, ours, theirs, mergeFile) == Conflicts(base, theirs, ours, mergeFile)
  {
    forall p
      ensures MergeAt(base, ours, theirs, mergeFile, p) == MergeAt(base, theirs, ours, mergeFile, p)
    {
    }
    assert MergeTrees(base, ours, theirs, mergeFile) == MergeTrees(base, theirs, ours, mergeFile);
  }
}
