/** Slash-separated paths, and the path-to-entry maps git keeps for trees, the index and the work tree. */
module PathTrees {
  import opened Wrappers

  type Path = string

  /** `path` lies in the folder `folder`. */
  predicate Below(folder: Path, path: Path) {
    folder + "/" <= path
  }

  /** A file and a folder of one name cannot both exist: one of the two paths lies below the other. */
  predicate Clash(p: Path, q: Path) {
    Below(p, q) || Below(q, p)
  }

  /** A literal pathspec matches the path it names and everything below it. */
  predicate PathspecMatches(spec: Path, path: Path) {
    spec == path || Below(spec, path)
  }

  function Lookup<V>(m: map<Path, V>, p: Path): Option<V> {
    if p in m then Some(m[p]) else None
  }

  /** No entry lies below another one, so the map is the set of files of some directory tree. */
  predicate TreeShaped<V>(m: map<Path, V>) {
    forall p, q :: p in m && q in m ==> !Below(p, q)
  }

  lemma BelowTransitive(p: Path, q: Path, r: Path)
    requires Below(p, q) && Below(q, r)
    ensures Below(p, r)
  {
    assert r[..|p| + 1] == q[..|p| + 1];
  }

  /** Two folders that contain one path are nested. */
  lemma FoldersOfOnePathAreNested(p: Path, q: Path, r: Path)
    requires PathspecMatches(p, r) && PathspecMatches(q, r)
    ensures p == q || Below(p, q) || Below(q, p)
  {
    if |p| <= |q| {
      FolderPrefix(p, q, r);
    } else {
      FolderPrefix(q, p, r);
    }
  }

  lemma FolderPrefix(p: Path, q: Path, r: Path)
    requires PathspecMatches(p, r) && PathspecMatches(q, r) && |p| <= |q|
    ensures p == q || Below(p, q)
  {
    assert p == r[..|p|] && q == r[..|q|];
    if |p| < |q| {
      assert p + "/" == r[..|p| + 1] == q[..|p| + 1];
    }
  }

  /**
   * How every git command here edits a tree or an index: the `taken` paths are rewritten to what `update`
   * holds for them, and an entry that could not stand beside a written one gives way to it.
   */
  function Overlay<V>(base: map<Path, V>, update: map<Path, V>, taken: set<Path>): (r: map<Path, V>)
    ensures forall p :: p in update ==> p in r && r[p] == update[p]
    ensures forall p :: p in r ==> p in update || (p in base && r[p] == base[p])
  {
    (map p | p in base && p !in taken && forall u :: u in update ==> !Clash(p, u) :: base[p]) + update
  }

  lemma OverlayAt<V>(base: map<Path, V>, update: map<Path, V>, taken: set<Path>, p: Path)
    requires update.Keys <= taken
    ensures Lookup(Overlay(base, update, taken), p) ==
            if p in taken then Lookup(update, p)
            else if exists u :: u in update && Clash(p, u) then None
            else Lookup(base, p)
  {
  }

  lemma OverlayTreeShaped<V>(base: map<Path, V>, update: map<Path, V>, taken: set<Path>)
    requires TreeShaped(base) && TreeShaped(update)
    requires update.Keys <= taken
    ensures TreeShaped(Overlay(base, update, taken))
  {
    var r := Overlay(base, update, taken);
    forall p, q | p in r && q in r
      ensures !Below(p, q)
    {
      if p in update && q !in update {
        assert !Clash(q, p);
      } else if p !in update && q in update {
        assert !Clash(p, q);
      }
    }
  }
}
