/** The commit graph: an append-only sequence whose commits name older commits as parents. */
module CommitGraph {
  import opened PathTrees

  type CommitId = nat
  type Blob = nat

  /** What a tree holds at a path: a file's content, or a pointer to a commit of another repository. */
  datatype Object = File(blob: Blob) | Gitlink(pointer: nat)

  type Tree = map<Path, Object>

  datatype Commit = Commit(parents: seq<CommitId>, tree: Tree)

  predicate WellFormed(graph: seq<Commit>) {
    forall c :: 0 <= c < |graph| ==>
      TreeShaped(graph[c].tree) && forall k :: 0 <= k < |graph[c].parents| ==> graph[c].parents[k] < c
  }

  /** `ancestor` can be reached from `commit` by following parents, itself included. */
  predicate IsAncestor(graph: seq<Commit>, ancestor: CommitId, commit: CommitId)
    requires WellFormed(graph)
    decreases commit
  {
    && commit < |graph|
    && (ancestor == commit ||
        exists k :: 0 <= k < |graph[commit].parents| && IsAncestor(graph, ancestor, graph[commit].parents[k]))
  }

  lemma {:induction false} AncestorsAreOlder(graph: seq<Commit>, a: CommitId, c: CommitId)
    requires WellFormed(graph) && IsAncestor(graph, a, c)
    ensures a <= c < |graph|
    decreases c
  {
    if a != c {
      var k :| 0 <= k < |graph[c].parents| && IsAncestor(graph, a, graph[c].parents[k]);
      AncestorsAreOlder(graph, a, graph[c].parents[k]);
    }
  }

  lemma {:induction false} AncestorTransitive(graph: seq<Commit>, a: CommitId, b: CommitId, c: CommitId)
    requires WellFormed(graph) && IsAncestor(graph, a, b) && IsAncestor(graph, b, c)
    ensures IsAncestor(graph, a, c)
    decreases c
  {
    if b != c {
      var k :| 0 <= k < |graph[c].parents| && IsAncestor(graph, b, graph[c].parents[k]);
      AncestorTransitive(graph, a, b, graph[c].parents[k]);
    }
  }

  /** New commits never change which older commits reach which. */
  lemma {:induction false} AncestryIsStable(graph: seq<Commit>, grown: seq<Commit>, a: CommitId, c: CommitId)
    requires WellFormed(graph) && WellFormed(grown) && graph <= grown
    requires c < |graph|
    ensures IsAncestor(graph, a, c) <==> IsAncestor(grown, a, c)
    decreases c
  {
    assert graph[c] == grown[c];
    forall k | 0 <= k < |graph[c].parents|
      ensures IsAncestor(graph, a, graph[c].parents[k]) <==> IsAncestor(grown, a, grown[c].parents[k])
    {
      AncestryIsStable(graph, grown, a, graph[c].parents[k]);
    }
  }

  lemma AncestryIsStableForAll(graph: seq<Commit>, grown: seq<Commit>)
    requires WellFormed(graph) && WellFormed(grown) && graph <= grown
    ensures forall a: CommitId, c: CommitId :: c < |graph| ==> (IsAncestor(graph, a, c) <==> IsAncestor(grown, a, c))
  {
    forall a: CommitId, c: CommitId | c < |graph|
      ensures IsAncestor(graph, a, c) <==> IsAncestor(grown, a, c)
    {
      AncestryIsStable(graph, grown, a, c);
    }
  }

  /** A merge commit reaches exactly itself and what its two parents reach. */
  lemma MergeReachesBothParents(graph: seq<Commit>, m: CommitId, l: CommitId, r: CommitId, a: CommitId)
    requires WellFormed(graph) && m < |graph| && graph[m].parents == [l, r]
    ensures IsAncestor(graph, a, m) <==> a == m || IsAncestor(graph, a, l) || IsAncestor(graph, a, r)
  {
    assert graph[m].parents[0] == l && graph[m].parents[1] == r;
  }

  /**
   * Moving a branch from `own` back to `base` drops every commit that `own` reaches and `base` does not.
   * With a one-parent `own` that is `own` alone exactly when `base` already reaches the parent.
   */
  lemma UndoDropsOnlyItself(graph: seq<Commit>, own: CommitId, parent: CommitId, base: CommitId)
    requires WellFormed(graph) && own < |graph| && graph[own].parents == [parent]
    ensures IsAncestor(graph, parent, base) <==>
            forall a: CommitId :: IsAncestor(graph, a, own) && !IsAncestor(graph, a, base) ==> a == own
  {
    assert graph[own].parents[0] == parent;
    if IsAncestor(graph, parent, base) {
      forall a: CommitId | IsAncestor(graph, a, own) && a != own
        ensures IsAncestor(graph, a, base)
      {
        AncestorTransitive(graph, a, parent, base);
      }
    } else {
      assert IsAncestor(graph, parent, own);
    }
  }

  /** The best common ancestors: those no other common ancestor descends from. */
  predicate IsMergeBase(graph: seq<Commit>, base: CommitId, l: CommitId, r: CommitId)
    requires WellFormed(graph)
  {
    && IsAncestor(graph, base, l) && IsAncestor(graph, base, r)
    && forall o: CommitId :: o < |graph| && IsAncestor(graph, o, l) && IsAncestor(graph, o, r) && IsAncestor(graph, base, o) ==> o == base
  }
}
