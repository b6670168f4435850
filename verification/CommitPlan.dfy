/** What one sync commits: reading `git status`, the protected paths, the size limit on new files, and the plan. */
module CommitPlan {
  import opened Wrappers
  import opened PathTrees
  import opened CommitGraph
  import opened Staging
  import opened Text

  // ---- git status --porcelain=v1 -z ----

  /** Candidates differ from the index on disk or are untracked; a staged line without a later edit only counts. */
  datatype Status = Status(candidates: seq<Path>, untracked: seq<Path>, deleted: seq<Path>, skippedStaged: nat)

  predicate UntrackedLine(line: string) { |line| >= 4 && line[0] == '?' }
  predicate EditedLine(line: string) { |line| >= 4 && line[0] != '?' && line[1] != ' ' }
  predicate DeletedLine(line: string) { EditedLine(line) && line[1] == 'D' }
  predicate CandidateLine(line: string) { UntrackedLine(line) || EditedLine(line) }
  predicate StagedLine(line: string) { |line| >= 4 && line[0] != '?' && line[1] == ' ' && line[0] != ' ' }

  function PathsOf(lines: seq<string>, keep: string -> bool): seq<Path>
    requires forall l :: keep(l) ==> |l| >= 4
  {
    if lines == [] then []
    else PathsOf(lines[..|lines| - 1], keep) + if keep(lines[|lines| - 1]) then [lines[|lines| - 1][3..]] else []
  }

  lemma {:induction false} PathsOfMembers(lines: seq<string>, keep: string -> bool, p: Path)
    requires forall l :: keep(l) ==> |l| >= 4
    ensures p in PathsOf(lines, keep) <==> exists l :: l in lines && keep(l) && l[3..] == p
  {
    if lines != [] {
      var front, last := lines[..|lines| - 1], lines[|lines| - 1];
      PathsOfMembers(front, keep, p);
      assert lines == front + [last];
    }
  }

  function Nul(): char -> bool { c => c == '\0' }

  function StatusOf(lines: seq<string>): Status {
    Status(PathsOf(lines, CandidateLine), PathsOf(lines, UntrackedLine), PathsOf(lines, DeletedLine),
           |PathsOf(lines, StagedLine)|)
  }

  method ParseStatusEntries(raw: string) returns (status: Status)
    ensures status == StatusOf(Split(raw, Nul()))
  {
    var entries := Split(raw, Nul());
    var candidates: seq<Path>, untracked: seq<Path>, deleted: seq<Path> := [], [], [];
    var skippedStaged := 0;
    for i := 0 to |entries|
      invariant StatusOf(entries[..i]) == Status(candidates, untracked, deleted, skippedStaged)
    {
      var entry := entries[i];
      assert entries[..i + 1][..i] == entries[..i];
      if |entry| < 4 {
        continue;
      }
      var indexStatus, worktreeStatus, filePath := entry[0], entry[1], entry[3..];
      if indexStatus == '?' {
        candidates := candidates + [filePath];
        untracked := untracked + [filePath];
      } else if worktreeStatus != ' ' {
        candidates := candidates + [filePath];
        if worktreeStatus == 'D' {
          deleted := deleted + [filePath];
        }
      } else if indexStatus != ' ' {
        skippedStaged := skippedStaged + 1;
      }
    }
    assert entries[..|entries|] == entries;
    status := Status(candidates, untracked, deleted, skippedStaged);
  }

  /** git's own output: every line ends with a NUL. */
  function Printed(lines: seq<string>): string {
    if lines == [] then "" else lines[0] + "\0" + Printed(lines[1..])
  }

  /** Reading what git printed gives back its lines, whatever bytes but NUL the paths hold. */
  lemma {:induction false} ParsedAsPrinted(lines: seq<string>)
    requires forall l :: l in lines ==> Free(l, Nul())
    ensures StatusOf(Split(Printed(lines), Nul())) == StatusOf(lines)
  {
    SplitPrinted(lines);
    assert (lines + [""])[..|lines|] == lines;
    assert (lines + [""])[|lines|] == "";
  }

  lemma {:induction false} SplitPrinted(lines: seq<string>)
    requires forall l :: l in lines ==> Free(l, Nul())
    ensures Split(Printed(lines), Nul()) == lines + [""]
  {
    if lines != [] {
      SplitPrinted(lines[1..]);
      SplitFirst(lines[0], '\0', Printed(lines[1..]), Nul());
      assert lines[0] + "\0" + Printed(lines[1..]) == lines[0] + ['\0'] + Printed(lines[1..]);
      assert lines == [lines[0]] + lines[1..];
    }
  }

  // ---- Paths the sync never commits ----

  function Slash(): char -> bool { c => c == '/' }

  predicate EndsWith(s: string, suffix: string) {
    |s| >= |suffix| && s[|s| - |suffix|..] == suffix
  }

  /** OpenClaw's copies of the state directory. */
  predicate IsStateCopySegment(segment: string) {
    || EndsWith(segment, ".update-captures")
    || ".openclaw.package-backup-" <= segment
    || ".openclaw.shim-backup-" <= segment
  }

  const SECRET_FOLDERS: seq<string> := [".alphaclaw/", "credentials/", "identity/", "devices/", "agents/"]

  predicate HasStateCopySegment(p: Path) {
    exists s :: s in Split(p, Slash()) && IsStateCopySegment(s)
  }

  predicate IsManagedSecret(managedPath: string) {
    managedPath == ".env" || exists s :: s in SECRET_FOLDERS && (s <= managedPath || managedPath + "/" == s)
  }

  predicate IsProtected(p: Path, managedPrefix: string) {
    || HasStateCopySegment(p)
    || (managedPrefix <= p && IsManagedSecret(p[|managedPrefix|..]))
  }

  lemma StateCopySegmentBelow(folder: Path, p: Path)
    requires Below(folder, p) && HasStateCopySegment(folder)
    ensures HasStateCopySegment(p)
  {
    var rest := p[|folder| + 1..];
    assert p == folder + ['/'] + rest;
    SplitAround(folder, '/', rest, Slash());
  }

  /**
   * Protecting a folder protects everything in it, with one exception: `.env` is protected as a file only, so what
   * lies below a folder of that name is judged by its own segments.
   */
  lemma ProtectionCoversTheFolder(folder: Path, p: Path, managedPrefix: string)
    requires Below(folder, p) && IsProtected(folder, managedPrefix)
    ensures IsProtected(p, managedPrefix) <==> folder != managedPrefix + ".env" || HasStateCopySegment(p)
  {
    if HasStateCopySegment(folder) {
      StateCopySegmentBelow(folder, p);
    } else {
      var inFolder, inside := folder[|managedPrefix|..], p[|managedPrefix|..];
      assert folder == managedPrefix + inFolder;
      assert managedPrefix <= p && inFolder + "/" <= inside;
      if inFolder == ".env" {
        assert inside[..5] == ".env/" && inside[0] == '.' && inside[1] == 'e';
        assert SECRET_FOLDERS[0][1] == 'a' && SECRET_FOLDERS[1][0] == 'c' && SECRET_FOLDERS[2][0] == 'i';
        assert SECRET_FOLDERS[3][0] == 'd' && SECRET_FOLDERS[4][0] == 'a';
        forall s | s in SECRET_FOLDERS
          ensures !(s <= inside) && inside + "/" != s
        {
          assert s[0] != '.' || s[1] != 'e';
          assert (inside + "/")[0] == '.' && (inside + "/")[1] == 'e';
        }
      } else {
        var s :| s in SECRET_FOLDERS && (s <= inFolder || inFolder + "/" == s);
        assert s <= inside;
      }
    }
  }

  // ---- The size limit on new files and folders ----

  /** The unit a new file is charged to: itself, or the first folder on its way that `git status` names as new. */
  function RootOf(roots: set<Path>, p: Path): Option<Path> {
    if p in roots then Some(p) else FolderRoot(roots, p, 0)
  }

  function FolderRoot(roots: set<Path>, p: Path, from: nat): Option<Path>
    decreases |p| - from
  {
    if from >= |p| then None
    else if p[from] == '/' && p[..from + 1] in roots then Some(p[..from + 1])
    else FolderRoot(roots, p, from + 1)
  }

  /** `root` is `p` itself, or names a folder `p` lies in. */
  predicate Covers(root: Path, p: Path) {
    root == p || (root <= p && |root| > 0 && root[|root| - 1] == '/')
  }

  predicate PrefixFree(roots: set<Path>) {
    forall r, s :: r in roots && s in roots && Covers(r, s) ==> r == s
  }

  /** No root lies in another one, and no tracked path in any: a listing of wholly new files and folders. */
  predicate NewRootsOf(roots: set<Path>, index: Index) {
    PrefixFree(roots) && forall r, p :: r in roots && p in index ==> !Covers(r, p)
  }

  /** A new file in scope: on disk as a file, in no index entry, and not ignored. */
  predicate IsNewPath(index: Index, work: WorkTree, inScope: Path -> bool, ignored: Path -> bool, p: Path) {
    p in work && work[p].Regular? && p !in index && inScope(p) && !ignored(p)
  }

  /** Every new file is listed, by its own name or with a folder. */
  predicate ListsNewFiles(roots: set<Path>, index: Index, work: WorkTree, inScope: Path -> bool, ignored: Path -> bool) {
    forall p :: p in work && IsNewPath(index, work, inScope, ignored, p) ==> exists r :: r in roots && Covers(r, p)
  }

  /** Each new file listed by its own name is such a listing. */
  lemma NewFilesListThemselves(roots: set<Path>, index: Index, work: WorkTree, inScope: Path -> bool, ignored: Path -> bool)
    requires PlainNames(index, work) && roots == set p | p in work && IsNewPath(index, work, inScope, ignored, p)
    ensures NewRootsOf(roots, index) && ListsNewFiles(roots, index, work, inScope, ignored)
  {
    forall r | r in roots
      ensures |r| > 0 ==> r[|r| - 1] != '/'
    {
      assert r in index.Keys + work.Keys;
      assert |r| > 0 ==> r[|r| - 1..] == [r[|r| - 1]];
    }
    forall p | p in work && IsNewPath(index, work, inScope, ignored, p)
      ensures exists r :: r in roots && Covers(r, p)
    {
      assert p in roots && Covers(p, p);
    }
  }

  lemma {:induction false} FolderRootFound(roots: set<Path>, p: Path, from: nat)
    ensures var r := FolderRoot(roots, p, from);
            && (r.Some? ==> r.value in roots && Covers(r.value, p))
            && (r.None? ==> forall k :: from <= k < |p| && p[k] == '/' ==> p[..k + 1] !in roots)
    decreases |p| - from
  {
    if from < |p| && !(p[from] == '/' && p[..from + 1] in roots) {
      FolderRootFound(roots, p, from + 1);
    }
  }

  /** Each new path is charged to exactly one root when no listed folder contains another; an unlisted one to none. */
  lemma ChargedToTheOnlyRoot(roots: set<Path>, p: Path, root: Path)
    requires PrefixFree(roots)
    ensures RootOf(roots, p) == Some(root) <==> root in roots && Covers(root, p)
  {
    FolderRootFound(roots, p, 0);
    if root in roots && Covers(root, p) {
      if root != p {
        var k := |root| - 1;
        assert p[k] == '/' && p[..k + 1] == root;
      }
      if RootOf(roots, p).Some? {
        CoversAreNested(RootOf(roots, p).value, root, p);
      }
    }
  }

  lemma CoversAreNested(r: Path, s: Path, p: Path)
    requires Covers(r, p) && Covers(s, p)
    ensures Covers(r, s) || Covers(s, r)
  {
    if |r| <= |s| {
      assert r == p[..|r|] == s[..|r|];
    } else {
      assert s == p[..|s|] == r[..|s|];
    }
  }

  method FindRoot(roots: set<Path>, p: Path) returns (root: Option<Path>)
    ensures root == RootOf(roots, p)
  {
    root := if p in roots then Some(p) else None;
    var slash: nat := NextSlash(p, 0);
    assert FolderRoot(roots, p, 0) == FolderRoot(roots, p, slash) by { NoRootBefore(roots, p, 0, slash); }
    while root.None? && slash < |p|
      invariant slash <= |p| && (slash < |p| ==> p[slash] == '/')
      invariant RootOf(roots, p) == if root.Some? then root else FolderRoot(roots, p, slash)
      decreases root.None?, |p| - slash
    {
      if p[..slash + 1] in roots {
        root := Some(p[..slash + 1]);
      }
      var next := NextSlash(p, slash + 1);
      NoRootBefore(roots, p, slash + 1, next);
      slash := next;
    }
  }

  /** The index of the next slash, or the length when there is none. */
  function NextSlash(p: Path, from: nat): (slash: nat)
    requires from <= |p|
    ensures from <= slash <= |p| && (slash < |p| ==> p[slash] == '/')
    ensures forall k :: from <= k < slash ==> p[k] != '/'
    decreases |p| - from
  {
    if from == |p| || p[from] == '/' then from else NextSlash(p, from + 1)
  }

  lemma {:induction false} NoRootBefore(roots: set<Path>, p: Path, from: nat, slash: nat)
    requires from <= slash <= |p| && forall k :: from <= k < slash ==> p[k] != '/'
    ensures FolderRoot(roots, p, from) == FolderRoot(roots, p, slash)
    decreases slash - from
  {
    if from < slash {
      NoRootBefore(roots, p, from + 1, slash);
    }
  }

  /** The bytes charged to one root. */
  function RootTotal(paths: seq<Path>, roots: set<Path>, size: Path -> nat, root: Path): nat {
    if paths == [] then 0
    else
      var last := paths[|paths| - 1];
      RootTotal(paths[..|paths| - 1], roots, size, root) + if RootOf(roots, last) == Some(root) then size(last) else 0
  }

  predicate TooLarge(paths: seq<Path>, roots: set<Path>, size: Path -> nat, maxBytes: nat, p: Path) {
    var root := RootOf(roots, p);
    root.Some? && RootTotal(paths, roots, size, root.value) > maxBytes
  }

  /** Each root's bytes, with the roots in the order they were first charged. */
  method ChargeRoots(untracked: seq<Path>, roots: set<Path>, size: Path -> nat)
    returns (rootOf: map<Path, Path>, rootBytes: map<Path, nat>, order: seq<Path>)
    ensures forall p :: p in rootOf <==> p in untracked && RootOf(roots, p).Some?
    ensures forall p :: p in rootOf ==> RootOf(roots, p) == Some(rootOf[p]) && rootOf[p] in rootBytes
    ensures forall r :: r in rootBytes <==> r in order
    ensures forall i, j :: 0 <= i < j < |order| ==> order[i] != order[j]
    ensures forall r :: r in rootBytes ==> rootBytes[r] == RootTotal(untracked, roots, size, r)
  {
    rootOf, rootBytes, order := map[], map[], [];
    for i := 0 to |untracked|
      invariant forall p :: p in rootOf <==> p in untracked[..i] && RootOf(roots, p).Some?
      invariant forall p :: p in rootOf ==> RootOf(roots, p) == Some(rootOf[p]) && rootOf[p] in rootBytes
      invariant forall r :: r in rootBytes <==> r in order
      invariant forall j, k :: 0 <= j < k < |order| ==> order[j] != order[k]
      invariant forall r :: RootTotal(untracked[..i], roots, size, r) == if r in rootBytes then rootBytes[r] else 0
    {
      var relativePath := untracked[i];
      assert untracked[..i + 1] == untracked[..i] + [relativePath];
      assert untracked[..i + 1][..i] == untracked[..i];
      var root := FindRoot(roots, relativePath);
      if root.None? {
        continue;
      }
      rootOf := rootOf[relativePath := root.value];
      if root.value !in rootBytes {
        order := order + [root.value];
      }
      rootBytes := rootBytes[root.value := (if root.value in rootBytes then rootBytes[root.value] else 0) + size(relativePath)];
    }
    assert untracked[..|untracked|] == untracked;
  }

  /**
   * The size limit: a new path is held back exactly when everything charged to its root exceeds the limit together,
   * and each root over the limit is reported once with its total.
   */
  method HoldBackLarge(untracked: seq<Path>, roots: set<Path>, size: Path -> nat, maxBytes: nat)
    returns (kept: seq<Path>, heldBack: seq<(Path, nat)>)
    ensures kept == Select(untracked, p => !TooLarge(untracked, roots, size, maxBytes, p))
    ensures forall r, bytes :: (r, bytes) in heldBack <==>
              && (exists p :: p in untracked && RootOf(roots, p) == Some(r))
              && bytes == RootTotal(untracked, roots, size, r) && bytes > maxBytes
    ensures forall i, j :: 0 <= i < j < |heldBack| ==> heldBack[i].0 != heldBack[j].0
  {
    var rootOf, rootBytes, order := ChargeRoots(untracked, roots, size);
    heldBack := [];
    for i := 0 to |order|
      invariant forall h :: h in heldBack <==> h.0 in order[..i] && h.1 == rootBytes[h.0] && h.1 > maxBytes
      invariant forall j, k :: 0 <= j < k < |heldBack| ==> heldBack[j].0 != heldBack[k].0
    {
      assert order[..i + 1] == order[..i] + [order[i]];
      if rootBytes[order[i]] > maxBytes {
        heldBack := heldBack + [(order[i], rootBytes[order[i]])];
      }
    }
    assert order[..|order|] == order;
    forall r, bytes
      ensures (r, bytes) in heldBack <==>
              && (exists p :: p in untracked && RootOf(roots, p) == Some(r))
              && bytes == RootTotal(untracked, roots, size, r) && bytes > maxBytes
    {
      if RootTotal(untracked, roots, size, r) > 0 {
        ChargedRootsOnly(untracked, roots, size, r);
      }
      if p :| p in untracked && RootOf(roots, p) == Some(r) {
        assert rootOf[p] == r;
      }
    }
    kept := Select(untracked, p => !(p in rootOf && rootOf[p] in rootBytes && rootBytes[rootOf[p]] > maxBytes));
    SelectAgrees(untracked, p => !(p in rootOf && rootOf[p] in rootBytes && rootBytes[rootOf[p]] > maxBytes),
                 p => !TooLarge(untracked, roots, size, maxBytes, p));
  }

  lemma {:induction false} SelectAgrees<T(!new)>(s: seq<T>, keep: T -> bool, alike: T -> bool)
    requires forall x :: x in s ==> keep(x) == alike(x)
    ensures Select(s, keep) == Select(s, alike)
  {
    if s != [] {
      SelectAgrees(s[1..], keep, alike);
    }
  }

  lemma {:induction false} ChargedRootsOnly(paths: seq<Path>, roots: set<Path>, size: Path -> nat, root: Path)
    requires RootTotal(paths, roots, size, root) > 0
    ensures exists p :: p in paths && RootOf(roots, p) == Some(root)
  {
    var front, last := paths[..|paths| - 1], paths[|paths| - 1];
    if RootOf(roots, last) != Some(root) {
      ChargedRootsOnly(front, roots, size, root);
    }
  }

  function Sum(rs: seq<Path>, bytes: Path -> nat): nat {
    if rs == [] then 0 else bytes(rs[0]) + Sum(rs[1..], bytes)
  }

  function TotalCharged(paths: seq<Path>, roots: set<Path>, size: Path -> nat): nat {
    if paths == [] then 0
    else
      var last := paths[|paths| - 1];
      TotalCharged(paths[..|paths| - 1], roots, size) + if RootOf(roots, last).Some? then size(last) else 0
  }

  /** No byte is charged twice or lost: the roots' totals add up to the sizes of the charged paths. */
  lemma {:induction false} BytesAreConserved(paths: seq<Path>, roots: set<Path>, size: Path -> nat, order: seq<Path>)
    requires forall p :: p in paths && RootOf(roots, p).Some? ==> RootOf(roots, p).value in order
    requires forall i, j :: 0 <= i < j < |order| ==> order[i] != order[j]
    ensures Sum(order, r => RootTotal(paths, roots, size, r)) == TotalCharged(paths, roots, size)
  {
    if paths == [] {
      SumZero(order, r => RootTotal(paths, roots, size, r));
    } else {
      var front, last := paths[..|paths| - 1], paths[|paths| - 1];
      BytesAreConserved(front, roots, size, order);
      SumRaised(order, r => RootTotal(front, roots, size, r), r => RootTotal(paths, roots, size, r),
                RootOf(roots, last), size(last));
    }
  }

  lemma {:induction false} SumZero(rs: seq<Path>, bytes: Path -> nat)
    requires forall r :: bytes(r) == 0
    ensures Sum(rs, bytes) == 0
  {
    if rs != [] { SumZero(rs[1..], bytes); }
  }

  lemma {:induction false} SumRaised(rs: seq<Path>, before: Path -> nat, after: Path -> nat, root: Option<Path>, extra: nat)
    requires forall i, j :: 0 <= i < j < |rs| ==> rs[i] != rs[j]
    requires forall r :: after(r) == before(r) + if root == Some(r) then extra else 0
    ensures Sum(rs, after) == Sum(rs, before) + if root.Some? && root.value in rs then extra else 0
  {
    if rs != [] {
      SumRaised(rs[1..], before, after, root, extra);
    }
  }

  // ---- The plan ----

  datatype Plan = Plan(
    candidates: seq<Path>, untracked: seq<Path>, leftOut: set<Path>, protectedPaths: seq<Path>,
    heldBack: seq<(Path, nat)>, nestedRepos: set<Path>, pointers: set<Path>, skippedStaged: nat)

  predicate IsDirectory(work: WorkTree, p: Path) {
    (p in work && work[p].NestedRepo?) || IsFolder(work, p)
  }

  /** lstat finds something; git shows a nested repository with a slash after its name. */
  predicate IsOnDisk(work: WorkTree, p: Path) {
    p in work || IsFolder(work, p) || (EndsWith(p, "/") && IsDirectory(work, p[..|p| - 1]))
  }

  function SizeOn(work: WorkTree): Path -> nat {
    p => if p in work && work[p].Regular? then work[p].size else 0
  }

  /** An untracked file that may be committed if its size allows. */
  predicate IsNewFile(work: WorkTree, isProtected: Path -> bool, p: Path) {
    !isProtected(p) && IsOnDisk(work, p) && !EndsWith(p, "/")
  }

  function NewFiles(status: Status, work: WorkTree, isProtected: Path -> bool): seq<Path> {
    Select(status.untracked, p => IsNewFile(work, isProtected, p))
  }

  /** An edited tracked path the commit takes. */
  predicate IsTakenEdit(status: Status, work: WorkTree, listedGitlinks: set<Path>, isProtected: Path -> bool, p: Path) {
    p in status.candidates && p !in status.untracked && !IsDirectory(work, p) && p !in listedGitlinks && !isProtected(p)
  }

  /** What each part of a plan holds, by what the status, the roots, the sizes and the gitlinks say. */
  ghost predicate IsPlanFrom(plan: Plan, status: Status, roots: set<Path>, work: WorkTree, listedGitlinks: set<Path>,
                             isProtected: Path -> bool, maxBytes: nat) {
    && (plan.untracked == Select(NewFiles(status, work, isProtected),
                                     p => !TooLarge(NewFiles(status, work, isProtected), roots, SizeOn(work), maxBytes, p)))
    && (forall p :: p in plan.candidates <==>
              p in plan.untracked || IsTakenEdit(status, work, listedGitlinks, isProtected, p))
    && (forall p :: p in plan.leftOut <==> p in status.deleted && IsDirectory(work, p))
    && (forall p :: p in plan.protectedPaths <==> p in status.candidates && isProtected(p))
    && (forall p :: p in plan.nestedRepos <==>
              p in status.untracked && !isProtected(p) && IsOnDisk(work, p) && EndsWith(p, "/"))
    && (forall p :: p in plan.pointers <==>
              p in listedGitlinks ||
              (p in status.candidates && p !in status.untracked && IsDirectory(work, p) && p !in plan.leftOut))
    && (forall r, bytes :: (r, bytes) in plan.heldBack <==>
              && (exists p :: p in NewFiles(status, work, isProtected) && RootOf(roots, p) == Some(r))
              && bytes == RootTotal(NewFiles(status, work, isProtected), roots, SizeOn(work), r) && bytes > maxBytes)
  }

  method PlanCommit(status: Status, roots: set<Path>, work: WorkTree, listedGitlinks: set<Path>, isProtected: Path -> bool, maxBytes: nat)
    returns (plan: Plan)
    requires forall p :: p in status.untracked ==> p in status.candidates
    requires forall p :: p in status.deleted ==> p in status.candidates && p !in status.untracked
    ensures IsPlanFrom(plan, status, roots, work, listedGitlinks, isProtected, maxBytes)
    ensures plan.skippedStaged == status.skippedStaged
  {
    var protectedPaths := Select(status.candidates, isProtected);
    var nestedRepos := set p | p in status.untracked && !isProtected(p) && IsOnDisk(work, p) && EndsWith(p, "/");
    var untracked := NewFiles(status, work, isProtected);
    var heldBack: seq<(Path, nat)> := [];
    if |untracked| > 0 {
      untracked, heldBack := HoldBackLarge(untracked, roots, SizeOn(work), maxBytes);
    }
    var deletedIntoFolder := set p | p in status.deleted && IsDirectory(work, p);
    var gitlinks := listedGitlinks
      + set p | p in status.candidates && !(p in status.untracked || p in deletedIntoFolder) && IsDirectory(work, p);
    var kept := untracked;
    var candidates := Select(status.candidates, p =>
      if p in status.untracked then p in kept
      else p !in deletedIntoFolder && p !in gitlinks && !isProtected(p));
    plan := Plan(candidates, untracked, deletedIntoFolder, protectedPaths, heldBack, nestedRepos, gitlinks, status.skippedStaged);
  }

  // ---- The plan against the repository that git status described ----

  function ShownName(work: WorkTree, p: Path): Path {
    if p in work && work[p].NestedRepo? then p + "/" else p
  }

  /** The disk disagrees with the index at a tracked path. */
  predicate EditedOnDisk(index: Index, work: WorkTree, p: Path) {
    p in index && (p !in work || index[p] != Staged(AsObject(work[p])))
  }

  /** What one git status run says about the index and the disk, for the paths in scope that are not ignored. */
  ghost predicate Describes(status: Status, index: Index, work: WorkTree, inScope: Path -> bool, ignored: Path -> bool) {
    && (forall u :: u in status.untracked <==>
          exists p :: p in work && p !in index && inScope(p) && !ignored(p) && u == ShownName(work, p))
    && (forall p :: p in status.deleted <==> p in index && p !in work && inScope(p))
    && (forall p :: p in status.candidates <==>
          p in status.untracked || (EditedOnDisk(index, work, p) && inScope(p)))
  }

  /** No file name ends with a slash. */
  predicate PlainNames(index: Index, work: WorkTree) {
    forall p :: p in index.Keys + work.Keys ==> !EndsWith(p, "/")
  }

  /** The paths a sync commits, said of the disk and the index instead of a status listing. */
  ghost predicate ShouldCommit(index: Index, work: WorkTree, inScope: Path -> bool, ignored: Path -> bool,
                               listedGitlinks: set<Path>, isProtected: Path -> bool, tooLarge: Path -> bool, p: Path) {
    && inScope(p) && !isProtected(p) && !IsDirectory(work, p)
    && (if p in index then EditedOnDisk(index, work, p) && p !in listedGitlinks
        else p in work && !ignored(p) && !tooLarge(p))
  }

  /**
   * The plan made from a status listing names exactly the edited tracked files and the new files of the scope, minus
   * protected paths, nested repositories, gitlinks, files replaced by a folder and what the size limit holds back.
   */
  lemma PlanIsExact(status: Status, plan: Plan, index: Index, work: WorkTree, roots: set<Path>, inScope: Path -> bool,
                    ignored: Path -> bool, listedGitlinks: set<Path>, isProtected: Path -> bool, maxBytes: nat)
    requires Describes(status, index, work, inScope, ignored) && PlainNames(index, work) && TreeShaped(work)
    requires plan.untracked == Select(NewFiles(status, work, isProtected),
                                      p => !TooLarge(NewFiles(status, work, isProtected), roots, SizeOn(work), maxBytes, p))
    requires forall p :: p in plan.candidates <==>
               p in plan.untracked || IsTakenEdit(status, work, listedGitlinks, isProtected, p)
    ensures forall p :: p in plan.candidates <==>
              ShouldCommit(index, work, inScope, ignored, listedGitlinks, isProtected,
                           q => TooLarge(NewFiles(status, work, isProtected), roots, SizeOn(work), maxBytes, q), p)
    ensures IsCommitPlan(index, work, set p | p in plan.candidates, set p | p in plan.untracked)
  {
    PlanNamesWhatItShould(status, plan, index, work, roots, inScope, ignored, listedGitlinks, isProtected, maxBytes);
    PlanCanBeCommitted(status, plan, index, work, roots, inScope, ignored, listedGitlinks, isProtected, maxBytes);
  }

  lemma PlanNamesWhatItShould(status: Status, plan: Plan, index: Index, work: WorkTree, roots: set<Path>, inScope: Path -> bool,
                              ignored: Path -> bool, listedGitlinks: set<Path>, isProtected: Path -> bool, maxBytes: nat)
    requires Describes(status, index, work, inScope, ignored) && PlainNames(index, work) && TreeShaped(work)
    requires plan.untracked == Select(NewFiles(status, work, isProtected),
                                      p => !TooLarge(NewFiles(status, work, isProtected), roots, SizeOn(work), maxBytes, p))
    requires forall p :: p in plan.candidates <==>
               p in plan.untracked || IsTakenEdit(status, work, listedGitlinks, isProtected, p)
    ensures forall p :: p in plan.candidates <==>
              ShouldCommit(index, work, inScope, ignored, listedGitlinks, isProtected,
                           q => TooLarge(NewFiles(status, work, isProtected), roots, SizeOn(work), maxBytes, q), p)
  {
    var tooLarge := q => TooLarge(NewFiles(status, work, isProtected), roots, SizeOn(work), maxBytes, q);
    forall p
      ensures p in plan.candidates <==> ShouldCommit(index, work, inScope, ignored, listedGitlinks, isProtected, tooLarge, p)
    {
      assert p in plan.untracked <==> p in status.untracked && IsNewFile(work, isProtected, p) && !tooLarge(p);
      ShouldCommitAt(status, index, work, inScope, ignored, listedGitlinks, isProtected, tooLarge, p);
    }
  }

  lemma ShouldCommitAt(status: Status, index: Index, work: WorkTree, inScope: Path -> bool, ignored: Path -> bool,
                       listedGitlinks: set<Path>, isProtected: Path -> bool, tooLarge: Path -> bool, p: Path)
    requires Describes(status, index, work, inScope, ignored) && PlainNames(index, work) && TreeShaped(work)
    ensures ShouldCommit(index, work, inScope, ignored, listedGitlinks, isProtected, tooLarge, p) <==>
      (p in status.untracked && IsNewFile(work, isProtected, p) && !tooLarge(p)) ||
      IsTakenEdit(status, work, listedGitlinks, isProtected, p)
  {
    UntrackedIsNewOnDisk(status, index, work, inScope, ignored, p);
  }

  lemma PlanCanBeCommitted(status: Status, plan: Plan, index: Index, work: WorkTree, roots: set<Path>, inScope: Path -> bool,
                           ignored: Path -> bool, listedGitlinks: set<Path>, isProtected: Path -> bool, maxBytes: nat)
    requires Describes(status, index, work, inScope, ignored) && PlainNames(index, work) && TreeShaped(work)
    requires plan.untracked == Select(NewFiles(status, work, isProtected),
                                      p => !TooLarge(NewFiles(status, work, isProtected), roots, SizeOn(work), maxBytes, p))
    requires forall p :: p in plan.candidates <==>
               p in plan.untracked || IsTakenEdit(status, work, listedGitlinks, isProtected, p)
    ensures IsCommitPlan(index, work, set p | p in plan.candidates, set p | p in plan.untracked)
  {
    forall p
      ensures p in status.untracked && !EndsWith(p, "/") <==>
              p in work && work[p].Regular? && p !in index && inScope(p) && !ignored(p)
    {
      UntrackedIsNewOnDisk(status, index, work, inScope, ignored, p);
    }
  }

  lemma UntrackedIsNewOnDisk(status: Status, index: Index, work: WorkTree, inScope: Path -> bool, ignored: Path -> bool, p: Path)
    requires Describes(status, index, work, inScope, ignored) && PlainNames(index, work) && TreeShaped(work)
    ensures p in status.untracked && !EndsWith(p, "/") <==>
            p in work && work[p].Regular? && p !in index && inScope(p) && !ignored(p)
  {
    if p in work && work[p].Regular? && p !in index && inScope(p) && !ignored(p) {
      assert p == ShownName(work, p);
    }
    if p in status.untracked && !EndsWith(p, "/") {
      var q :| q in work && q !in index && inScope(q) && !ignored(q) && p == ShownName(work, q);
      assert work[q].NestedRepo? ==> EndsWith(q + "/", "/");
    }
  }

  /** `tree` has new content at `p` only when the sync should take `p`, and then it is the file on disk. */
  ghost predicate TakesOnlyWhatItShould(tree: Tree, head: Tree, index: Index, work: WorkTree, inScope: Path -> bool, ignored: Path -> bool,
                                        listedGitlinks: set<Path>, isProtected: Path -> bool, tooLarge: Path -> bool, p: Path) {
    var should := ShouldCommit(index, work, inScope, ignored, listedGitlinks, isProtected, tooLarge, p);
    && (should ==> Lookup(tree, p) == ObjectAt(work, p))
    && (p in tree && Lookup(tree, p) != Lookup(head, p) ==>
          should && p in work && work[p].Regular? && !isProtected(p) && p !in listedGitlinks * index.Keys
          && (p in index || (!ignored(p) && !tooLarge(p))))
  }

  /** So no protected path, gitlink, nested repository or held-back file ever enters the commit of a planned sync. */
  lemma SyncCommitsOnlyItsPlan(head: Tree, start: Index, index: Index, work: WorkTree, candidates: set<Path>, added: set<Path>,
                               inScope: Path -> bool, ignored: Path -> bool, listedGitlinks: set<Path>,
                               isProtected: Path -> bool, tooLarge: Path -> bool, p: Path)
    requires TreeShaped(work) && IsCommitPlan(start, work, candidates, added)
    requires p in candidates <==> ShouldCommit(index, work, inScope, ignored, listedGitlinks, isProtected, tooLarge, p)
    ensures TakesOnlyWhatItShould(CommittedTree(head, AddIntent(start, added), work, candidates), head, index, work,
                                  inScope, ignored, listedGitlinks, isProtected, tooLarge, p)
  {
    CommitTakesExactlyTheCandidates(head, start, work, candidates, added, p);
    NewContentIsPlanned(CommittedTree(head, AddIntent(start, added), work, candidates), head, index, work, candidates,
                        inScope, ignored, listedGitlinks, isProtected, tooLarge, p);
  }

  lemma NewContentIsPlanned(tree: Tree, head: Tree, index: Index, work: WorkTree, candidates: set<Path>,
                            inScope: Path -> bool, ignored: Path -> bool, listedGitlinks: set<Path>,
                            isProtected: Path -> bool, tooLarge: Path -> bool, p: Path)
    requires p in candidates <==> ShouldCommit(index, work, inScope, ignored, listedGitlinks, isProtected, tooLarge, p)
    requires Lookup(tree, p) == if p in candidates then ObjectAt(work, p)
                                else if GivesWay(work, candidates, p) then None
                                else Lookup(head, p)
    ensures TakesOnlyWhatItShould(tree, head, index, work, inScope, ignored, listedGitlinks, isProtected, tooLarge, p)
  {
  }

  // ---- What a run reports as left out ----

  /** What a plan was made from: the index it saw, the gitlinks listed, and which new files the size limit holds back. */
  datatype PlanFacts = PlanFacts(index: Index, gitlinks: set<Path>, tooLarge: Path -> bool)

  /** The gitlinks of the index in scope; none when they could not be listed. */
  predicate IsGitlinkListing(gitlinks: set<Path>, index: Index, inScope: Path -> bool) {
    gitlinks == {} || gitlinks == set p | p in index && inScope(p) && index[p].Staged? && index[p].entry.Gitlink?
  }

  /**
   * The size limit is the one on the new files that git lists for this index and disk, charged to the roots it lists. The
   * roots are listed only when there is a new file.
   */
  ghost predicate IsSizeLimit(tooLarge: Path -> bool, index: Index, work: WorkTree, inScope: Path -> bool, ignored: Path -> bool,
                              isProtected: Path -> bool, maxBytes: nat) {
    exists status: Status, roots: set<Path> ::
      && Describes(status, index, work, inScope, ignored) && NoneTwice(status.untracked)
      && NewRootsOf(roots, index) && (NewFiles(status, work, isProtected) != [] ==> ListsNewFiles(roots, index, work, inScope, ignored))
      && forall q :: tooLarge(q) <==> TooLarge(NewFiles(status, work, isProtected), roots, SizeOn(work), maxBytes, q)
  }

  /** The facts are those of this disk. */
  ghost predicate IsFactual(facts: PlanFacts, work: WorkTree, inScope: Path -> bool, ignored: Path -> bool, isProtected: Path -> bool,
                            maxBytes: nat) {
    IsGitlinkListing(facts.gitlinks, facts.index, inScope) &&
    IsSizeLimit(facts.tooLarge, facts.index, work, inScope, ignored, isProtected, maxBytes)
  }

  /** A new file above the limit is always held back, whatever folder it is charged to. */
  lemma LargeFileIsHeldBack(tooLarge: Path -> bool, index: Index, work: WorkTree, inScope: Path -> bool, ignored: Path -> bool,
                            isProtected: Path -> bool, maxBytes: nat, p: Path)
    requires IsSizeLimit(tooLarge, index, work, inScope, ignored, isProtected, maxBytes)
    requires PlainNames(index, work) && TreeShaped(work) && IsNewPath(index, work, inScope, ignored, p) && !isProtected(p)
    ensures work[p].size > maxBytes ==> tooLarge(p)
  {
    var status: Status, roots: set<Path> :|
      && Describes(status, index, work, inScope, ignored) && NoneTwice(status.untracked)
      && NewRootsOf(roots, index) && (NewFiles(status, work, isProtected) != [] ==> ListsNewFiles(roots, index, work, inScope, ignored))
      && forall q :: tooLarge(q) <==> TooLarge(NewFiles(status, work, isProtected), roots, SizeOn(work), maxBytes, q);
    UntrackedIsNewOnDisk(status, index, work, inScope, ignored, p);
    var root :| root in roots && Covers(root, p);
    ChargedToTheOnlyRoot(roots, p, root);
    ChargedOnce(NewFiles(status, work, isProtected), roots, SizeOn(work), root, p);
  }

  lemma {:induction false} ChargedOnce(paths: seq<Path>, roots: set<Path>, size: Path -> nat, root: Path, p: Path)
    requires p in paths && RootOf(roots, p) == Some(root)
    ensures RootTotal(paths, roots, size, root) >= size(p)
  {
    var front, last := paths[..|paths| - 1], paths[|paths| - 1];
    if p != last {
      assert paths == front + [last];
      ChargedOnce(front, roots, size, root, p);
    }
  }

  predicate NoneTwice(paths: seq<Path>) {
    forall i, j :: 0 <= i < j < |paths| ==> paths[i] != paths[j]
  }

  /** The path is no reported nested repository, and in no reported held-back root. */
  ghost predicate IsReportedOut(heldBack: seq<(Path, nat)>, nested: set<Path>, p: Path) {
    p in nested || exists h :: h in heldBack && Covers(h.0, p)
  }

  /** Nothing that is reported as left out should be committed. */
  lemma ReportedOutIsNotPlanned(plan: Plan, status: Status, index: Index, work: WorkTree, roots: set<Path>, inScope: Path -> bool,
                                ignored: Path -> bool, gitlinks: set<Path>, isProtected: Path -> bool, maxBytes: nat, p: Path)
    requires PlainNames(index, work) && NewRootsOf(roots, index) && gitlinks <= index.Keys
    requires forall n :: n in plan.nestedRepos ==> EndsWith(n, "/")
    requires forall n :: n in plan.pointers ==> n in gitlinks || IsDirectory(work, n)
    requires forall h :: h in plan.heldBack ==>
               && (exists q :: q in NewFiles(status, work, isProtected) && RootOf(roots, q) == Some(h.0))
               && h.1 == RootTotal(NewFiles(status, work, isProtected), roots, SizeOn(work), h.0) && h.1 > maxBytes
    requires ShouldCommit(index, work, inScope, ignored, gitlinks, isProtected,
                          q => TooLarge(NewFiles(status, work, isProtected), roots, SizeOn(work), maxBytes, q), p)
    ensures !IsReportedOut(plan.heldBack, plan.nestedRepos + plan.pointers, p)
  {
    assert p in index.Keys + work.Keys;
    forall h | h in plan.heldBack
      ensures !Covers(h.0, p)
    {
      var q :| q in NewFiles(status, work, isProtected) && RootOf(roots, q) == Some(h.0);
      ChargedToTheOnlyRoot(roots, q, h.0);
      ChargedToTheOnlyRoot(roots, p, h.0);
    }
  }
}
