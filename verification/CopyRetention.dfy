/** Retention of managed copies: the newest few and the recent ones stay, the rest goes, one at a time. */
module CopyRetention {
  import opened Wrappers

  const MAX_MEMBERS: nat := 500
  const DAY: nat := 24 * 60 * 60 * 1000

  /** A directory entry with a name of the family; `refusal` says why it is not one the feature made. */
  datatype Member = Member(name: string, mtime: int, bytes: nat, refusal: Option<string>)

  datatype Policy = Policy(keep: nat, days: nat)

  datatype Verdict = Due | KeptNewest | KeptRecent | NotManaged(reason: string)

  datatype Entry = Entry(member: Member, verdict: Verdict)

  datatype Fate = HeldOpen | Removable | RemovalFails

  datatype Totals = Totals(due: nat, removed: nat, freedBytes: nat, held: nat, failed: nat, unverified: nat)

  function Where(members: seq<Member>, p: Member -> bool): (r: seq<Member>)
    ensures forall m :: m in r <==> m in members && p(m)
    ensures |r| <= |members|
  {
    if members == [] then [] else (if p(members[0]) then [members[0]] else []) + Where(members[1..], p)
  }

  function Managed(): Member -> bool {
    (m: Member) => m.refusal.None?
  }

  /** The members a sweep looks at. */
  function FirstMembers(dir: seq<Member>): seq<Member> {
    if |dir| > MAX_MEMBERS then dir[..MAX_MEMBERS] else dir
  }

  // ---- Newest first ----

  /** Members of one time keep their order. */
  function Insert(m: Member, sorted: seq<Member>): (r: seq<Member>)
    ensures |r| == |sorted| + 1
  {
    if sorted == [] || sorted[0].mtime <= m.mtime then [m] + sorted else [sorted[0]] + Insert(m, sorted[1..])
  }

  function NewestFirst(members: seq<Member>): (r: seq<Member>)
    ensures |r| == |members|
  {
    if members == [] then [] else Insert(members[0], NewestFirst(members[1..]))
  }

  lemma {:induction false} SameMembers(members: seq<Member>)
    ensures multiset(NewestFirst(members)) == multiset(members)
  {
    if members != [] {
      SameMembers(members[1..]);
      InsertAdds(members[0], NewestFirst(members[1..]));
      assert members == [members[0]] + members[1..];
    }
  }

  lemma {:induction false} InsertAdds(m: Member, sorted: seq<Member>)
    ensures multiset(Insert(m, sorted)) == multiset(sorted) + multiset{m}
  {
    if sorted != [] && sorted[0].mtime > m.mtime {
      InsertAdds(m, sorted[1..]);
      assert sorted == [sorted[0]] + sorted[1..];
    }
  }

  ghost predicate IsNewestFirst(members: seq<Member>) {
    forall i, j :: 0 <= i < j < |members| ==> members[i].mtime >= members[j].mtime
  }

  lemma {:induction false} InsertSorts(m: Member, sorted: seq<Member>)
    requires IsNewestFirst(sorted)
    ensures IsNewestFirst(Insert(m, sorted))
    ensures forall x :: x in Insert(m, sorted) <==> x == m || x in sorted
  {
    if sorted != [] && sorted[0].mtime > m.mtime {
      InsertSorts(m, sorted[1..]);
      assert forall x :: x in sorted <==> x == sorted[0] || x in sorted[1..];
      var r := Insert(m, sorted[1..]);
      forall j | 0 <= j < |r| ensures sorted[0].mtime >= r[j].mtime {
        assert r[j] in r;
      }
    }
  }

  lemma {:induction false} NewestFirstSorts(members: seq<Member>)
    ensures IsNewestFirst(NewestFirst(members))
  {
    if members != [] {
      NewestFirstSorts(members[1..]);
      InsertSorts(members[0], NewestFirst(members[1..]));
    }
  }

  lemma WhereOfCons(m: Member, rest: seq<Member>, p: Member -> bool)
    ensures Where([m] + rest, p) == if p(m) then [m] + Where(rest, p) else Where(rest, p)
  {
    assert ([m] + rest)[1..] == rest;
    assert [] + Where(rest, p) == Where(rest, p);
  }

  lemma InsertInFront(m: Member, sorted: seq<Member>)
    requires forall i :: 0 <= i < |sorted| ==> sorted[i].mtime <= m.mtime
    ensures Insert(m, sorted) == [m] + sorted
  {
  }

  lemma {:induction false} InsertWhere(m: Member, sorted: seq<Member>, p: Member -> bool)
    requires IsNewestFirst(sorted)
    ensures Where(Insert(m, sorted), p) == if p(m) then Insert(m, Where(sorted, p)) else Where(sorted, p)
  {
    if sorted == [] || sorted[0].mtime <= m.mtime {
      InsertWhereInFront(m, sorted, p);
    } else {
      InsertWhere(m, sorted[1..], p);
      assert sorted == [sorted[0]] + sorted[1..];
      InsertWhereBehind(m, sorted[0], sorted[1..], p);
    }
  }

  lemma InsertWhereInFront(m: Member, sorted: seq<Member>, p: Member -> bool)
    requires IsNewestFirst(sorted) && (sorted != [] ==> sorted[0].mtime <= m.mtime)
    ensures Where(Insert(m, sorted), p) == if p(m) then Insert(m, Where(sorted, p)) else Where(sorted, p)
  {
    WhereOfCons(m, sorted, p);
    WhereIsOlder(m, sorted, p);
    InsertInFront(m, Where(sorted, p));
  }

  lemma WhereIsOlder(m: Member, sorted: seq<Member>, p: Member -> bool)
    requires IsNewestFirst(sorted) && (sorted != [] ==> sorted[0].mtime <= m.mtime)
    ensures forall i :: 0 <= i < |Where(sorted, p)| ==> Where(sorted, p)[i].mtime <= m.mtime
  {
    var kept := Where(sorted, p);
    forall i | 0 <= i < |kept| ensures kept[i].mtime <= m.mtime {
      assert kept[i] in sorted;
    }
  }

  lemma InsertWhereBehind(m: Member, first: Member, rest: seq<Member>, p: Member -> bool)
    requires first.mtime > m.mtime
    requires Where(Insert(m, rest), p) == if p(m) then Insert(m, Where(rest, p)) else Where(rest, p)
    ensures var sorted := [first] + rest; Where(Insert(m, sorted), p) == if p(m) then Insert(m, Where(sorted, p)) else Where(sorted, p)
  {
    InsertBehind(m, first, rest);
    WhereOfCons(first, Insert(m, rest), p);
    WhereOfCons(first, rest, p);
    if p(first) {
      InsertBehind(m, first, Where(rest, p));
    }
  }

  lemma InsertBehind(m: Member, first: Member, rest: seq<Member>)
    requires first.mtime > m.mtime
    ensures Insert(m, [first] + rest) == [first] + Insert(m, rest)
  {
    assert ([first] + rest)[1..] == rest;
  }

  /** Leaving members out and ordering them can be done in either order. */
  lemma {:induction false} NewestFirstWhere(members: seq<Member>, p: Member -> bool)
    ensures NewestFirst(Where(members, p)) == Where(NewestFirst(members), p)
  {
    if members != [] {
      var first, rest := members[0], members[1..];
      assert members == [first] + rest;
      NewestFirstWhere(rest, p);
      NewestFirstSorts(rest);
      InsertWhere(first, NewestFirst(rest), p);
      WhereOfCons(first, rest, p);
      if p(first) {
        assert ([first] + Where(rest, p))[1..] == Where(rest, p);
      }
    }
  }

  // ---- The plan ----

  function VerdictAt(sorted: seq<Member>, i: nat, policy: Policy, now: int): Verdict
    requires i < |sorted|
  {
    if i < policy.keep then KeptNewest
    else if now - sorted[i].mtime < policy.days * DAY then KeptRecent
    else Due
  }

  /** How far the kept members reach. */
  function KeptCount(sorted: seq<Member>, policy: Policy, now: int): (n: nat)
    ensures n <= |sorted|
  {
    if sorted == [] || VerdictAt(sorted, |sorted| - 1, policy, now) != Due then |sorted|
    else KeptCount(sorted[..|sorted| - 1], policy, now)
  }

  /** Newest first the verdicts are the newest, then the recent, then the due, and the due are a suffix. */
  lemma {:induction false} DueIsASuffix(sorted: seq<Member>, policy: Policy, now: int)
    requires IsNewestFirst(sorted)
    ensures
      var n := KeptCount(sorted, policy, now);
      n >= (if |sorted| < policy.keep then |sorted| else policy.keep) &&
      forall i :: 0 <= i < |sorted| ==> (VerdictAt(sorted, i, policy, now) == Due <==> n <= i)
  {
    if sorted != [] && VerdictAt(sorted, |sorted| - 1, policy, now) == Due {
      var shorter := sorted[..|sorted| - 1];
      DueIsASuffix(shorter, policy, now);
      assert forall i :: 0 <= i < |shorter| ==> VerdictAt(sorted, i, policy, now) == VerdictAt(shorter, i, policy, now);
    }
  }

  function DueOf(dir: seq<Member>, policy: Policy, now: int): seq<Member> {
    var sorted := NewestFirst(Where(FirstMembers(dir), Managed()));
    sorted[KeptCount(sorted, policy, now)..]
  }

  method PlanFamily(dir: seq<Member>, policy: Policy, now: int) returns (entries: seq<Entry>, due: seq<Member>)
    ensures due == DueOf(dir, policy, now)
    ensures |entries| == |FirstMembers(dir)|
    ensures forall e <- entries :: e.verdict.NotManaged? <==> e.member.refusal.Some?
    ensures forall m :: m in due <==> Entry(m, Due) in entries
  {
    var unmanaged, managed := Inspect(FirstMembers(dir));
    managed := NewestFirst(managed);
    NewestFirstSorts(Where(FirstMembers(dir), Managed()));
    SameMembers(Where(FirstMembers(dir), Managed()));
    forall m | m in managed ensures m.refusal.None? {
      assert m in multiset(managed);
      assert m in Where(FirstMembers(dir), Managed());
    }
    var judged;
    judged, due := Judge(managed, policy, now);
    entries := unmanaged + judged;
  }

  method Inspect(members: seq<Member>) returns (unmanaged: seq<Entry>, managed: seq<Member>)
    ensures managed == Where(members, Managed()) && |unmanaged| + |managed| == |members|
    ensures forall e <- unmanaged :: e.verdict.NotManaged? && e.member.refusal.Some?
  {
    unmanaged, managed := [], [];
    for i := 0 to |members|
      invariant managed == Where(members[..i], Managed()) && |unmanaged| + |managed| == i
      invariant forall e <- unmanaged :: e.verdict.NotManaged? && e.member.refusal.Some?
    {
      WhereOneMore(members[..i], members[i], Managed());
      assert members[..i + 1] == members[..i] + [members[i]];
      if members[i].refusal.Some? {
        unmanaged := unmanaged + [Entry(members[i], NotManaged(members[i].refusal.value))];
      } else {
        managed := managed + [members[i]];
      }
    }
    assert members[..|members|] == members;
  }

  method Judge(managed: seq<Member>, policy: Policy, now: int) returns (entries: seq<Entry>, due: seq<Member>)
    requires IsNewestFirst(managed)
    ensures |entries| == |managed| && due == managed[KeptCount(managed, policy, now)..]
    ensures forall i :: 0 <= i < |entries| ==> entries[i] == Entry(managed[i], VerdictAt(managed, i, policy, now))
    ensures forall m :: m in due <==> Entry(m, Due) in entries
  {
    DueIsASuffix(managed, policy, now);
    ghost var kept := KeptCount(managed, policy, now);
    entries, due := [], [];
    for i := 0 to |managed|
      invariant |entries| == i && due == if i <= kept then [] else managed[kept..i]
      invariant forall k :: 0 <= k < i ==> entries[k] == Entry(managed[k], VerdictAt(managed, k, policy, now))
    {
      var verdict := VerdictAt(managed, i, policy, now);
      entries := entries + [Entry(managed[i], verdict)];
      if verdict == Due {
        due := due + [managed[i]];
      }
    }
    assert managed[kept..|managed|] == managed[kept..];
    DueAreJudged(managed, entries, kept, policy, now);
  }

  lemma DueAreJudged(managed: seq<Member>, entries: seq<Entry>, kept: nat, policy: Policy, now: int)
    requires |entries| == |managed| && kept <= |managed|
    requires forall i :: 0 <= i < |managed| ==> entries[i] == Entry(managed[i], VerdictAt(managed, i, policy, now))
    requires forall i :: 0 <= i < |managed| ==> (VerdictAt(managed, i, policy, now) == Due <==> kept <= i)
    ensures forall m :: m in managed[kept..] <==> Entry(m, Due) in entries
  {
    forall m | m in managed[kept..] ensures Entry(m, Due) in entries {
      var i :| kept <= i < |managed| && managed[i] == m;
      assert entries[i] == Entry(m, Due);
    }
    forall m | Entry(m, Due) in entries ensures m in managed[kept..] {
      var i :| 0 <= i < |entries| && entries[i] == Entry(m, Due);
      assert managed[kept..][i - kept] == m;
    }
  }

  lemma WhereOneMore(members: seq<Member>, m: Member, p: Member -> bool)
    ensures Where(members + [m], p) == Where(members, p) + if p(m) then [m] else []
  {
    WhereOfTwo(members, [m], p);
    WhereOfCons(m, [], p);
    assert [m] + [] == [m];
  }

  // ---- The sweep ----

  /** The sweep removes a due member that it knows nobody holds open, if the removal works. */
  function Stays(due: seq<Member>, fate: Member -> Fate): Member -> bool {
    (m: Member) => m !in due || fate(m) != Removable
  }

  function Left(dir: seq<Member>, due: seq<Member>, fate: Member -> Fate, openKnown: bool): seq<Member> {
    if openKnown then Where(dir, Stays(due, fate)) else dir
  }

  /** The due members of every family, planned before anything is removed. */
  function AllDue(families: seq<seq<Member>>, policy: Policy, now: int): (r: seq<seq<Member>>)
    ensures |r| == |families|
  {
    if families == [] then [] else AllDue(families[..|families| - 1], policy, now) + [DueOf(families[|families| - 1], policy, now)]
  }

  function AllLeft(families: seq<seq<Member>>, dues: seq<seq<Member>>, fate: Member -> Fate, openKnown: bool): (r: seq<seq<Member>>)
    requires |families| == |dues|
    ensures |r| == |families|
  {
    if families == [] then []
    else
      var n := |families| - 1;
      AllLeft(families[..n], dues[..n], fate, openKnown) + [Left(families[n], dues[n], fate, openKnown)]
  }

  function Flat(dues: seq<seq<Member>>): seq<Member> {
    if dues == [] then [] else Flat(dues[..|dues| - 1]) + dues[|dues| - 1]
  }

  function Bytes(members: seq<Member>): nat {
    if members == [] then 0 else Bytes(members[..|members| - 1]) + members[|members| - 1].bytes
  }

  function With(fate: Member -> Fate, f: Fate): Member -> bool {
    (m: Member) => fate(m) == f
  }

  /** What became of the due members. */
  function Fared(due: seq<Member>, fate: Member -> Fate, openKnown: bool): Totals {
    if openKnown then
      var removed := Where(due, With(fate, Removable));
      Totals(|due|, |removed|, Bytes(removed), |Where(due, With(fate, HeldOpen))|, |Where(due, With(fate, RemovalFails))|, 0)
    else Totals(|due|, 0, 0, 0, 0, |due|)
  }

  /** Every due member is counted under one heading. */
  lemma {:induction false} EveryDueIsHandled(due: seq<Member>, fate: Member -> Fate, openKnown: bool)
    ensures var t := Fared(due, fate, openKnown); t.removed + t.held + t.failed + t.unverified == t.due == |due|
  {
    if due != [] {
      var n := |due| - 1;
      assert due[..n] + [due[n]] == due;
      EveryDueIsHandled(due[..n], fate, openKnown);
      OneMoreFared(due[..n], due[n], fate, openKnown);
    }
  }

  function CountOne(t: Totals, entry: Member, fate: Member -> Fate, openKnown: bool): Totals {
    if !openKnown then t.(unverified := t.unverified + 1)
    else match fate(entry)
      case HeldOpen => t.(held := t.held + 1)
      case RemovalFails => t.(failed := t.failed + 1)
      case Removable => t.(removed := t.removed + 1, freedBytes := t.freedBytes + entry.bytes)
  }

  lemma OneMoreFared(due: seq<Member>, entry: Member, fate: Member -> Fate, openKnown: bool)
    ensures
      Fared(due + [entry], fate, openKnown) == CountOne(Fared(due, fate, openKnown), entry, fate, openKnown).(due := |due| + 1)
  {
    OneMoreWith(due, entry, fate, Removable);
    OneMoreWith(due, entry, fate, HeldOpen);
    OneMoreWith(due, entry, fate, RemovalFails);
  }

  lemma OneMoreWith(due: seq<Member>, entry: Member, fate: Member -> Fate, f: Fate)
    ensures
      var before, after := Where(due, With(fate, f)), Where(due + [entry], With(fate, f));
      |after| == |before| + (if fate(entry) == f then 1 else 0) &&
      Bytes(after) == Bytes(before) + if fate(entry) == f then entry.bytes else 0
  {
    WhereOneMore(due, entry, With(fate, f));
    var before := Where(due, With(fate, f));
    assert (before + [entry])[..|before|] == before;
    assert before + [] == before;
  }

  lemma {:induction false} AllDueAt(families: seq<seq<Member>>, policy: Policy, now: int, f: nat)
    requires f < |families|
    ensures AllDue(families, policy, now)[f] == DueOf(families[f], policy, now)
    decreases |families|
  {
    if f < |families| - 1 {
      AllDueAt(families[..|families| - 1], policy, now, f);
    }
  }

  lemma {:induction false} AllLeftAt(families: seq<seq<Member>>, dues: seq<seq<Member>>, fate: Member -> Fate, openKnown: bool, f: nat)
    requires f < |families| == |dues|
    ensures AllLeft(families, dues, fate, openKnown)[f] == Left(families[f], dues[f], fate, openKnown)
    decreases |families|
  {
    if f < |families| - 1 {
      AllLeftAt(families[..|families| - 1], dues[..|families| - 1], fate, openKnown, f);
    }
  }

  lemma EachFamilyIsSwept(families: seq<seq<Member>>, policy: Policy, now: int, fate: Member -> Fate, openKnown: bool)
    ensures
      var r := AllLeft(families, AllDue(families, policy, now), fate, openKnown);
      forall f :: 0 <= f < |families| ==> r[f] == Left(families[f], DueOf(families[f], policy, now), fate, openKnown)
  {
    var dues := AllDue(families, policy, now);
    forall f | 0 <= f < |families|
      ensures AllLeft(families, dues, fate, openKnown)[f] == Left(families[f], DueOf(families[f], policy, now), fate, openKnown)
    {
      AllDueAt(families, policy, now, f);
      AllLeftAt(families, dues, fate, openKnown, f);
    }
  }

  class RetentionSweep {
    var families: seq<seq<Member>>
    var lastSweep: Option<Totals>

    constructor (families: seq<seq<Member>>)
      ensures this.families == families && lastSweep.None?
    {
      this.families, lastSweep := families, None;
    }

    /** `openKnown`: the open files could be read; without that nothing is removed. */
    method SweepRetainedCopiesNow(policy: Policy, now: int, fate: Member -> Fate, openKnown: bool) returns (totals: Totals)
      modifies this
      ensures |families| == |old(families)| && lastSweep == Some(totals)
      ensures forall f :: 0 <= f < |families| ==>
        families[f] == Left(old(families)[f], DueOf(old(families)[f], policy, now), fate, openKnown)
      ensures totals == Fared(Flat(AllDue(old(families), policy, now)), fate, openKnown)
    {
      EachFamilyIsSwept(families, policy, now, fate, openKnown);
      var dues := PlanRetention(families, policy, now);
      families, totals := SweepAll(families, dues, fate, openKnown);
      lastSweep := Some(totals);
    }
  }

  method PlanRetention(families: seq<seq<Member>>, policy: Policy, now: int) returns (dues: seq<seq<Member>>)
    ensures dues == AllDue(families, policy, now)
  {
    dues := [];
    for f := 0 to |families|
      invariant dues == AllDue(families[..f], policy, now)
    {
      var _, due := PlanFamily(families[f], policy, now);
      assert families[..f + 1][..f] == families[..f];
      dues := dues + [due];
    }
    assert families[..|families|] == families;
  }

  method SweepAll(families: seq<seq<Member>>, dues: seq<seq<Member>>, fate: Member -> Fate, openKnown: bool)
    returns (after: seq<seq<Member>>, totals: Totals)
    requires |families| == |dues|
    ensures after == AllLeft(families, dues, fate, openKnown)
    ensures totals == Fared(Flat(dues), fate, openKnown)
  {
    after, totals := [], Totals(|Flat(dues)|, 0, 0, 0, 0, 0);
    for f := 0 to |families|
      invariant after == AllLeft(families[..f], dues[..f], fate, openKnown)
      invariant totals == Fared(Flat(dues[..f]), fate, openKnown).(due := |Flat(dues)|)
    {
      OneMoreFamily(families, dues, f, fate, openKnown);
      var left;
      left, totals := SweepFamily(families[f], dues[f], Flat(dues[..f]), fate, openKnown, totals);
      after := after + [left];
    }
    assert families[..|families|] == families && dues[..|dues|] == dues;
  }

  lemma OneMoreFamily(families: seq<seq<Member>>, dues: seq<seq<Member>>, f: nat, fate: Member -> Fate, openKnown: bool)
    requires f < |families| == |dues|
    ensures AllLeft(families[..f + 1], dues[..f + 1], fate, openKnown) ==
      AllLeft(families[..f], dues[..f], fate, openKnown) + [Left(families[f], dues[f], fate, openKnown)]
    ensures Flat(dues[..f + 1]) == Flat(dues[..f]) + dues[f]
  {
    assert families[..f + 1][..f] == families[..f] && dues[..f + 1][..f] == dues[..f];
  }

  /** `earlier`: the members that `before` already counts. */
  method SweepFamily(dir: seq<Member>, due: seq<Member>, ghost earlier: seq<Member>, fate: Member -> Fate, openKnown: bool, before: Totals)
    returns (left: seq<Member>, totals: Totals)
    requires before == Fared(earlier, fate, openKnown).(due := before.due)
    ensures left == Left(dir, due, fate, openKnown)
    ensures totals == Fared(earlier + due, fate, openKnown).(due := before.due)
  {
    left, totals := dir, before;
    assert earlier + due[..0] == earlier;
    NothingDue(dir, fate, openKnown);
    for i := 0 to |due|
      invariant left == Left(dir, due[..i], fate, openKnown)
      invariant totals == Fared(earlier + due[..i], fate, openKnown).(due := before.due)
    {
      var entry := due[i];
      NextDue(dir, due, i, earlier, fate, openKnown);
      if !openKnown {
        totals := totals.(unverified := totals.unverified + 1);
      } else if fate(entry) == HeldOpen {
        totals := totals.(held := totals.held + 1);
      } else if fate(entry) == RemovalFails {
        totals := totals.(failed := totals.failed + 1);
      } else {
        totals := totals.(removed := totals.removed + 1, freedBytes := totals.freedBytes + entry.bytes);
        left := Where(left, Except(entry));
      }
    }
    assert due[..|due|] == due;
  }

  lemma NextDue(dir: seq<Member>, due: seq<Member>, i: nat, earlier: seq<Member>, fate: Member -> Fate, openKnown: bool)
    requires i < |due|
    ensures Left(dir, due[..i + 1], fate, true) ==
      if fate(due[i]) == Removable then Where(Left(dir, due[..i], fate, true), Except(due[i])) else Left(dir, due[..i], fate, true)
    ensures Fared(earlier + due[..i + 1], fate, openKnown) ==
      CountOne(Fared(earlier + due[..i], fate, openKnown), due[i], fate, openKnown).(due := |earlier| + i + 1)
  {
    assert due[..i + 1] == due[..i] + [due[i]];
    LeftAfterOne(dir, due[..i], due[i], fate);
    assert earlier + due[..i + 1] == earlier + due[..i] + [due[i]];
    OneMoreFared(earlier + due[..i], due[i], fate, openKnown);
  }

  function Except(entry: Member): Member -> bool {
    (m: Member) => m != entry
  }

  lemma NothingDue(dir: seq<Member>, fate: Member -> Fate, openKnown: bool)
    ensures Left(dir, [], fate, openKnown) == dir
  {
    WhereAll(dir, Stays([], fate));
  }

  lemma LeftAfterOne(dir: seq<Member>, due: seq<Member>, entry: Member, fate: Member -> Fate)
    ensures Where(dir, Stays(due + [entry], fate)) ==
      if fate(entry) == Removable then Where(Where(dir, Stays(due, fate)), Except(entry)) else Where(dir, Stays(due, fate))
  {
    if fate(entry) == Removable {
      WhereTwice(dir, Stays(due, fate), Except(entry), Stays(due + [entry], fate));
    } else {
      SameWhere(dir, Stays(due, fate), Stays(due + [entry], fate));
    }
  }

  lemma {:induction false} WhereAll(members: seq<Member>, p: Member -> bool)
    requires forall m :: m in members ==> p(m)
    ensures Where(members, p) == members
  {
    if members != [] {
      WhereAll(members[1..], p);
    }
  }

  lemma {:induction false} SameWhere(members: seq<Member>, p: Member -> bool, q: Member -> bool)
    requires forall m :: p(m) <==> q(m)
    ensures Where(members, p) == Where(members, q)
  {
    if members != [] {
      SameWhere(members[1..], p, q);
    }
  }

  lemma {:induction false} WhereTwice(members: seq<Member>, p: Member -> bool, q: Member -> bool, both: Member -> bool)
    requires forall m :: both(m) <==> p(m) && q(m)
    ensures Where(Where(members, p), q) == Where(members, both)
  {
    if members != [] {
      var first, rest := members[0], members[1..];
      assert members == [first] + rest;
      WhereTwice(rest, p, q, both);
      WhereOfCons(first, rest, p);
      WhereOfCons(first, rest, both);
      WhereOfCons(first, Where(rest, p), q);
    }
  }

  lemma {:induction false} WhereOfTwo(a: seq<Member>, b: seq<Member>, p: Member -> bool)
    ensures Where(a + b, p) == Where(a, p) + Where(b, p)
  {
    if a == [] {
      assert a + b == b;
    } else {
      assert (a + b)[1..] == a[1..] + b;
      WhereOfTwo(a[1..], b, p);
    }
  }

  // ---- What a sweep leaves ----

  ghost predicate IsDirectory(dir: seq<Member>) {
    forall i, j :: 0 <= i < j < |dir| ==> dir[i].name != dir[j].name
  }

  /** The kept members, then the due ones that stay: what the next sweep finds, newest first. */
  lemma SortedAfterSweep(dir: seq<Member>, sorted: seq<Member>, kept: nat, fate: Member -> Fate)
    requires IsDirectory(dir) && sorted == NewestFirst(Where(dir, Managed())) && kept <= |sorted|
    ensures
      var due := sorted[kept..];
      NewestFirst(Where(Left(dir, due, fate, true), Managed())) == sorted[..kept] + Where(due, Stays(due, fate))
  {
    var stays := Stays(sorted[kept..], fate);
    EitherFirst(dir, stays, Managed());
    NewestFirstWhere(Where(dir, Managed()), stays);
    KeptIsNotDue(dir, sorted, kept);
    assert sorted == sorted[..kept] + sorted[kept..];
    KeptStays(sorted[..kept], sorted[kept..], stays);
  }

  lemma KeptStays(kept: seq<Member>, due: seq<Member>, p: Member -> bool)
    requires forall m :: m in kept ==> p(m)
    ensures Where(kept + due, p) == kept + Where(due, p)
  {
    WhereOfTwo(kept, due, p);
    WhereAll(kept, p);
  }

  lemma EitherFirst(dir: seq<Member>, p: Member -> bool, q: Member -> bool)
    ensures Where(Where(dir, p), q) == Where(Where(dir, q), p)
  {
    var both := (m: Member) => p(m) && q(m);
    WhereTwice(dir, p, q, both);
    WhereTwice(dir, q, p, both);
  }

  lemma KeptIsNotDue(dir: seq<Member>, sorted: seq<Member>, kept: nat)
    requires IsDirectory(dir) && sorted == NewestFirst(Where(dir, Managed())) && kept <= |sorted|
    ensures forall m :: m in sorted[..kept] ==> m !in sorted[kept..]
  {
    var managed := Where(dir, Managed());
    OccursOnce(dir, Managed());
    SameMembers(managed);
    assert sorted == sorted[..kept] + sorted[kept..];
    forall m | m in sorted[..kept] ensures m !in sorted[kept..] {
      assert multiset(sorted)[m] == multiset(sorted[..kept])[m] + multiset(sorted[kept..])[m];
    }
  }

  lemma {:induction false} OccursOnce(dir: seq<Member>, p: Member -> bool)
    requires IsDirectory(dir)
    ensures forall m :: multiset(Where(dir, p))[m] <= 1
  {
    if dir != [] {
      OccursOnce(dir[1..], p);
      var rest := Where(dir[1..], p);
      assert dir[0] !in rest;
      assert p(dir[0]) ==> Where(dir, p) == [dir[0]] + rest;
    }
  }

  /** A sweep leaves at least the policy's number of managed copies, or all there were, and every entry that is none. */
  lemma SweepLeavesEnough(dir: seq<Member>, policy: Policy, now: int, fate: Member -> Fate, openKnown: bool)
    requires IsDirectory(dir) && |dir| <= MAX_MEMBERS
    ensures
      var managed := |Where(dir, Managed())|;
      var left := Left(dir, DueOf(dir, policy, now), fate, openKnown);
      |Where(left, Managed())| >= (if managed < policy.keep then managed else policy.keep) &&
      forall m :: m in dir && m.refusal.Some? ==> m in left
  {
    var sorted := NewestFirst(Where(dir, Managed()));
    NewestFirstSorts(Where(dir, Managed()));
    DueIsASuffix(sorted, policy, now);
    SortedAfterSweep(dir, sorted, KeptCount(sorted, policy, now), fate);
    SameMembers(Where(dir, Managed()));
    DueAreManaged(dir, policy, now);
  }

  lemma DueAreManaged(dir: seq<Member>, policy: Policy, now: int)
    requires |dir| <= MAX_MEMBERS
    ensures forall m :: m in DueOf(dir, policy, now) ==> m in dir && m.refusal.None?
  {
    var managed := Where(dir, Managed());
    SameMembers(managed);
    forall m | m in DueOf(dir, policy, now) ensures m in dir && m.refusal.None? {
      assert m in multiset(NewestFirst(managed));
      assert m in managed;
    }
  }

  /** Swept again at the same time, exactly the members that were held open or could not be removed are due. */
  lemma NextSweepFindsWhatStayed(dir: seq<Member>, policy: Policy, now: int, fate: Member -> Fate)
    requires IsDirectory(dir) && |dir| <= MAX_MEMBERS
    ensures
      var due := DueOf(dir, policy, now);
      DueOf(Left(dir, due, fate, true), policy, now) == Where(due, Stays(due, fate))
  {
    var sorted := NewestFirst(Where(dir, Managed()));
    var kept := KeptCount(sorted, policy, now);
    var due := DueOf(dir, policy, now);
    NewestFirstSorts(Where(dir, Managed()));
    DueIsASuffix(sorted, policy, now);
    SortedAfterSweep(dir, sorted, KeptCount(sorted, policy, now), fate);
    var left := Left(dir, due, fate, true);
    assert |left| <= |dir|;
    NewestFirstSorts(Where(left, Managed()));
    var stayed := Where(due, Stays(due, fate));
    KeptCountAfter(sorted, kept, stayed, policy, now);
    assert (sorted[..kept] + stayed)[kept..] == stayed;
  }

  lemma KeptCountAfter(sorted: seq<Member>, kept: nat, stayed: seq<Member>, policy: Policy, now: int)
    requires IsNewestFirst(sorted) && kept == KeptCount(sorted, policy, now)
    requires (forall m :: m in stayed ==> m in sorted[kept..]) && IsNewestFirst(sorted[..kept] + stayed)
    ensures KeptCount(sorted[..kept] + stayed, policy, now) == kept
  {
    var after := sorted[..kept] + stayed;
    DueIsASuffix(sorted, policy, now);
    DueIsASuffix(after, policy, now);
    forall i | 0 <= i < |after|
      ensures VerdictAt(after, i, policy, now) == Due <==> kept <= i
    {
      if i < kept {
        assert after[i] == sorted[i];
        assert VerdictAt(sorted, i, policy, now) != Due;
      } else {
        assert after[i] == stayed[i - kept] && stayed[i - kept] in sorted[kept..];
        var j :| kept <= j < |sorted| && sorted[j] == after[i];
        assert VerdictAt(sorted, j, policy, now) == Due;
        assert VerdictAt(sorted, kept, policy, now) == Due;
      }
    }
    OneBoundary(after, kept, policy, now);
  }

  lemma OneBoundary(sorted: seq<Member>, n: nat, policy: Policy, now: int)
    requires IsNewestFirst(sorted) && n <= |sorted|
    requires forall i :: 0 <= i < |sorted| ==> (VerdictAt(sorted, i, policy, now) == Due <==> n <= i)
    ensures KeptCount(sorted, policy, now) == n
  {
    DueIsASuffix(sorted, policy, now);
    var k := KeptCount(sorted, policy, now);
    if k < |sorted| {
      assert VerdictAt(sorted, k, policy, now) == Due;
    }
    if n < |sorted| {
      assert VerdictAt(sorted, n, policy, now) == Due;
    }
  }
}
