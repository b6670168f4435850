/**
 * boot-report.json and its ring. Each boot writes a bin half, before its server starts, and merges a server half later;
 * boots may overlap, a merge is a read and a write apart, and any rename or write may fail.
 */
module BootReport {
  import opened Wrappers

  const RING_SIZE: nat := 3
  const PIN_MAX_AGE: nat := 7 * 24 * 60 * 60 * 1000

  type BootId = nat

  /** `boot` is the boot that observed the half; the file itself names only the report's boot. */
  datatype BinHalf = Ok(boot: BootId, installed: Option<string>) | MissingHalf | Mismatch(previous: Option<BootId>) | UnreadableHalf

  datatype ServerHalf = Pending | NotReached(boot: BootId) | Recorded(boot: BootId, fields: map<string, string>, verdict: seq<string>)

  datatype Report = Report(bootId: Option<BootId>, bin: BinHalf, server: ServerHalf)

  datatype File<T> = Missing | Unreadable | Holds(content: T)

  /** A pinned report and its time, where that can be read. */
  datatype Pin = Pin(report: Report, pinnedAt: Option<int>)

  datatype Merge = Merge(boot: BootId, base: Report)

  predicate IsOfOneBoot(r: Report) {
    (r.bin.Ok? ==> r.bootId == Some(r.bin.boot)) && (!r.server.Pending? ==> r.bootId == Some(r.server.boot))
  }

  ghost predicate HoldsOneBoot(f: File<Report>) {
    f.Holds? ==> IsOfOneBoot(f.content)
  }

  function FieldsOf(s: ServerHalf): map<string, string> {
    if s.Recorded? then s.fields else map[]
  }

  /** What a server-phase write of the boot starts from. */
  function BaseFor(file: File<Report>, boot: BootId): (r: Report)
    ensures HoldsOneBoot(file) ==> IsOfOneBoot(r)
    ensures r.bootId == Some(boot)
  {
    match file
    case Missing => Report(Some(boot), MissingHalf, Pending)
    case Unreadable => Report(Some(boot), UnreadableHalf, Pending)
    case Holds(found) =>
      if found.bootId == Some(boot) then found else Report(Some(boot), Mismatch(found.bootId), Pending)
  }

  // ---- The incident pin ----

  function VerdictSet(r: Report): set<string> {
    if r.server.Recorded? then set v | v in r.server.verdict && v != "" else {}
  }

  function InstalledOf(r: Report): Option<string> {
    if r.bin.Ok? then r.bin.installed else None
  }

  predicate Explains(pin: Pin, r: Report, now: int) {
    InstalledOf(pin.report) == InstalledOf(r) && VerdictSet(pin.report) == VerdictSet(r) &&
    pin.pinnedAt.Some? && now - pin.pinnedAt.value < PIN_MAX_AGE
  }

  function NextPin(pin: File<Pin>, r: Report, now: int): File<Pin> {
    if VerdictSet(r) == {} || (pin.Holds? && Explains(pin.content, r, now)) then pin else Holds(Pin(r, Some(now)))
  }

  datatype Incident = Incident(report: Report, at: int)

  function Pinned(pin: File<Pin>, incidents: seq<Incident>): File<Pin> {
    if incidents == [] then pin
    else NextPin(Pinned(pin, incidents[..|incidents| - 1]), incidents[|incidents| - 1].report, incidents[|incidents| - 1].at)
  }

  /** A restart loop keeps the report that began it for a week, however many consistent boots come in between. */
  lemma {:induction false} LoopKeepsItsFirstReport(pin: File<Pin>, first: Incident, rest: seq<Incident>)
    requires VerdictSet(first.report) != {} && NextPin(pin, first.report, first.at) == Holds(Pin(first.report, Some(first.at)))
    requires forall i :: 0 <= i < |rest| && VerdictSet(rest[i].report) != {} ==>
      InstalledOf(rest[i].report) == InstalledOf(first.report) && VerdictSet(rest[i].report) == VerdictSet(first.report) &&
      rest[i].at - first.at < PIN_MAX_AGE
    ensures Pinned(pin, [first] + rest) == Holds(Pin(first.report, Some(first.at)))
  {
    var all := [first] + rest;
    if rest == [] {
      assert all[..0] == [];
      assert Pinned(pin, all[..0]) == pin;
    } else {
      assert all[..|all| - 1] == [first] + rest[..|rest| - 1];
      LoopKeepsItsFirstReport(pin, first, rest[..|rest| - 1]);
      assert all[|all| - 1] == rest[|rest| - 1];
    }
  }

  // ---- The files ----

  class BootReports {
    var ring: seq<File<Report>>
    var refused: File<Report>
    var incident: File<Pin>
    /** Server-phase writes that have read their base and not yet written. */
    var merges: map<nat, Merge>

    /** The boots that were not refused, and whether nothing failed and none of them overlapped. */
    ghost var boots: seq<BootId>
    ghost var calm: bool

    ghost predicate NothingIsMixed()
      reads this`ring, this`refused, this`incident, this`merges
    {
      (forall i :: 0 <= i < |ring| ==> HoldsOneBoot(ring[i])) && HoldsOneBoot(refused) &&
      (incident.Holds? ==> IsOfOneBoot(incident.content.report)) &&
      forall m :: m in merges ==> IsOfOneBoot(merges[m].base) && merges[m].base.bootId == Some(merges[m].boot)
    }

    ghost predicate RingIsNewestFirst()
      reads this`ring, this`boots
      requires |ring| == RING_SIZE
    {
      forall i :: 0 <= i < RING_SIZE ==>
        if i < |boots| then ring[i].Holds? && ring[i].content.bootId == Some(boots[|boots| - 1 - i]) else ring[i].Missing?
    }

    ghost predicate Valid()
      reads this
    {
      |ring| == RING_SIZE && NothingIsMixed() &&
      (calm ==> RingIsNewestFirst() && forall m :: m in merges ==> boots != [] && merges[m].boot == boots[|boots| - 1])
    }

    constructor ()
      ensures Valid() && calm && boots == [] && merges == map[] && incident.Missing?
    {
      ring := [Missing, Missing, Missing];
      refused, incident, merges := Missing, Missing, map[];
      boots, calm := [], true;
    }

    /** `moves[i]`: slot i could be renamed to the next one. The oldest falls off. */
    method RotateRing(moves: seq<bool>)
      requires Valid() && |moves| == RING_SIZE - 1
      modifies this`ring
      ensures |ring| == RING_SIZE && forall i :: 0 <= i < RING_SIZE ==> HoldsOneBoot(ring[i])
      ensures moves == [true, true] ==>
        ring[2] == (if old(ring)[1].Missing? then old(ring)[2] else old(ring)[1]) &&
        ring[1] == (if old(ring)[0].Missing? then Missing else old(ring)[0])
    {
      var index: int := RING_SIZE - 2;
      while index >= 0
        invariant -1 <= index <= RING_SIZE - 2
        invariant |ring| == RING_SIZE && forall i :: 0 <= i < RING_SIZE ==> HoldsOneBoot(ring[i])
        invariant forall i :: 0 <= i <= index ==> ring[i] == old(ring)[i]
        invariant index == RING_SIZE - 2 ==> ring == old(ring)
        invariant moves == [true, true] && index <= 0 ==>
          ring[2] == if old(ring)[1].Missing? then old(ring)[2] else old(ring)[1]
        invariant moves == [true, true] && index == 0 ==> ring[1].Missing?
        invariant moves == [true, true] && index < 0 ==>
          ring[1] == if old(ring)[0].Missing? then Missing else old(ring)[0]
      {
        if moves[index] && !ring[index].Missing? {
          ring := ring[index + 1 := ring[index]][index := Missing];
        }
        index := index - 1;
      }
    }

    /** The report is stamped with the writer's own boot, whatever it carried. */
    method WriteBinPhase(boot: BootId, installed: Option<string>, moves: seq<bool>, writes: bool)
      requires Valid() && |moves| == RING_SIZE - 1
      modifies this`ring, this`boots, this`calm
      ensures Valid() && boots == old(boots) + [boot]
      ensures calm == (old(calm) && writes && moves == [true, true] && merges == map[])
      ensures writes ==> ring[0] == Holds(Report(Some(boot), Ok(boot, installed), Pending))
    {
      RotateRing(moves);
      if writes {
        ring := ring[0 := Holds(Report(Some(boot), Ok(boot, installed), Pending))];
      }
      boots := boots + [boot];
      calm := calm && writes && moves == [true, true] && merges == map[];
    }

    /** A refused start leaves the ring alone. */
    method WriteRefusedBinPhase(boot: BootId, installed: Option<string>, writes: bool)
      requires Valid()
      modifies this`refused
      ensures Valid()
      ensures refused == if writes then Holds(Report(Some(boot), Ok(boot, installed), NotReached(boot))) else old(refused)
    {
      if writes {
        refused := Holds(Report(Some(boot), Ok(boot, installed), NotReached(boot)));
      }
    }

    /** A server-phase write reads its base. Other processes may act before it writes. */
    method ResolveBase(merge: nat, boot: BootId)
      requires Valid() && merge !in merges
      modifies this`merges, this`calm
      ensures Valid() && merges == old(merges)[merge := Merge(boot, BaseFor(ring[0], boot))]
      ensures calm == (old(calm) && boots != [] && boot == boots[|boots| - 1])
    {
      assert HoldsOneBoot(ring[0]);
      merges := merges[merge := Merge(boot, BaseFor(ring[0], boot))];
      calm := calm && boots != [] && boot == boots[|boots| - 1];
    }

    /** It merges its patch into what it read; the verdict an earlier merge left is replaced. */
    method MergeServerPhase(merge: nat, patch: map<string, string>, verdict: seq<string>, writes: bool) returns (r: Option<Report>)
      requires Valid() && merge in merges
      modifies this`ring, this`merges
      ensures Valid() && merges == old(merges) - {merge} && r.Some? == writes
      ensures
        var m := old(merges)[merge];
        writes ==>
          r.value == m.base.(server := Recorded(m.boot, FieldsOf(m.base.server) + patch, verdict)) &&
          IsOfOneBoot(r.value) && ring == old(ring)[0 := Holds(r.value)]
      ensures !writes ==> ring == old(ring)
    {
      var m := merges[merge];
      merges := merges - {merge};
      if !writes {
        return None;
      }
      var merged := m.base.(server := Recorded(m.boot, FieldsOf(m.base.server) + patch, verdict));
      ring := ring[0 := Holds(merged)];
      r := Some(merged);
    }

    method MarkServerPhaseNotReached(merge: nat, writes: bool)
      requires Valid() && merge in merges
      modifies this`ring, this`merges
      ensures Valid() && merges == old(merges) - {merge}
      ensures
        var m := old(merges)[merge];
        ring == if writes then old(ring)[0 := Holds(m.base.(server := NotReached(m.boot)))] else old(ring)
    {
      var m := merges[merge];
      merges := merges - {merge};
      if writes {
        ring := ring[0 := Holds(m.base.(server := NotReached(m.boot)))];
      }
    }

    /** After any write the pin explains the report; a readable pin gives way only to something it does not explain. */
    method PinIncidentReport(report: Report, now: int, writes: bool) returns (pinned: bool)
      requires Valid() && IsOfOneBoot(report)
      modifies this`incident
      ensures Valid()
      ensures incident == if writes then NextPin(old(incident), report, now) else old(incident)
      ensures pinned ==> incident == Holds(Pin(report, Some(now)))
      ensures writes && VerdictSet(report) != {} ==> incident.Holds? && Explains(incident.content, report, now)
      ensures pinned && old(incident).Holds? ==>
        var pin := old(incident).content;
        InstalledOf(pin.report) != InstalledOf(report) || VerdictSet(pin.report) != VerdictSet(report) ||
        pin.pinnedAt.None? || now - pin.pinnedAt.value >= PIN_MAX_AGE
    {
      if VerdictSet(report) == {} {
        return false;
      }
      if incident.Holds? {
        var pin := incident.content;
        var fresh_ := pin.pinnedAt.Some? && now - pin.pinnedAt.value < PIN_MAX_AGE;
        var sameVersion := InstalledOf(pin.report) == InstalledOf(report);
        var sameVerdict := VerdictSet(pin.report) == VerdictSet(report);
        if fresh_ && sameVersion && sameVerdict {
          return false;
        }
      }
      if writes {
        incident := Holds(Pin(report, Some(now)));
      }
      pinned := writes;
    }

    method ReadOwnReport(boot: BootId) returns (r: Option<Report>)
      requires Valid()
      ensures r.Some? ==> ring[0] == Holds(r.value) && r.value.bootId == Some(boot) && IsOfOneBoot(r.value)
      ensures r.None? ==> !ring[0].Holds? || ring[0].content.bootId != Some(boot)
    {
      if ring[0].Holds? && ring[0].content.bootId == Some(boot) {
        r := Some(ring[0].content);
      } else {
        r := None;
      }
    }

    method ServerMerges(boot: BootId, patches: seq<map<string, string>>) returns (r: Option<Report>)
      requires Valid() && calm && boots != [] && boot == boots[|boots| - 1] && merges == map[] && ring[0].Holds?
      modifies this`ring, this`merges, this`calm
      ensures Valid() && calm && merges == map[] && ring[0].Holds?
      ensures ring[0].content.bin == old(ring)[0].content.bin && ring[1..] == old(ring)[1..]
      ensures FieldsOf(ring[0].content.server) == Combined(FieldsOf(old(ring)[0].content.server), patches)
    {
      r := None;
      for i := 0 to |patches|
        invariant Valid() && calm && merges == map[] && ring[0].Holds?
        invariant ring[0].content.bin == old(ring)[0].content.bin && ring[1..] == old(ring)[1..]
        invariant FieldsOf(ring[0].content.server) == Combined(FieldsOf(old(ring)[0].content.server), patches[..i])
      {
        assert patches[..i + 1][..i] == patches[..i];
        assert ring[0].content.bootId == Some(boots[|boots| - 1]);
        ResolveBase(0, boot);
        r := MergeServerPhase(0, patches[i], [], true);
      }
      assert patches[..|patches|] == patches;
    }
  }

  /** Later patches win, field by field. */
  function Combined(fields: map<string, string>, patches: seq<map<string, string>>): map<string, string> {
    if patches == [] then fields else Combined(fields, patches[..|patches| - 1]) + patches[|patches| - 1]
  }
}
