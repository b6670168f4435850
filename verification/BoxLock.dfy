/**
 * The operators' box lock. flock(2) locks an open file description; a descriptor's lock goes with its close. Every
 * method is one event of the process, the kernel or another holder, so any order of calls is one interleaving.
 */
module BoxLock {
  import opened Wrappers
  import opened BoxLockRecords

  const BUSY_EXIT: int := 75

  type Fd = nat

  datatype Holder = Nobody | Ours(fd: Fd) | Theirs(id: nat)

  /** An acquire waiting for its flock child: the first, non-blocking one, or the one that waits. A probe never waits. */
  datatype Task = Task(step: string, taker: string, waits: bool, waiting: bool, aborted: bool, probe: bool)

  datatype Hold = Hold(step: string, taker: string, since: string)

  datatype OwnerRecord =
    | Acquire(owner: string, step: string, startedAt: string, taker: string)
    | Release(owner: string, step: string, finishedAt: string, rc: int, taker: string)
    | Foreign(text: string)

  /** A line of the log. `mine`: this process wrote it. */
  datatype Written = Written(mine: bool, entry: LogEntry)

  datatype ChildEnd = Exited(status: int) | Signalled | SpawnError

  datatype Refusal = BoxLocked | BoxLockUnavailable | BoxLockAborted

  datatype Outcome = Held | KeepsWaiting | Refused(refusal: Refusal) | Probed(busy: bool)

  datatype Event =
    | StartAcquire(step: Option<string>, taker: Option<string>, waits: bool, opens: bool)
    | StartProbe(opens: bool)
    | Grant(fd: Fd)
    | EndChild(fd: Fd, end: ChildEnd, at: string, ownerWritten: bool, logWritten: bool)
    | AbortWait(fd: Fd)
    | EndHold(fd: Fd, rc: Option<int>, at: string, ownerWritten: bool, logWritten: bool)
    | TheyTake(id: nat)
    | TheyRecord(record: string, line: Option<LogEntry>)
    | TheyDrop
    | Die

  function Mine(log: seq<Written>): seq<LogEntry> {
    if log == [] then []
    else Mine(log[..|log| - 1]) + if log[|log| - 1].mine then [log[|log| - 1].entry] else []
  }

  lemma MineOfOneMore(log: seq<Written>, w: Written)
    ensures Mine(log + [w]) == Mine(log) + if w.mine then [w.entry] else []
  {
    assert (log + [w])[..|log|] == log;
  }

  /** Acquire and release lines take turns, and each release names what was acquired. */
  ghost predicate Bracketed(lines: seq<LogEntry>) {
    (forall i :: 0 <= i < |lines| ==> (lines[i].Acquired? <==> i % 2 == 0)) &&
    (forall i :: 0 < i < |lines| && i % 2 == 1 ==>
      lines[i].owner == lines[i - 1].owner && lines[i].step == lines[i - 1].step && lines[i].taker == lines[i - 1].taker)
  }

  lemma BracketOpens(lines: seq<LogEntry>, e: LogEntry)
    requires Bracketed(lines) && |lines| % 2 == 0 && e.Acquired?
    ensures Bracketed(lines + [e]) && |lines + [e]| % 2 == 1
  {
  }

  lemma BracketCloses(lines: seq<LogEntry>, e: LogEntry)
    requires Bracketed(lines) && |lines| % 2 == 1 && e.Released?
    requires e.owner == lines[|lines| - 1].owner && e.step == lines[|lines| - 1].step && e.taker == lines[|lines| - 1].taker
    ensures Bracketed(lines + [e]) && |lines + [e]| % 2 == 0
  {
  }

  class BoxLock {
    const owner: string
    const pid: nat

    /** The kernel's side: who has the lock. Descriptors 0 to descriptors - 1 were opened, each a description of its own. */
    var lockedBy: Holder
    var descriptors: nat
    ghost var closed: set<Fd>

    var pending: map<Fd, Task>
    var holds: map<Fd, Hold>

    var ownerFile: Option<OwnerRecord>
    var log: seq<Written>
    /** The holds whose acquire record reached the owner file, and whether every log line was written and nobody died. */
    ghost var named: set<Fd>
    ghost var logKept: bool

    ghost predicate DescriptorsAreAccountedFor()
      reads this`descriptors, this`closed, this`pending, this`holds
    {
      (forall fd :: 0 <= fd < descriptors <==> fd in pending || fd in holds || fd in closed) &&
      pending.Keys !! holds.Keys && pending.Keys !! closed && holds.Keys !! closed
    }

    ghost predicate LockIsAccountedFor()
      reads this`lockedBy, this`pending, this`holds
    {
      (lockedBy.Ours? ==> lockedBy.fd in pending || lockedBy.fd in holds) &&
      forall fd :: fd in holds ==> lockedBy == Ours(fd)
    }

    ghost predicate OwnerFileNamesHolds()
      reads this`holds, this`named, this`ownerFile
    {
      forall fd :: fd in holds && fd in named ==>
        ownerFile == Some(Acquire(owner, holds[fd].step, holds[fd].since, holds[fd].taker))
    }

    ghost predicate LogIsBracketed()
      reads this`log, this`holds, this`logKept
    {
      logKept ==>
        var lines := Mine(log);
        Bracketed(lines) && (|lines| % 2 == 0 <==> holds == map[]) &&
        forall fd :: fd in holds && |lines| > 0 ==>
          lines[|lines| - 1].owner == owner && lines[|lines| - 1].step == holds[fd].step && lines[|lines| - 1].taker == holds[fd].taker
    }

    ghost predicate TextIsWritable()
      reads this`log, this`holds, this`pending
    {
      IsTag(owner) &&
      (forall fd :: fd in pending ==> IsTag(pending[fd].step) && IsTag(pending[fd].taker)) &&
      (forall fd :: fd in holds ==> IsTag(holds[fd].step) && IsTag(holds[fd].taker)) &&
      (forall i :: 0 <= i < |log| && log[i].mine ==> IsWritable(log[i].entry))
    }

    ghost predicate Valid()
      reads this
    {
      DescriptorsAreAccountedFor() && LockIsAccountedFor() && OwnerFileNamesHolds() && LogIsBracketed() && TextIsWritable()
    }

    constructor (owner: string, pid: nat)
      requires IsTag(owner)
      ensures Valid() && this.owner == owner && pending == map[] && holds == map[] && lockedBy == Nobody && logKept && log == []
    {
      this.owner, this.pid := owner, pid;
      lockedBy, descriptors, closed := Nobody, 0, {};
      pending, holds := map[], map[];
      ownerFile, log, named, logKept := None, [], {}, true;
    }

    /** At most one hold is active, it has the lock, and then no other program does. */
    lemma AtMostOneHold(a: Fd, b: Fd)
      requires Valid() && a in holds && b in holds
      ensures a == b && lockedBy == Ours(a) && !lockedBy.Theirs?
    {
    }

    // ---- What the process does ----

    method Open(task: Task) returns (fd: Fd)
      requires Valid() && IsTag(task.step) && IsTag(task.taker)
      modifies this`descriptors, this`pending
      ensures Valid() && fd == old(descriptors) && descriptors == fd + 1 && pending == old(pending)[fd := task]
    {
      fd := descriptors;
      descriptors := descriptors + 1;
      pending := pending[fd := task];
    }

    /** acquire and acquireSync, up to the first flock child. The tags are sanitized here. */
    method Start(rawStep: Option<string>, rawTaker: Option<string>, waits: bool, opens: bool) returns (fd: Option<Fd>)
      requires Valid()
      modifies this`descriptors, this`pending
      ensures Valid()
      ensures fd.None? <==> !opens
      ensures fd.None? ==> descriptors == old(descriptors) && pending == old(pending)
      ensures fd.Some? ==>
        fd.value == old(descriptors) && descriptors == fd.value + 1 &&
        pending == old(pending)[fd.value := Task(Tag(rawStep, "operation"), Tag(rawTaker, owner), waits, false, false, false)]
    {
      assert IsTag("operation");
      if !opens {
        return None;
      }
      var next := Open(Task(Tag(rawStep, "operation"), Tag(rawTaker, owner), waits, false, false, false));
      fd := Some(next);
    }

    /** Closing the descriptor drops its lock. No descriptor is closed twice. */
    method CloseFd(fd: Fd)
      requires fd < descriptors && fd !in closed
      modifies this`closed, this`lockedBy
      ensures closed == old(closed) + {fd}
      ensures lockedBy == if old(lockedBy) == Ours(fd) then Nobody else old(lockedBy)
    {
      closed := closed + {fd};
      if lockedBy == Ours(fd) {
        lockedBy := Nobody;
      }
    }

    /** Both records, each of which may fail to be written. They are only ever written under the lock. */
    method WriteRecords(fd: Fd, record: OwnerRecord, entry: LogEntry, ownerWritten: bool, logWritten: bool)
      requires lockedBy == Ours(fd)
      modifies this`ownerFile, this`log, this`logKept
      ensures ownerFile == if ownerWritten then Some(record) else old(ownerFile)
      ensures log == if logWritten then old(log) + [Written(true, entry)] else old(log)
      ensures logKept == (old(logKept) && logWritten)
    {
      if ownerWritten {
        ownerFile := Some(record);
      }
      if logWritten {
        log := log + [Written(true, entry)];
      }
      logKept := logKept && logWritten;
    }

    method MakeHold(fd: Fd, at: string, ownerWritten: bool, logWritten: bool)
      requires Valid() && fd in pending && lockedBy == Ours(fd) && IsWord(at)
      modifies this`pending, this`holds, this`ownerFile, this`log, this`named, this`logKept
      ensures Valid()
      ensures pending == old(pending) - {fd}
      ensures holds == map[fd := Hold(old(pending[fd]).step, old(pending[fd]).taker, at)]
      ensures ownerWritten ==> ownerFile == Some(Acquire(owner, old(pending[fd]).step, at, old(pending[fd]).taker)) && fd in named
      ensures logKept == (old(logKept) && logWritten)
      ensures logKept ==> Mine(log) == old(Mine(log)) + [Acquired(at, owner, old(pending[fd]).step, pid, old(pending[fd]).taker)]
    {
      AddHold(fd, at);
      RecordHold(fd, ownerWritten, logWritten);
    }

    method AddHold(fd: Fd, at: string)
      requires Valid() && fd in pending && lockedBy == Ours(fd)
      modifies this`pending, this`holds
      ensures DescriptorsAreAccountedFor() && LockIsAccountedFor() && TextIsWritable()
      ensures pending == old(pending) - {fd}
      ensures old(holds) == map[] && holds == map[fd := Hold(old(pending[fd]).step, old(pending[fd]).taker, at)]
    {
      var step, taker := pending[fd].step, pending[fd].taker;
      assert holds == map[];
      pending := pending - {fd};
      holds := holds[fd := Hold(step, taker, at)];
    }

    method RecordHold(fd: Fd, ownerWritten: bool, logWritten: bool)
      requires TextIsWritable() && holds.Keys == {fd} && lockedBy == Ours(fd) && IsWord(holds[fd].since)
      requires logKept ==> Bracketed(Mine(log)) && |Mine(log)| % 2 == 0
      modifies this`ownerFile, this`log, this`named, this`logKept
      ensures TextIsWritable() && OwnerFileNamesHolds() && LogIsBracketed()
      ensures ownerWritten ==> ownerFile == Some(Acquire(owner, holds[fd].step, holds[fd].since, holds[fd].taker)) && fd in named
      ensures logKept == (old(logKept) && logWritten)
      ensures logKept ==> Mine(log) == old(Mine(log)) + [Acquired(holds[fd].since, owner, holds[fd].step, pid, holds[fd].taker)]
    {
      var hold := holds[fd];
      var entry := Acquired(hold.since, owner, hold.step, pid, hold.taker);
      MineOfOneMore(log, Written(true, entry));
      if logKept {
        BracketOpens(Mine(log), entry);
      }
      WriteRecords(fd, Acquire(owner, hold.step, hold.since, hold.taker), entry, ownerWritten, logWritten);
      named := if ownerWritten then named + {fd} else named - {fd};
    }

    method Fail(fd: Fd)
      requires Valid() && fd in pending
      modifies this`pending, this`closed, this`lockedBy
      ensures Valid() && pending == old(pending) - {fd} && closed == old(closed) + {fd}
      ensures lockedBy == if old(lockedBy) == Ours(fd) then Nobody else old(lockedBy)
    {
      pending := pending - {fd};
      CloseFd(fd);
    }

    /**
     * The flock child is done. Exit 0 says the lock was taken and the busy code that it was not; a child that was killed
     * may have taken it. An acquire ends as a hold of the lock, or with its descriptor closed and the lock let go.
     */
    method ChildEnds(fd: Fd, end: ChildEnd, at: string, ownerWritten: bool, logWritten: bool) returns (outcome: Outcome)
      requires Valid() && fd in pending && IsWord(at)
      requires end == Exited(0) ==> lockedBy == Ours(fd)
      requires end == Exited(BUSY_EXIT) ==> lockedBy != Ours(fd)
      modifies this
      ensures Valid() && descriptors == old(descriptors) && logKept == (old(logKept) && (outcome.Held? ==> logWritten))
      ensures outcome == OutcomeOf(old(pending[fd]), end)
      ensures outcome.Held? ==>
        lockedBy == Ours(fd) && pending == old(pending) - {fd} && closed == old(closed) &&
        holds == map[fd := Hold(old(pending[fd]).step, old(pending[fd]).taker, at)]
      ensures outcome.Held? && ownerWritten ==>
        fd in named && ownerFile == Some(Acquire(owner, old(pending[fd]).step, at, old(pending[fd]).taker))
      ensures outcome.Held? && logKept ==>
        Mine(log) == old(Mine(log)) + [Acquired(at, owner, old(pending[fd]).step, pid, old(pending[fd]).taker)]
      ensures !outcome.Held? ==> named == old(named) && log == old(log) && ownerFile == old(ownerFile)
      ensures outcome.KeepsWaiting? ==>
        pending == old(pending)[fd := old(pending[fd]).(waiting := true)] && closed == old(closed) && holds == old(holds) &&
        lockedBy == old(lockedBy)
      ensures outcome.Refused? || outcome.Probed? ==>
        pending == old(pending) - {fd} && closed == old(closed) + {fd} && holds == old(holds) && lockedBy != Ours(fd)
    {
      var task := pending[fd];
      if task.probe {
        Fail(fd);
        return Probed(end == Exited(BUSY_EXIT));
      }
      if !task.waiting && end == Exited(BUSY_EXIT) && task.waits && !task.aborted {
        pending := pending[fd := task.(waiting := true)];
        return KeepsWaiting;
      }
      if end == Exited(0) {
        MakeHold(fd, at, ownerWritten, logWritten);
        return Held;
      }
      Fail(fd);
      if task.waiting && task.aborted && end != SpawnError {
        outcome := Refused(BoxLockAborted);
      } else if end == Exited(BUSY_EXIT) {
        outcome := Refused(BoxLocked);
      } else {
        outcome := Refused(BoxLockUnavailable);
      }
    }

    method Abort(fd: Fd)
      requires Valid() && fd in pending
      modifies this`pending
      ensures Valid() && pending == old(pending)[fd := old(pending[fd]).(aborted := true)]
    {
      pending := pending[fd := pending[fd].(aborted := true)];
    }

    /** Releasing twice releases once. A return code that is no integer is recorded as 1. */
    method ReleaseHold(fd: Fd, rc: Option<int>, at: string, ownerWritten: bool, logWritten: bool)
      requires Valid() && IsWord(at)
      modifies this
      ensures Valid() && descriptors == old(descriptors) && pending == old(pending) && named == old(named)
      ensures fd !in old(holds) ==>
        holds == old(holds) && closed == old(closed) && lockedBy == old(lockedBy) && ownerFile == old(ownerFile) && log == old(log)
      ensures fd in old(holds) ==> holds == map[] && closed == old(closed) + {fd} && lockedBy == Nobody
      ensures fd in old(holds) && ownerWritten ==>
        ownerFile == Some(Release(owner, old(holds[fd]).step, at, if rc.Some? then rc.value else 1, old(holds[fd]).taker))
      ensures logKept == (old(logKept) && (fd in old(holds) ==> logWritten))
      ensures fd in old(holds) && logKept ==>
        Mine(log) == old(Mine(log)) + [Released(at, owner, old(holds[fd]).step, if rc.Some? then rc.value else 1, old(holds[fd]).taker)]
    {
      if fd !in holds {
        return;
      }
      var hold := holds[fd];
      assert holds.Keys == {fd};
      RecordRelease(fd, hold, if rc.Some? then rc.value else 1, at, ownerWritten, logWritten);
      holds := holds - {fd};
      assert holds == map[];
      CloseFd(fd);
    }

    /** The release record, written while the lock is still held. */
    method RecordRelease(fd: Fd, hold: Hold, code: int, at: string, ownerWritten: bool, logWritten: bool)
      requires TextIsWritable() && LogIsBracketed() && holds == map[fd := hold] && lockedBy == Ours(fd) && IsWord(at)
      modifies this`ownerFile, this`log, this`logKept
      ensures TextIsWritable() && logKept == (old(logKept) && logWritten)
      ensures ownerWritten ==> ownerFile == Some(Release(owner, hold.step, at, code, hold.taker))
      ensures logKept ==> Bracketed(Mine(log)) && |Mine(log)| % 2 == 0
      ensures logKept ==> Mine(log) == old(Mine(log)) + [Released(at, owner, hold.step, code, hold.taker)]
    {
      var entry := Released(at, owner, hold.step, code, hold.taker);
      MineOfOneMore(log, Written(true, entry));
      assert fd in holds;
      if logKept {
        BracketCloses(Mine(log), entry);
      }
      WriteRecords(fd, Release(owner, hold.step, at, code, hold.taker), entry, ownerWritten, logWritten);
    }

    /** An operation runs without acquiring only where its caller's hold has the lock at this moment. */
    method HeldInContext(context: Option<Fd>) returns (held: bool)
      requires Valid()
      ensures held ==> context.Some? && lockedBy == Ours(context.value)
      ensures context.Some? && context.value in holds ==> held
    {
      held := context.Some? && context.value in holds;
    }

    // ---- What the kernel and other holders do ----

    method KernelGrants(fd: Fd)
      requires Valid() && fd in pending && lockedBy == Nobody
      modifies this`lockedBy
      ensures Valid() && lockedBy == Ours(fd)
    {
      lockedBy := Ours(fd);
    }

    method OthersTake(id: nat)
      requires Valid() && lockedBy == Nobody
      modifies this`lockedBy
      ensures Valid() && lockedBy == Theirs(id) && holds == map[]
    {
      lockedBy := Theirs(id);
      assert holds == map[];
    }

    method OthersRecord(record: string, line: Option<LogEntry>)
      requires Valid() && lockedBy.Theirs?
      modifies this`ownerFile, this`log
      ensures Valid() && ownerFile == Some(Foreign(record)) && Mine(log) == old(Mine(log))
    {
      ownerFile := Some(Foreign(record));
      if line.Some? {
        MineOfOneMore(log, Written(false, line.value));
        log := log + [Written(false, line.value)];
      }
    }

    method OthersDrop()
      requires Valid() && lockedBy.Theirs?
      modifies this`lockedBy
      ensures Valid() && lockedBy == Nobody
    {
      lockedBy := Nobody;
    }

    /** The process dies; the kernel closes what it had open, and so no stale lock remains. */
    method ProcessDies()
      requires Valid()
      modifies this
      ensures Valid() && pending == map[] && holds == map[] && !lockedBy.Ours? && descriptors == old(descriptors)
    {
      closed := closed + pending.Keys + holds.Keys;
      pending, holds := map[], map[];
      if lockedBy.Ours? {
        lockedBy := Nobody;
      }
      logKept := false;
    }

    // ---- Any interleaving ----

    predicate CanHappen(e: Event)
      reads this`pending, this`lockedBy
    {
      match e
      case Grant(fd) => fd in pending && lockedBy == Nobody
      case EndChild(fd, end, _, _, _) =>
        fd in pending && (end == Exited(0) ==> lockedBy == Ours(fd)) && (end == Exited(BUSY_EXIT) ==> lockedBy != Ours(fd))
      case AbortWait(fd) => fd in pending
      case TheyTake(_) => lockedBy == Nobody
      case TheyRecord(_, _) => lockedBy.Theirs?
      case TheyDrop => lockedBy.Theirs?
      case _ => true
    }

    method Happen(e: Event)
      requires Valid() && CanHappen(e)
      requires e.EndChild? || e.EndHold? ==> IsWord(e.at)
      modifies this
      ensures Valid() && Effect(e)
      ensures old(holds).Keys <= old(named) && (e.EndChild? ==> e.ownerWritten) ==> holds.Keys <= named
      ensures old(logKept) && !e.Die? && ((e.EndChild? || e.EndHold?) ==> e.logWritten) ==> logKept
    {
      match e
      case StartAcquire(step, taker, waits, opens) => var _ := Start(step, taker, waits, opens);
      case StartProbe(opens) =>
        if opens {
          assert IsTag("probe");
          var _ := Open(Task("probe", owner, false, false, false, true));
        }
      case Grant(fd) => KernelGrants(fd);
      case EndChild(fd, end, at, ownerWritten, logWritten) => var _ := ChildEnds(fd, end, at, ownerWritten, logWritten);
      case AbortWait(fd) => Abort(fd);
      case EndHold(fd, rc, at, ownerWritten, logWritten) => ReleaseHold(fd, rc, at, ownerWritten, logWritten);
      case TheyTake(id) => OthersTake(id);
      case TheyRecord(record, line) => OthersRecord(record, line);
      case TheyDrop => OthersDrop();
      case Die => ProcessDies();
    }

    /** What each kind of event is for: it opens, ends, holds or lets go. */
    twostate predicate Effect(e: Event)
      reads this
    {
      match e
      case StartAcquire(_, _, _, opens) => descriptors == old(descriptors) + (if opens then 1 else 0) && holds == old(holds)
      case StartProbe(opens) => descriptors == old(descriptors) + (if opens then 1 else 0) && holds == old(holds)
      case Grant(fd) => lockedBy == Ours(fd) && holds == old(holds)
      case EndChild(fd, end, _, _, _) =>
        fd in old(pending) ==>
          var outcome := OutcomeOf(old(pending)[fd], end);
          (fd in holds <==> outcome.Held?) && (fd in pending <==> outcome.KeepsWaiting?) &&
          (fd in closed <==> outcome.Refused? || outcome.Probed?)
      case AbortWait(fd) => fd in pending && pending[fd].aborted && holds == old(holds)
      case EndHold(fd, _, _, _, _) => fd !in holds && (fd in old(holds) ==> fd in closed && lockedBy == Nobody)
      case TheyTake(id) => lockedBy == Theirs(id) && holds == old(holds)
      case TheyRecord(record, _) => ownerFile == Some(Foreign(record)) && holds == old(holds)
      case TheyDrop => lockedBy == Nobody && holds == old(holds)
      case Die => holds == map[] && pending == map[] && !lockedBy.Ours?
    }

    /**
     * Any sequence of events, those that cannot happen skipped. While every acquire record could be written, the owner file
     * names the current holder of this process, whatever other holders and refused acquires came before. Unless the process
     * died or a line could not be written, its lines in the log are bracketed, and each reads back to its fields.
     */
    method Serve(events: seq<Event>)
      requires Valid() && forall e <- events :: e.EndChild? || e.EndHold? ==> IsWord(e.at)
      modifies this
      ensures Valid()
      ensures old(holds).Keys <= old(named) && (forall e <- events :: e.EndChild? ==> e.ownerWritten) ==>
        forall fd <- holds :: ownerFile == Some(Acquire(owner, holds[fd].step, holds[fd].since, holds[fd].taker))
      ensures old(logKept) && (forall e <- events :: !e.Die? && ((e.EndChild? || e.EndHold?) ==> e.logWritten)) ==> Bracketed(Mine(log))
      ensures forall w <- log :: w.mine ==> LineOf(Words(FormatLogLine(w.entry))) == Some(LineFor(w.entry))
    {
      for i := 0 to |events|
        invariant Valid()
        invariant old(holds).Keys <= old(named) && (forall e <- events[..i] :: e.EndChild? ==> e.ownerWritten) ==> holds.Keys <= named
        invariant old(logKept) && (forall e <- events[..i] :: !e.Die? && ((e.EndChild? || e.EndHold?) ==> e.logWritten)) ==> logKept
      {
        assert forall e <- events[..i] :: e in events[..i + 1];
        assert events[i] in events[..i + 1];
        if CanHappen(events[i]) {
          Happen(events[i]);
        }
      }
      assert events[..|events|] == events;
      forall w | w in log && w.mine ensures LineOf(Words(FormatLogLine(w.entry))) == Some(LineFor(w.entry)) {
        LogLineReadsBack(w.entry);
      }
    }
  }

  function OutcomeOf(task: Task, end: ChildEnd): Outcome {
    if task.probe then Probed(end == Exited(BUSY_EXIT))
    else match end
      case SpawnError => Refused(BoxLockUnavailable)
      case Exited(status) =>
        if status == 0 then Held
        else if task.waiting && task.aborted then Refused(BoxLockAborted)
        else if status != BUSY_EXIT then Refused(BoxLockUnavailable)
        else if !task.waiting && task.waits && !task.aborted then KeepsWaiting
        else Refused(BoxLocked)
      case Signalled => Refused(if task.waiting && task.aborted then BoxLockAborted else BoxLockUnavailable)
  }
}
