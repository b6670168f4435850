/**
 * The cooperative writer lock of the checkout: flock(2) on one fixed file, taken on a descriptor the process opens, or on
 * one that a wrapper which may already hold the lock passes down.
 */
module GitWriterLock {
  import opened Wrappers

  type Fd = nat

  /** An open file description. flock locks it, whichever descriptors refer to it. */
  type Description = nat

  datatype Status = Acquired | Timeout | Unavailable

  /** How the flock child's run goes: it fails, or it waits, and meanwhile the holder may let go. */
  datatype Flock = Fails | Waits(holderLetsGo: bool)

  class Hold {
    const fd: Fd
    const nested: bool
    const writesHolder: bool
    var released: bool

    constructor (fd: Fd, nested: bool, writesHolder: bool)
      ensures this.fd == fd && this.nested == nested && this.writesHolder == writesHolder && !released
    {
      this.fd, this.nested, this.writesHolder, released := fd, nested, writesHolder, false;
    }
  }

  class WriterLock {
    const lockFile: nat
    /** The process's descriptors, what each description has open, and who has the lock. */
    var fds: map<Fd, Description>
    var fileOf: map<Description, nat>
    var lockedBy: Option<Description>
    var nextDescription: Description
    /** The holder file, and the description whose owner wrote it. */
    var holder: Option<Description>
    /** This process's holds that are not released. */
    ghost var active: set<Hold>

    ghost predicate Valid()
      reads this, active
    {
      (forall fd :: fd in fds ==> fds[fd] in fileOf) &&
      (forall d :: d in fileOf ==> d < nextDescription) &&
      (lockedBy.Some? ==> lockedBy.value in fileOf && fileOf[lockedBy.value] == lockFile) &&
      (forall h :: h in active ==> !h.released && h.fd in fds && lockedBy == Some(fds[h.fd]) && (!h.nested ==> IsAlone(h.fd))) &&
      forall a, b :: a in active && b in active && !a.nested && !b.nested && a.fd == b.fd ==> a == b
    }

    /** No other descriptor refers to the description. */
    predicate IsAlone(fd: Fd)
      reads this`fds
    {
      fd in fds && forall other :: other in fds && other != fd ==> fds[other] != fds[fd]
    }

    /**
     * Two runs are under the lock at once only if they share the description that has it, so of the runs that opened the
     * lock file themselves there is at most one, and no other process's is under it.
     */
    lemma AtMostOneRun(a: Hold, b: Hold)
      requires Valid() && a in active && b in active
      ensures fds[a.fd] == fds[b.fd] && lockedBy == Some(fds[a.fd])
      ensures !a.nested && !b.nested ==> a == b
    {
    }

    constructor (lockFile: nat, fds: map<Fd, Description>, fileOf: map<Description, nat>, lockedBy: Option<Description>, next: nat)
      requires (forall fd :: fd in fds ==> fds[fd] in fileOf) && (forall d :: d in fileOf ==> d < next)
      requires lockedBy.Some? ==> lockedBy.value in fileOf && fileOf[lockedBy.value] == lockFile
      ensures Valid() && active == {}
    {
      this.lockFile, this.fds, this.fileOf, this.lockedBy, nextDescription, holder := lockFile, fds, fileOf, lockedBy, next, None;
      active := {};
    }

    /** The descriptor that the environment names, if it is the lock file itself. */
    function InheritedLockFd(named: Option<int>): (r: Option<Fd>)
      requires Valid()
      reads this, active
      ensures r.Some? <==> named.Some? && 3 <= named.value <= 9999 && named.value in fds && fileOf[fds[named.value]] == lockFile
      ensures r.Some? ==> r.value == named.value
    {
      if named.Some? && 3 <= named.value <= 9999 && named.value in fds && fileOf[fds[named.value]] == lockFile
      then Some(named.value)
      else None
    }

    /** The wait is over: the lock was free or this very description's, its holder let go meanwhile, or time ran out. */
    method FlockFd(fd: Fd, flock: Flock) returns (status: Status)
      requires Valid() && fd in fds && fileOf[fds[fd]] == lockFile && (flock == Waits(true) ==> active == {})
      modifies this`lockedBy
      ensures Valid()
      ensures status.Acquired? <==> flock.Waits? && (old(lockedBy) in {None, Some(fds[fd])} || flock.holderLetsGo)
      ensures status.Acquired? ==> lockedBy == Some(fds[fd])
      ensures !status.Acquired? ==> lockedBy == old(lockedBy)
      ensures status.Timeout? ==> lockedBy.Some? && lockedBy != Some(fds[fd])
    {
      if flock.Fails? {
        return Unavailable;
      }
      if lockedBy.Some? && lockedBy.value != fds[fd] && !flock.holderLetsGo {
        return Timeout;
      }
      lockedBy := Some(fds[fd]);
      status := Acquired;
    }

    method Open(fd: Fd)
      requires Valid() && fd !in fds
      modifies this`fds, this`fileOf, this`nextDescription
      ensures Valid() && IsAlone(fd) && fds == old(fds)[fd := old(nextDescription)] && nextDescription == old(nextDescription) + 1
      ensures fileOf == old(fileOf)[old(nextDescription) := lockFile] && lockedBy != Some(fds[fd])
    {
      fds := fds[fd := nextDescription];
      fileOf := fileOf[nextDescription := lockFile];
      nextDescription := nextDescription + 1;
    }

    /** Only a description of this process's own is closed so, and with it goes its lock. */
    method Close(fd: Fd)
      requires Valid() && IsAlone(fd) && forall h :: h in active ==> h.fd != fd
      modifies this`fds, this`fileOf, this`lockedBy
      ensures Valid() && fds == old(fds) - {fd} && fileOf == old(fileOf) - {old(fds)[fd]}
      ensures lockedBy == if old(lockedBy) == Some(old(fds)[fd]) then None else old(lockedBy)
    {
      var d := fds[fd];
      fds := fds - {fd};
      fileOf := fileOf - {d};
      if lockedBy == Some(d) {
        lockedBy := None;
      }
    }

    /**
     * `free` is the descriptor an open would get. Whatever the environment names, an acquired status means that the lock is
     * held on this lock file; any other leaves descriptors and holder file as they were, and takes no lock.
     */
    method AcquireWriterLock(named: Option<int>, free: Fd, opens: bool, flock: Flock, recordHolder: bool)
      returns (status: Status, hold: Option<Hold>)
      requires Valid() && free !in fds && (flock == Waits(true) ==> active == {})
      modifies this
      ensures Valid() && hold.Some? == status.Acquired? && (hold.Some? ==> fresh(hold.value) && !hold.value.released)
      ensures active == old(active) + if hold.Some? then {hold.value} else {}
      ensures hold.Some? ==>
        var fd := hold.value.fd;
        fd in fds && lockedBy == Some(fds[fd]) && fileOf[fds[fd]] == lockFile &&
        hold.value.nested == (old(InheritedLockFd(named)).Some?) && hold.value.writesHolder == (recordHolder && !hold.value.nested)
      ensures hold.Some? && hold.value.nested ==>
        hold.value.fd == named.value && fds == old(fds) && holder == old(holder)
      ensures hold.Some? && !hold.value.nested ==>
        hold.value.fd == free && fds == old(fds)[free := old(nextDescription)] &&
        holder == if recordHolder then Some(old(nextDescription)) else old(holder)
      ensures hold.None? ==> fds == old(fds) && holder == old(holder) && lockedBy == old(lockedBy)
      ensures old(lockedBy).Some? && status.Acquired? ==> flock == Waits(true) || (hold.value.nested && lockedBy == old(lockedBy))
    {
      var inherited := InheritedLockFd(named);
      hold := None;
      var fd;
      if inherited.Some? {
        fd := inherited.value;
      } else {
        if !opens {
          return Unavailable, None;
        }
        fd := free;
        Open(fd);
      }
      status := FlockFd(fd, flock);
      if status != Acquired {
        if inherited.None? {
          Close(fd);
          assert fds == old(fds);
        }
        return;
      }
      var writesHolder := recordHolder && inherited.None?;
      if writesHolder {
        holder := Some(fds[fd]);
      }
      var h := new Hold(fd, inherited.Some?, writesHolder);
      hold, active := Some(h), active + {h};
    }

    /** Once. A nested hold leaves descriptor, lock and holder file to the wrapper, and is released before it. */
    method Release(hold: Hold)
      requires Valid() && (hold.nested ==> !hold.writesHolder) && (!hold.released ==> hold in active)
      requires !hold.released && !hold.nested ==> forall h :: h in active && h != hold ==> h.fd != hold.fd
      modifies this, hold
      ensures Valid() && hold.released && active == old(active) - {hold}
      ensures old(hold.released) || hold.nested ==>
        fds == old(fds) && fileOf == old(fileOf) && lockedBy == old(lockedBy) && holder == old(holder)
      ensures !old(hold.released) && !hold.nested ==> fds == old(fds) - {hold.fd} && lockedBy == None
      ensures !old(hold.released) && hold.writesHolder ==> holder == None
    {
      if hold.released {
        return;
      }
      hold.released := true;
      active := active - {hold};
      if hold.writesHolder {
        holder := None;
      }
      if !hold.nested {
        Close(hold.fd);
      }
    }

    /**
     * A run under the lock leaves the descriptors as they were and, unless it is nested, a free lock. A nested one leaves the
     * lock to the description it was handed, so it gives back what it took exactly when that had the lock before.
     */
    method RunLocked(named: Option<int>, free: Fd, opens: bool, flock: Flock) returns (ran: bool)
      requires Valid() && free !in fds && active == {}
      modifies this
      ensures Valid() && fds == old(fds) && active == {}
      ensures ran && old(InheritedLockFd(named)).None? ==> lockedBy == None && holder == None
      ensures ran && old(InheritedLockFd(named)).Some? ==>
        lockedBy == Some(fds[named.value]) && holder == old(holder) &&
        (lockedBy == old(lockedBy) <==> old(lockedBy) == Some(old(fds)[named.value]))
      ensures !ran ==> lockedBy == old(lockedBy) && holder == old(holder)
    {
      var status, hold := AcquireWriterLock(named, free, opens, flock, true);
      ran := status.Acquired?;
      if ran {
        assert lockedBy == Some(fds[hold.value.fd]);
        Release(hold.value);
        Release(hold.value);
      }
    }
  }
}
