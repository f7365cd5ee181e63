/** The HAL file-descriptor pool: alt_fd_list and its high-water mark.

  Names are already looked up: an open is given the device or file system that
  alt_find_dev or alt_find_file found, and what the driver's own callback
  returns.  A call runs to its end before the next one starts.
*/
module FdPool {
  import opened Options

  const MAX_FD: nat := 32

  // Flag bits of alt_fd, and the bits F_SETFL may change (O_APPEND and
  // O_NONBLOCK of newlib).
  const FD_EXCL: bv32 := 0x8000_0000
  const FD_DEV: bv32 := 0x4000_0000
  const FCNTL_MASK: bv32 := 0x4008

  const O_RDONLY: bv32 := 0
  const O_WRONLY: bv32 := 1

  datatype Fd = Fd(dev: Option<nat>, flags: bv32)

  const FREE := Fd(None, 0)

  // The result of the name lookup.
  datatype Found = Missing | Device(id: nat) | FileSystem(id: nat)

  datatype Errno = Emfile | Enodev | Eacces | Enotty | Ebadfd | Einval | FromDriver(code: nat)

  datatype Result = Ok(value: int) | Err(errno: Errno)

  datatype Request = Tiocexcl | Tiocnxcl | OtherRequest

  datatype Command = GetFl | SetFl(arg: bv32) | OtherCommand

  datatype Pool = Pool(fds: seq<Fd>, maxFd: int)

  predicate ExclBit(flags: bv32) {
    flags & FD_EXCL != 0
  }

  predicate DevBit(flags: bv32) {
    flags & FD_DEV != 0
  }

  predicate Excl(x: Fd) {
    ExclBit(x.flags)
  }

  predicate OnDevice(x: Fd) {
    DevBit(x.flags)
  }

  // The flag updates of open, of the two lock requests and of F_SETFL.
  function NewFlags(device: bool, flags: bv32): bv32 {
    var kept := flags & !(FD_EXCL | FD_DEV);
    if device then kept | FD_DEV else kept
  }

  function LockedFlags(flags: bv32): bv32 {
    flags | FD_EXCL
  }

  function UnlockedFlags(flags: bv32): bv32 {
    flags & !FD_EXCL
  }

  function SetFlFlags(flags: bv32, arg: bv32): bv32 {
    (flags & !FCNTL_MASK) | (arg & FCNTL_MASK)
  }

  lemma NewBits(device: bool, flags: bv32)
    ensures !ExclBit(NewFlags(device, flags)) && (DevBit(NewFlags(device, flags)) <==> device)
  {
    assert (flags & !(FD_EXCL | FD_DEV)) & FD_EXCL == 0 && (flags & !(FD_EXCL | FD_DEV)) & FD_DEV == 0;
    assert ((flags & !(FD_EXCL | FD_DEV)) | FD_DEV) & FD_EXCL == 0;
    assert ((flags & !(FD_EXCL | FD_DEV)) | FD_DEV) & FD_DEV == FD_DEV;
  }

  lemma LockBits(flags: bv32)
    ensures ExclBit(LockedFlags(flags)) && (DevBit(LockedFlags(flags)) <==> DevBit(flags))
  {
    assert (flags | FD_EXCL) & FD_EXCL == FD_EXCL;
    assert (flags | FD_EXCL) & FD_DEV == flags & FD_DEV;
  }

  lemma UnlockBits(flags: bv32)
    ensures !ExclBit(UnlockedFlags(flags)) && (DevBit(UnlockedFlags(flags)) <==> DevBit(flags))
  {
    assert (flags & !FD_EXCL) & FD_EXCL == 0;
    assert (flags & !FD_EXCL) & FD_DEV == flags & FD_DEV;
  }

  lemma MaskTwice(x: bv32, m: bv32, k: bv32)
    ensures (x & m) & k == x & (m & k)
  {
  }

  lemma MaskOr(x: bv32, m: bv32, k: bv32)
    ensures (x | m) & k == (x & k) | (m & k)
  {
  }

  lemma OrNothing(x: bv32)
    ensures x | 0 == x
  {
  }

  lemma Masks()
    ensures FD_EXCL & 0x7FFF_FFFF == 0 && !FD_EXCL & 0x7FFF_FFFF == 0x7FFF_FFFF
    ensures FD_DEV & 0x3FFF_FFFF == 0 && !(FD_EXCL | FD_DEV) & 0x3FFF_FFFF == 0x3FFF_FFFF
  {
  }

  // The two lock requests change the lock bit and no other.
  lemma LockKeeps(flags: bv32)
    ensures LockedFlags(flags) & 0x7FFF_FFFF == flags & 0x7FFF_FFFF
  {
    Masks();
    MaskOr(flags, FD_EXCL, 0x7FFF_FFFF);
    OrNothing(flags & 0x7FFF_FFFF);
  }

  lemma UnlockKeeps(flags: bv32)
    ensures UnlockedFlags(flags) & 0x7FFF_FFFF == flags & 0x7FFF_FFFF
  {
    Masks();
    MaskTwice(flags, !FD_EXCL, 0x7FFF_FFFF);
  }

  // Open keeps every flag of its caller but the two reserved ones.
  lemma NewFlagsKeep(device: bool, flags: bv32)
    ensures NewFlags(device, flags) & 0x3FFF_FFFF == flags & 0x3FFF_FFFF
  {
    var kept := flags & !(FD_EXCL | FD_DEV);
    Masks();
    MaskTwice(flags, !(FD_EXCL | FD_DEV), 0x3FFF_FFFF);
    if device {
      MaskOr(kept, FD_DEV, 0x3FFF_FFFF);
      OrNothing(kept & 0x3FFF_FFFF);
    }
  }

  lemma SetFlBits(flags: bv32, arg: bv32)
    ensures ExclBit(SetFlFlags(flags, arg)) <==> ExclBit(flags)
    ensures DevBit(SetFlFlags(flags, arg)) <==> DevBit(flags)
  {
    assert ((flags & !FCNTL_MASK) | (arg & FCNTL_MASK)) & FD_EXCL == flags & FD_EXCL;
    assert ((flags & !FCNTL_MASK) | (arg & FCNTL_MASK)) & FD_DEV == flags & FD_DEV;
  }

  // F_SETFL sets the flags of the mask to what it is given, and no others.
  lemma SetFlSetsOnly(flags: bv32, arg: bv32)
    ensures SetFlFlags(flags, arg) & FCNTL_MASK == arg & FCNTL_MASK
    ensures SetFlFlags(flags, arg) & !FCNTL_MASK == flags & !FCNTL_MASK
  {
    InsideMask(flags, arg, FCNTL_MASK);
    OutsideMask(flags, arg, FCNTL_MASK);
  }

  lemma InsideMask(x: bv32, y: bv32, m: bv32)
    ensures ((x & !m) | (y & m)) & m == y & m
  {
  }

  lemma OutsideMask(x: bv32, y: bv32, m: bv32)
    ensures ((x & !m) | (y & m)) & !m == x & !m
  {
  }

  function Max(a: int, b: int): int {
    if a < b then b else a
  }

  // Standard input, output and error are always open, no descriptor above
  // them and the high-water mark is, a free descriptor has neither of the two
  // reserved flags, and a descriptor that belongs to a device was opened.
  predicate PoolOk(p: Pool) {
    && |p.fds| == MAX_FD && -1 <= p.maxFd < MAX_FD
    && (forall i :: 0 <= i < 3 ==> p.fds[i].dev.Some?)
    && (forall i :: 0 <= i < MAX_FD && i > Max(2, p.maxFd) ==> p.fds[i].dev.None?)
    && (forall i :: 0 <= i < MAX_FD && p.fds[i].dev.None? ==> !Excl(p.fds[i]) && !OnDevice(p.fds[i]))
    && (forall i :: 0 <= i < MAX_FD && OnDevice(p.fds[i]) ==> p.maxFd > 2)
  }

  predicate IsOpen(p: Pool, fd: int) {
    0 <= fd < |p.fds| && p.fds[fd].dev.Some?
  }

  predicate InPool(p: Pool, fd: int) {
    0 <= fd < |p.fds|
  }

  // The same descriptors are open, and none of those differs.
  predicate SameOpen(a: seq<Fd>, b: seq<Fd>) {
    |a| == |b| && forall i :: 0 <= i < |a| && (a[i].dev.Some? || b[i].dev.Some?) ==> a[i] == b[i]
  }

  // The same above standard input, output and error.
  predicate SameAbove(a: seq<Fd>, b: seq<Fd>) {
    |a| == |b| && forall i :: 3 <= i < |a| && (a[i].dev.Some? || b[i].dev.Some?) ==> a[i] == b[i]
  }

  // ---------------------------------------------------------------------
  // The services on a pool.

  // The lowest free descriptor, or the size of the pool.
  function FirstFree(fds: seq<Fd>): (i: nat)
    ensures i <= |fds|
    ensures forall j :: 0 <= j < i ==> fds[j].dev.Some?
    ensures i < |fds| ==> fds[i].dev.None?
  {
    if fds == [] || fds[0].dev.None? then 0 else 1 + FirstFree(fds[1..])
  }

  // alt_get_fd, alt_release_fd
  function Claim(p: Pool, d: nat, i: nat): Pool
    requires i < |p.fds|
  {
    Pool(p.fds[i := p.fds[i].(dev := Some(d))], Max(i, p.maxFd))
  }

  function Release(p: Pool, fd: int): Pool
    requires fd < |p.fds|
  {
    if fd > 2 then p.(fds := p.fds[fd := FREE]) else p
  }

  // Another descriptor of the device is locked for exclusive access.
  ghost predicate LockedOut(p: Pool, d: nat, self: int) {
    exists i :: 0 <= i < |p.fds| && i != self && p.fds[i].dev == Some(d) && Excl(p.fds[i])
  }

  function SetFlags(p: Pool, fd: int, flags: bv32): Pool
    requires InPool(p, fd)
  {
    p.(fds := p.fds[fd := p.fds[fd].(flags := flags)])
  }

  // ALT_OPEN; status is the driver's answer, 0 without an open callback.
  ghost function Open(p: Pool, found: Found, flags: bv32, status: int): (r: (Pool, Result))
    requires |p.fds| == MAX_FD
    ensures |r.0.fds| == MAX_FD
  {
    if found.Missing? then (p, Err(Enodev))
    else
      var i := FirstFree(p.fds);
      if i == MAX_FD then (p, Err(Emfile))
      else
        var p1 := Claim(p, found.id, i);
        var p2 := p1.(fds := p1.fds[i := Fd(Some(found.id), NewFlags(found.Device?, flags))]);
        if found.Device? && LockedOut(p2, found.id, i) then (Release(p2, i), Err(Eacces))
        else if status < 0 then (Release(p2, i), Err(FromDriver(-status)))
        else (p2, Ok(i))
  }

  // ALT_CLOSE
  function Close(p: Pool, fd: int, status: int): (r: (Pool, Result))
    requires fd < 0 || IsOpen(p, fd)
  {
    if fd < 0 then (p, Err(Ebadfd))
    else (Release(p, fd), if status < 0 then Err(FromDriver(-status)) else Ok(0))
  }

  // The scan of alt_fd_lock stops before the high-water mark.
  ghost predicate SeenByLock(p: Pool, fd: int)
    requires IsOpen(p, fd)
  {
    exists i :: 0 <= i < p.maxFd && i < |p.fds| && i != fd && p.fds[i].dev == p.fds[fd].dev
  }

  // ALT_IOCTL; driver is the answer of the driver's callback, if it has one.
  ghost function Ioctl(p: Pool, fd: int, req: Request, driver: Option<int>): (r: (Pool, Result))
    requires fd < 0 || IsOpen(p, fd)
  {
    if fd < 0 then (p, Err(Ebadfd))
    else if OnDevice(p.fds[fd]) && req.Tiocexcl? then
      if SeenByLock(p, fd) then (p, Err(Eacces))
      else (SetFlags(p, fd, LockedFlags(p.fds[fd].flags)), Ok(0))
    else if OnDevice(p.fds[fd]) && req.Tiocnxcl? then
      (SetFlags(p, fd, UnlockedFlags(p.fds[fd].flags)), Ok(0))
    else
      (p, match driver
          case None => Err(Enotty)
          case Some(rc) => if rc < 0 then Err(FromDriver(-rc)) else Ok(rc))
  }

  // ALT_FCNTL, which does not look whether the descriptor is open.
  function Fcntl(p: Pool, fd: int, cmd: Command): (r: (Pool, Result))
    requires fd < 0 || InPool(p, fd)
  {
    if fd < 0 then (p, Err(Ebadfd))
    else match cmd
         case GetFl => (p, Ok((p.fds[fd].flags & !(FD_EXCL | FD_DEV)) as int))
         case SetFl(arg) =>
           (SetFlags(p, fd, SetFlFlags(p.fds[fd].flags, arg)), Ok(0))
         case OtherCommand => (p, Err(Einval))
  }

  // alt_open_fd into the descriptor fd
  ghost function OpenFd(p: Pool, fd: nat, found: Found, flags: bv32, status: int): (p': Pool)
    requires |p.fds| == MAX_FD && fd < 3
    ensures |p'.fds| == MAX_FD
  {
    var (p1, r) := Open(p, found, flags, status);
    if r.Ok? && 0 <= r.value < MAX_FD then Release(p1.(fds := p1.fds[fd := p1.fds[r.value]]), r.value) else p1
  }

  // ---------------------------------------------------------------------
  // What each service does to a sound pool.

  // Open succeeds exactly if the name is known, a descriptor is free, no
  // other descriptor has locked the device and the driver agrees; then it
  // returns the lowest free descriptor and touches no other.  A failure of
  // any kind leaves every open descriptor as it was and every other one free.
  lemma OpenIsAtomic(p: Pool, found: Found, flags: bv32, status: int)
    requires PoolOk(p)
    ensures var (p', r) := Open(p, found, flags, status); var i := FirstFree(p.fds);
      && PoolOk(p') && p'.maxFd >= p.maxFd
      && (r.Ok? <==> !found.Missing? && i < MAX_FD && status >= 0 && !(found.Device? && LockedOut(p, found.id, -1)))
      && (r.Ok? ==> r == Ok(i) && i > 2 && p'.fds == p.fds[i := Fd(Some(found.id), NewFlags(found.Device?, flags))]
                    && i <= p'.maxFd && !Excl(p'.fds[i]))
      && (r.Err? ==> SameOpen(p.fds, p'.fds))
  {
    var i := FirstFree(p.fds);
    if !found.Missing? && i < MAX_FD {
      NewBits(found.Device?, flags);
      SlotTaken(p, i, Fd(Some(found.id), NewFlags(found.Device?, flags)));
      hide ExclBit, DevBit, NewFlags, LockedOut, PoolOk, SameOpen;
    }
  }

  // Taking the free descriptor i, and giving it back.
  lemma SlotTaken(p: Pool, i: nat, x: Fd)
    requires PoolOk(p) && i == FirstFree(p.fds) < MAX_FD && x.dev.Some? && !Excl(x)
    ensures var p1 := Claim(p, x.dev.value, i); var p2 := p1.(fds := p1.fds[i := x]);
      && i > 2 && p2 == Pool(p.fds[i := x], Max(i, p.maxFd)) && PoolOk(p2)
      && PoolOk(Release(p2, i)) && SameOpen(p.fds, Release(p2, i).fds)
      && (LockedOut(p2, x.dev.value, i) <==> LockedOut(p, x.dev.value, -1))
  {
    hide ExclBit, DevBit;
    OthersLocked(p, i, x, x.dev.value);
    hide LockedOut;
    assert p.fds[i := p.fds[i].(dev := x.dev)][i := x] == p.fds[i := x];
    assert p.fds[i := x][i := FREE] == p.fds[i := FREE];
    assert !Excl(FREE) && !OnDevice(FREE) by { NoFlags(); }
  }

  lemma NoFlags()
    ensures !ExclBit(0) && !DevBit(0)
  {
  }

  // The new descriptor is not in its own way.
  lemma OthersLocked(p: Pool, i: nat, x: Fd, d: nat)
    requires PoolOk(p) && i < MAX_FD && p.fds[i].dev.None?
    ensures LockedOut(p.(fds := p.fds[i := x]), d, i) <==> LockedOut(p, d, -1)
    ensures LockedOut(Pool(p.fds[i := x], Max(i, p.maxFd)), d, i) <==> LockedOut(p, d, -1)
  {
    var fds' := p.fds[i := x];
    if LockedOut(p, d, -1) {
      var j :| 0 <= j < |p.fds| && j != -1 && p.fds[j].dev == Some(d) && Excl(p.fds[j]);
      assert fds'[j] == p.fds[j] && j != i;
    }
    if LockedOut(p.(fds := fds'), d, i) {
      var j :| 0 <= j < |fds'| && j != i && fds'[j].dev == Some(d) && Excl(fds'[j]);
      assert p.fds[j] == fds'[j] && j != -1;
    }
  }

  // Closing what was just opened restores every open descriptor, whatever the
  // driver says about the close.
  lemma CloseUndoesOpen(p: Pool, found: Found, flags: bv32, status: int, closeStatus: int)
    requires PoolOk(p)
    ensures var (p', r) := Open(p, found, flags, status);
      r.Ok? ==> IsOpen(p', r.value) && SameOpen(p.fds, Close(p', r.value, closeStatus).0.fds)
  {
    OpenIsAtomic(p, found, flags, status);
    var (p', r) := Open(p, found, flags, status);
    if r.Ok? {
      assert p'.fds[r.value := FREE] == p.fds[r.value := FREE];
    }
  }

  // A redirection changes one of the three standard descriptors, or nothing:
  // above them the pool is as it was.
  lemma RedirectIsLocal(p: Pool, fd: nat, found: Found, flags: bv32, status: int)
    requires PoolOk(p) && fd < 3
    ensures var p' := OpenFd(p, fd, found, flags, status); var r := Open(p, found, flags, status).1;
      && PoolOk(p') && p'.maxFd >= p.maxFd
      && SameAbove(p.fds, p'.fds)
      && SameOpen(if r.Ok? then p.fds[fd := Fd(Some(found.id), NewFlags(found.Device?, flags))] else p.fds, p'.fds)
  {
    OpenIsAtomic(p, found, flags, status);
    var (p1, r) := Open(p, found, flags, status);
    hide NewFlags, Excl, OnDevice, LockedOut, Open;
    if r.Ok? {
      FdMoved(p, p1, r.value, fd, Fd(Some(found.id), NewFlags(found.Device?, flags)));
    } else {
      hide PoolOk;
      OpenStillAbove(p.fds, p1.fds);
    }
  }

  lemma OpenStillAbove(a: seq<Fd>, b: seq<Fd>)
    requires SameOpen(a, b)
    ensures SameAbove(a, b)
  {
  }

  // The free descriptor i was opened as x, copied to fd, and given back.
  lemma FdMoved(p: Pool, p1: Pool, i: nat, fd: nat, x: Fd)
    requires PoolOk(p) && PoolOk(p1) && fd < 3 <= i < MAX_FD && p.fds[i].dev.None? && x.dev.Some?
    requires p1.fds == p.fds[i := x]
    ensures var p' := Release(p1.(fds := p1.fds[fd := p1.fds[i]]), i);
      PoolOk(p') && p'.maxFd == p1.maxFd && SameAbove(p.fds, p'.fds) && SameOpen(p.fds[fd := x], p'.fds)
  {
    NoFlags();
    hide ExclBit, DevBit;
    assert p.fds[i := x][fd := x][i := FREE] == p.fds[fd := x][i := FREE];
  }

  // alt_io_redirect has no net effect above the standard descriptors.
  lemma RedirectsAreLocal(p: Pool, out: Found, inp: Found, err: Found, outStatus: int, inStatus: int, errStatus: int)
    requires PoolOk(p)
    ensures var p' := OpenFd(OpenFd(OpenFd(p, 1, out, O_WRONLY, outStatus), 0, inp, O_RDONLY, inStatus),
                             2, err, O_WRONLY, errStatus);
      PoolOk(p') && SameAbove(p.fds, p'.fds)
  {
    assert |p.fds| == MAX_FD;
    hide OpenFd, Open, PoolOk, SameOpen;
    var p1 := OpenFd(p, 1, out, O_WRONLY, outStatus);
    var p2 := OpenFd(p1, 0, inp, O_RDONLY, inStatus);
    RedirectIsLocal(p, 1, out, O_WRONLY, outStatus);
    RedirectIsLocal(p1, 0, inp, O_RDONLY, inStatus);
    RedirectIsLocal(p2, 2, err, O_WRONLY, errStatus);
  }

  // ---------------------------------------------------------------------
  // The results and the flags, by their bits: 0x8000_0000 is ALT_FD_EXCL,
  // 0x4000_0000 is ALT_FD_DEV, 0x4008 what F_SETFL may change.

  // The descriptor x was opened for `found` with `flags`.
  predicate OpenedAs(x: Fd, found: Found, flags: bv32) {
    && !found.Missing? && x.dev == Some(found.id)
    && x.flags & 0x3FFF_FFFF == flags & 0x3FFF_FFFF && x.flags & 0x8000_0000 == 0
    && (x.flags & 0x4000_0000 != 0 <==> found.Device?)
  }

  lemma NewIsOpened(found: Found, flags: bv32)
    requires !found.Missing?
    ensures OpenedAs(Fd(Some(found.id), NewFlags(found.Device?, flags)), found, flags)
  {
    NewFlagsKeep(found.Device?, flags);
    NewBits(found.Device?, flags);
  }

  // Another descriptor has the device locked.
  ghost predicate LockedBySome(p: Pool, d: nat) {
    exists i :: 0 <= i < |p.fds| && p.fds[i].dev == Some(d) && p.fds[i].flags & 0x8000_0000 != 0
  }

  lemma LockedOutMeans(p: Pool, d: nat)
    ensures LockedOut(p, d, -1) <==> LockedBySome(p, d)
  {
    if LockedOut(p, d, -1) {
      var i :| 0 <= i < |p.fds| && p.fds[i].dev == Some(d) && Excl(p.fds[i]);
      assert p.fds[i].flags & 0x8000_0000 != 0;
    }
    if LockedBySome(p, d) {
      var i :| 0 <= i < |p.fds| && p.fds[i].dev == Some(d) && p.fds[i].flags & 0x8000_0000 != 0;
      assert Excl(p.fds[i]) && i != -1;
    }
  }

  // Which error open gives, in the order of its tests; on success the lowest
  // free descriptor with the caller's flags, and the high-water mark raised to
  // it.
  lemma OpenOutcome(p: Pool, found: Found, flags: bv32, status: int)
    requires PoolOk(p)
    ensures var (p', r) := Open(p, found, flags, status);
      if found.Missing? then p' == p && r == Err(Enodev)
      else if forall i :: 0 <= i < MAX_FD ==> p.fds[i].dev.Some? then p' == p && r == Err(Emfile)
      else if found.Device? && LockedBySome(p, found.id) then SameOpen(p.fds, p'.fds) && r == Err(Eacces)
      else if status < 0 then SameOpen(p.fds, p'.fds) && r == Err(FromDriver(-status))
      else && r.Ok? && 3 <= r.value < MAX_FD && p.fds[r.value].dev.None?
           && (forall i :: 0 <= i < r.value ==> p.fds[i].dev.Some?)
           && OpenedAs(p'.fds[r.value], found, flags) && p'.maxFd == Max(r.value, p.maxFd)
           && p'.fds == p.fds[r.value := p'.fds[r.value]]
  {
    OpenIsAtomic(p, found, flags, status);
    if !found.Missing? {
      NewIsOpened(found, flags);
      LockedOutMeans(p, found.id);
      var i := FirstFree(p.fds);
      NewBits(found.Device?, flags);
      if i < MAX_FD { SlotTaken(p, i, Fd(Some(found.id), NewFlags(found.Device?, flags))); }
    }
    hide NewFlags, PoolOk, OpenedAs, LockedOut, LockedBySome, SameOpen, OnDevice, Excl;
  }

  // close gives the driver's error or zero, and frees every descriptor but the
  // three standard ones whatever the driver says.
  lemma CloseOutcome(p: Pool, fd: int, status: int)
    requires PoolOk(p) && (fd < 0 || IsOpen(p, fd))
    ensures var (p', r) := Close(p, fd, status);
      && r == (if fd < 0 then Err(Ebadfd) else if status < 0 then Err(FromDriver(-status)) else Ok(0))
      && p'.maxFd == p.maxFd && |p'.fds| == |p.fds|
      && (fd > 2 ==> p'.fds[fd] == Fd(None, 0))
      && forall i :: 0 <= i < MAX_FD && (i != fd || fd <= 2) ==> p'.fds[i] == p.fds[i]
  {
  }

  // Of the flags only the lock bit changed, and it is now as given.
  predicate OnlyLock(flags: bv32, flags': bv32, lock: bool) {
    flags' & 0x7FFF_FFFF == flags & 0x7FFF_FFFF && (flags' & 0x8000_0000 != 0 <==> lock)
  }

  lemma LocksOnly(flags: bv32)
    ensures OnlyLock(flags, LockedFlags(flags), true)
  {
    LockKeeps(flags);
    LockBits(flags);
    hide LockedFlags, DevBit;
  }

  lemma UnlocksOnly(flags: bv32)
    ensures OnlyLock(flags, UnlockedFlags(flags), false)
  {
    UnlockKeeps(flags);
    UnlockBits(flags);
    hide UnlockedFlags, DevBit;
  }

  // Only descriptor fd changed, and of it only the lock bit.
  predicate Locking(p: Pool, p': Pool, fd: int, lock: bool)
    requires InPool(p, fd)
  {
    && p'.maxFd == p.maxFd && |p'.fds| == |p.fds| && p'.fds[fd].dev == p.fds[fd].dev
    && OnlyLock(p.fds[fd].flags, p'.fds[fd].flags, lock)
    && forall i :: 0 <= i < |p.fds| && i != fd ==> p'.fds[i] == p.fds[i]
  }

  // ioctl: the lock requests on a device, otherwise the driver's own answer.
  lemma IoctlOutcome(p: Pool, fd: int, req: Request, driver: Option<int>)
    requires fd < 0 || IsOpen(p, fd)
    ensures var (p', r) := Ioctl(p, fd, req, driver);
      if fd < 0 then p' == p && r == Err(Ebadfd)
      else if p.fds[fd].flags & 0x4000_0000 != 0 && req.Tiocexcl? then
        if exists i :: 0 <= i < p.maxFd && i < |p.fds| && i != fd && p.fds[i].dev == p.fds[fd].dev
        then p' == p && r == Err(Eacces)
        else Locking(p, p', fd, true) && r == Ok(0)
      else if p.fds[fd].flags & 0x4000_0000 != 0 && req.Tiocnxcl? then Locking(p, p', fd, false) && r == Ok(0)
      else p' == p && r == match driver
                           case None => Err(Enotty)
                           case Some(rc) => if rc < 0 then Err(FromDriver(-rc)) else Ok(rc)
  {
    if fd >= 0 {
      LockChanges(p, fd);
      hide LockedFlags, UnlockedFlags, Locking, SetFlags;
    }
  }

  lemma LockChanges(p: Pool, fd: int)
    requires InPool(p, fd)
    ensures Locking(p, SetFlags(p, fd, LockedFlags(p.fds[fd].flags)), fd, true)
    ensures Locking(p, SetFlags(p, fd, UnlockedFlags(p.fds[fd].flags)), fd, false)
  {
    hide OnlyLock, LockedFlags, UnlockedFlags;
    LocksOnly(p.fds[fd].flags);
    UnlocksOnly(p.fds[fd].flags);
  }

  // F_GETFL after a successful open gives the flags of the caller, without the
  // two reserved ones.
  lemma FlagsReadBack(p: Pool, found: Found, flags: bv32, status: int)
    requires PoolOk(p)
    ensures var (p', r) := Open(p, found, flags, status);
      r.Ok? ==> InPool(p', r.value) && Fcntl(p', r.value, GetFl) == (p', Ok((flags & 0x3FFF_FFFF) as int))
  {
    OpenOutcome(p, found, flags, status);
    var (p', r) := Open(p, found, flags, status);
    if r.Ok? { GetFlReads(p', r.value); }
    hide Open, NewFlags;
  }

  lemma GetFlReads(p: Pool, fd: int)
    requires InPool(p, fd)
    ensures Fcntl(p, fd, GetFl) == (p, Ok((p.fds[fd].flags & 0x3FFF_FFFF) as int))
  {
    assert !(FD_EXCL | FD_DEV) == 0x3FFF_FFFF;
  }

  // What F_GETFL makes of the flags, and what F_SETFL does to that.
  function Readable(flags: bv32): bv32 {
    flags & 0x3FFF_FFFF
  }

  predicate SetAs(before: bv32, after: bv32, arg: bv32) {
    after & 0x4008 == arg & 0x4008 && after & !0x4008 == before & !0x4008
  }

  lemma ReadsReadable(p: Pool, fd: int)
    requires InPool(p, fd)
    ensures Fcntl(p, fd, GetFl) == (p, Ok(Readable(p.fds[fd].flags) as int))
  {
    GetFlReads(p, fd);
  }

  lemma SetFlSets(flags: bv32, arg: bv32)
    ensures SetAs(Readable(flags), Readable(SetFlFlags(flags, arg)), arg)
  {
    hide SetFlFlags, Readable, SetAs;
    SetFlSetsOnly(flags, arg);
    ReadBits(flags, SetFlFlags(flags, arg), arg);
  }

  // F_SETFL followed by F_GETFL: the flags of the mask are those given, the
  // others those read before.
  lemma SetFlReadsBack(p: Pool, fd: int, arg: bv32) returns (before: bv32, after: bv32)
    requires InPool(p, fd)
    ensures var (p', r) := Fcntl(p, fd, SetFl(arg));
      && r == Ok(0) && InPool(p', fd) && SetAs(before, after, arg)
      && Fcntl(p, fd, GetFl).1 == Ok(before as int) && Fcntl(p', fd, GetFl).1 == Ok(after as int)
  {
    hide SetFlFlags, Readable, SetAs;
    var flags := p.fds[fd].flags;
    before, after := Readable(flags), Readable(SetFlFlags(flags, arg));
    ReadsReadable(p, fd);
    ReadsReadable(Fcntl(p, fd, SetFl(arg)).0, fd);
    SetFlSets(flags, arg);
  }

  lemma ReadBits(flags: bv32, flags': bv32, arg: bv32)
    requires flags' & FCNTL_MASK == arg & FCNTL_MASK && flags' & !FCNTL_MASK == flags & !FCNTL_MASK
    ensures SetAs(Readable(flags), Readable(flags'), arg)
  {
    MaskTwice(flags', 0x3FFF_FFFF, 0x4008);
    MaskTwice(flags', !0x4008, 0x3FFF_FFFF);
    MaskTwice(flags, !0x4008, 0x3FFF_FFFF);
    Swapped(flags');
    Swapped(flags);
  }

  lemma Swapped(x: bv32)
    ensures (x & 0x3FFF_FFFF) & !0x4008 == (x & !0x4008) & 0x3FFF_FFFF
    ensures (x & 0x3FFF_FFFF) & 0x4008 == x & 0x4008
  {
  }

  // The scan of alt_fd_lock stops before the high-water mark.  So the lock is
  // granted exactly to sole users of a device if and only if the descriptor
  // at the mark is not the one other user that the scan would have to see.
  lemma LockGrantedToSoleUser(p: Pool, fd: int)
    requires PoolOk(p) && IsOpen(p, fd) && OnDevice(p.fds[fd])
    ensures var granted := Ioctl(p, fd, Tiocexcl, None).1.Ok?;
      var sole := forall i :: 0 <= i < MAX_FD && i != fd ==> p.fds[i].dev != p.fds[fd].dev;
      (granted <==> sole) <==>
        || p.maxFd == fd || p.fds[p.maxFd].dev != p.fds[fd].dev
        || exists i :: 0 <= i < p.maxFd && i != fd && p.fds[i].dev == p.fds[fd].dev
  {
    var m := p.maxFd;
    if m != fd && p.fds[m].dev == p.fds[fd].dev && !SeenByLock(p, fd) {
      assert Ioctl(p, fd, Tiocexcl, None).1 == Ok(0);
    }
  }

  // alt_fd_list and alt_max_fd before main; `nul` is alt_dev_null.
  function Initial(nul: nat): Pool {
    Pool(seq(MAX_FD, i => if i < 3 then Fd(Some(nul), 0) else FREE), -1)
  }

  // The case exists: of two descriptors of one device the first gets the lock.
  lemma SharedDeviceLocked(nul: nat, d: nat, flags: bv32)
    requires d != nul
    ensures var p1 := Open(Initial(nul), Device(d), flags, 0).0; var p2 := Open(p1, Device(d), flags, 0).0;
      && IsOpen(p2, 3) && IsOpen(p2, 4) && p2.fds[3].dev == p2.fds[4].dev
      && Ioctl(p2, 3, Tiocexcl, None).1 == Ok(0)
  {
    var p0, x := Initial(nul), Fd(Some(d), NewFlags(true, flags));
    InitialOk(nul);
    OpenIsAtomic(p0, Device(d), flags, 0);
    FirstIs(p0.fds, 3);
    var p1 := Open(p0, Device(d), flags, 0).0;
    OpenIsAtomic(p1, Device(d), flags, 0);
    assert p1.fds == p0.fds[3 := x];
    FirstIs(p1.fds, 4);
    var p2 := Open(p1, Device(d), flags, 0).0;
    assert p2.fds == p1.fds[4 := x];
    NewBits(true, flags);
    hide ExclBit, DevBit, NewFlags, LockedFlags;
    assert OnDevice(p2.fds[3]) && !SeenByLock(p2, 3);
  }

  lemma FirstIs(fds: seq<Fd>, i: nat)
    requires i < |fds| && fds[i].dev.None? && forall j :: 0 <= j < i ==> fds[j].dev.Some?
    ensures FirstFree(fds) == i
  {
  }

  // ---------------------------------------------------------------------
  // Runs.

  datatype Step =
    | DoOpen(found: Found, flags: bv32, status: int)
    | DoClose(fd: int, status: int)
    | DoIoctl(fd: int, req: Request, driver: Option<int>)
    | DoFcntl(fd: int, cmd: Command)
    | DoRedirect(std: nat, found: Found, flags: bv32, status: int)

  // Descriptors passed to close and ioctl are open or negative, those passed to
  // fcntl exist or are negative; redirections go to 0, 1, 2.
  predicate Enabled(p: Pool, a: Step) {
    match a
    case DoOpen(_, _, _) => true
    case DoClose(fd, _) => fd < 0 || IsOpen(p, fd)
    case DoIoctl(fd, _, _) => fd < 0 || IsOpen(p, fd)
    case DoFcntl(fd, _) => fd < 0 || InPool(p, fd)
    case DoRedirect(fd, _, _, _) => fd < 3
  }

  ghost function Apply(p: Pool, a: Step): Pool
    requires |p.fds| == MAX_FD && Enabled(p, a)
  {
    match a
    case DoOpen(found, flags, status) => Open(p, found, flags, status).0
    case DoClose(fd, status) => Close(p, fd, status).0
    case DoIoctl(fd, req, driver) => Ioctl(p, fd, req, driver).0
    case DoFcntl(fd, cmd) => Fcntl(p, fd, cmd).0
    case DoRedirect(fd, found, flags, status) => OpenFd(p, fd, found, flags, status)
  }

  ghost predicate IsRun(states: seq<Pool>, steps: seq<Step>) {
    && |states| == |steps| + 1 && PoolOk(states[0])
    && forall i {:trigger steps[i]} :: 0 <= i < |steps| ==>
         |states[i].fds| == MAX_FD && Enabled(states[i], steps[i]) && states[i + 1] == Apply(states[i], steps[i])
  }

  lemma InitialOk(nul: nat)
    ensures PoolOk(Initial(nul))
  {
  }

  // ioctl and fcntl leave everything but the flags of the one descriptor, its
  // device bit, and the lock bit unless the lock requests change it.
  predicate Reflagged(p: Pool, p': Pool, fd: int, free: bool)
    requires InPool(p, fd) && |p'.fds| == |p.fds|
  {
    && p' == SetFlags(p, fd, p'.fds[fd].flags)
    && (OnDevice(p'.fds[fd]) <==> OnDevice(p.fds[fd]))
    && (Excl(p.fds[fd]) && !free ==> Excl(p'.fds[fd]))
    && (p.fds[fd].dev.None? ==> (Excl(p'.fds[fd]) <==> Excl(p.fds[fd])))
  }

  lemma IoctlIsLocal(p: Pool, fd: int, req: Request, driver: Option<int>)
    requires IsOpen(p, fd)
    ensures |Ioctl(p, fd, req, driver).0.fds| == |p.fds|
    ensures Reflagged(p, Ioctl(p, fd, req, driver).0, fd, req.Tiocnxcl?)
  {
    hide SeenByLock, ExclBit, DevBit, LockedFlags, UnlockedFlags;
    LockBits(p.fds[fd].flags);
    UnlockBits(p.fds[fd].flags);
  }

  lemma FcntlIsLocal(p: Pool, fd: int, cmd: Command)
    requires InPool(p, fd)
    ensures |Fcntl(p, fd, cmd).0.fds| == |p.fds|
    ensures Reflagged(p, Fcntl(p, fd, cmd).0, fd, false)
  {
    hide ExclBit, DevBit, SetFlFlags;
    if cmd.SetFl? { SetFlBits(p.fds[fd].flags, cmd.arg); }
  }

  lemma ReflaggedOk(p: Pool, p': Pool, fd: int, free: bool)
    requires PoolOk(p) && InPool(p, fd) && |p'.fds| == |p.fds| && Reflagged(p, p', fd, free)
    ensures PoolOk(p') && forall f: nat, d :: Holds(p, f, d) && !(f == fd && free) ==> Holds(p', f, d)
  {
    hide Excl, OnDevice;
  }

  lemma ReleasedOk(p: Pool, fd: int)
    requires PoolOk(p) && fd < |p.fds|
    ensures PoolOk(Release(p, fd))
    ensures forall f: nat, d :: Holds(p, f, d) && !(f == fd && fd > 2) ==> Holds(Release(p, fd), f, d)
  {
  }

  lemma StepKeeps(p: Pool, a: Step)
    requires PoolOk(p) && Enabled(p, a)
    ensures PoolOk(Apply(p, a))
    ensures forall fd: nat, d :: Holds(p, fd, d) && !Ends(a, fd) ==> Holds(Apply(p, a), fd, d)
  {
    hide PoolOk, Excl, OnDevice, Open, OpenFd, Release;
    match a
    case DoOpen(found, flags, status) => OpenKeeps(p, found, flags, status);
    case DoClose(fd, status) => if fd >= 0 { ReleasedOk(p, fd); }
    case DoIoctl(fd, req, driver) =>
      if fd >= 0 {
        IoctlIsLocal(p, fd, req, driver);
        ReflaggedOk(p, Ioctl(p, fd, req, driver).0, fd, req.Tiocnxcl?);
      }
    case DoFcntl(fd, cmd) =>
      if fd >= 0 {
        FcntlIsLocal(p, fd, cmd);
        ReflaggedOk(p, Fcntl(p, fd, cmd).0, fd, false);
      }
    case DoRedirect(fd, found, flags, status) => RedirectKeeps(p, fd, found, flags, status);
  }

  lemma OpenKeeps(p: Pool, found: Found, flags: bv32, status: int)
    requires PoolOk(p)
    ensures PoolOk(Open(p, found, flags, status).0)
    ensures forall fd: nat, d :: Holds(p, fd, d) ==> Holds(Open(p, found, flags, status).0, fd, d)
  {
    OpenIsAtomic(p, found, flags, status);
  }

  lemma RedirectKeeps(p: Pool, std: nat, found: Found, flags: bv32, status: int)
    requires PoolOk(p) && std < 3
    ensures PoolOk(OpenFd(p, std, found, flags, status))
    ensures forall fd: nat, d :: Holds(p, fd, d) && fd != std ==> Holds(OpenFd(p, std, found, flags, status), fd, d)
  {
    RedirectIsLocal(p, std, found, flags, status);
  }

  // Descriptor fd is locked for device d.
  predicate Holds(p: Pool, fd: nat, d: nat) {
    fd < |p.fds| && p.fds[fd].dev == Some(d) && Excl(p.fds[fd])
  }

  // The steps that may end the exclusive access of descriptor fd: an unlock,
  // a close above the standard descriptors, a redirection of a standard one.
  predicate Ends(a: Step, fd: nat) {
    match a
    case DoOpen(_, _, _) => false
    case DoClose(f, _) => f == fd && fd > 2
    case DoIoctl(f, req, _) => f == fd && req.Tiocnxcl?
    case DoFcntl(_, _) => false
    case DoRedirect(f, _, _, _) => f == fd
  }

  lemma {:induction false} RunKeeps(states: seq<Pool>, steps: seq<Step>, k: nat)
    requires IsRun(states, steps) && k < |states|
    ensures PoolOk(states[k])
    decreases k
  {
    hide PoolOk;
    if k > 0 {
      RunKeeps(states, steps, k - 1);
      StepKeeps(states[k - 1], steps[k - 1]);
      assert states[k - 1 + 1] == Apply(states[k - 1], steps[k - 1]);
    }
  }

  // While descriptor fd holds exclusive access to device d, no open of d
  // succeeds, whatever else is opened, closed, locked, unlocked or
  // reconfigured in between; nor does a redirection to d.
  lemma {:induction false} ExclusiveAccess(states: seq<Pool>, steps: seq<Step>, k: nat, i: nat, fd: nat, d: nat)
    requires IsRun(states, steps) && k <= i < |steps| && Holds(states[k], fd, d)
    requires forall j :: k <= j < i ==> !Ends(steps[j], fd)
    ensures Holds(states[i], fd, d)
    ensures steps[i].DoOpen? && steps[i].found == Device(d) ==>
              && Open(states[i], Device(d), steps[i].flags, steps[i].status).1.Err?
              && SameOpen(states[i].fds, states[i + 1].fds)
    ensures steps[i].DoRedirect? && steps[i].found == Device(d) ==> SameOpen(states[i].fds, states[i + 1].fds)
    decreases i
  {
    RunKeeps(states, steps, i);
    if k < i {
      RunKeeps(states, steps, i - 1);
      ExclusiveAccess(states, steps, k, i - 1, fd, d);
      StepKeeps(states[i - 1], steps[i - 1]);
      assert states[i - 1 + 1] == Apply(states[i - 1], steps[i - 1]);
    }
    if (steps[i].DoOpen? || steps[i].DoRedirect?) && steps[i].found == Device(d) {
      assert states[i + 1] == Apply(states[i], steps[i]);
      OpenRefused(states[i], fd, d, steps[i].flags, steps[i].status);
    }
  }

  lemma OpenRefused(p: Pool, fd: nat, d: nat, flags: bv32, status: int)
    requires PoolOk(p) && Holds(p, fd, d)
    ensures var (p', r) := Open(p, Device(d), flags, status);
      r.Err? && SameOpen(p.fds, p'.fds) && forall std | 0 <= std < 3 :: OpenFd(p, std, Device(d), flags, status) == p'
  {
    assert LockedOut(p, d, -1);
    OpenIsAtomic(p, Device(d), flags, status);
  }

  // The steps that change what F_GETFL reads from descriptor fd.
  predicate Rewrites(a: Step, fd: nat) {
    match a
    case DoOpen(_, _, _) => false
    case DoClose(f, _) => f == fd && fd > 2
    case DoIoctl(_, _, _) => false
    case DoFcntl(f, cmd) => f == fd && cmd.SetFl?
    case DoRedirect(f, _, _, _) => f == fd
  }

  predicate SameFlags(x: Fd, y: Fd) {
    x.dev == y.dev && Readable(x.flags) == Readable(y.flags)
  }

  lemma OnlyLockReads(flags: bv32, flags': bv32, lock: bool)
    requires OnlyLock(flags, flags', lock)
    ensures Readable(flags') == Readable(flags)
  {
    MaskTwice(flags, 0x7FFF_FFFF, 0x3FFF_FFFF);
    MaskTwice(flags', 0x7FFF_FFFF, 0x3FFF_FFFF);
  }

  lemma FlagsStay(p: Pool, a: Step, fd: nat)
    requires PoolOk(p) && Enabled(p, a) && IsOpen(p, fd) && !Rewrites(a, fd)
    ensures var p' := Apply(p, a); IsOpen(p', fd) && SameFlags(p'.fds[fd], p.fds[fd])
  {
    hide Open, OpenFd, NewFlags, LockedFlags, UnlockedFlags, Readable, OnlyLock, DevBit, ExclBit, LockedOut;
    match a
    case DoOpen(found, flags, status) => OpenIsAtomic(p, found, flags, status);
    case DoClose(f, status) =>
    case DoIoctl(f, req, driver) =>
      if f >= 0 {
        LocksOnly(p.fds[f].flags);
        UnlocksOnly(p.fds[f].flags);
        OnlyLockReads(p.fds[f].flags, LockedFlags(p.fds[f].flags), true);
        OnlyLockReads(p.fds[f].flags, UnlockedFlags(p.fds[f].flags), false);
      }
    case DoFcntl(f, cmd) =>
    case DoRedirect(f, found, flags, status) => RedirectIsLocal(p, f, found, flags, status);
  }

  // F_GETFL reads the same from a descriptor until the descriptor is closed,
  // redirected or changed by F_SETFL: no other call, on any descriptor, and no
  // lock or unlock of this one, shows in its flags.
  lemma FlagsLast(states: seq<Pool>, steps: seq<Step>, k: nat, i: nat, fd: nat)
    requires IsRun(states, steps) && k <= i < |states| && IsOpen(states[k], fd)
    requires forall j :: k <= j < i ==> !Rewrites(steps[j], fd)
    ensures IsOpen(states[i], fd) && states[i].fds[fd].dev == states[k].fds[fd].dev
    ensures Fcntl(states[i], fd, GetFl).1 == Fcntl(states[k], fd, GetFl).1
  {
    FlagsSame(states, steps, k, i, fd);
    hide Readable, IsRun;
    ReadsReadable(states[i], fd);
    ReadsReadable(states[k], fd);
  }

  lemma {:induction false} FlagsSame(states: seq<Pool>, steps: seq<Step>, k: nat, i: nat, fd: nat)
    requires IsRun(states, steps) && k <= i < |states| && IsOpen(states[k], fd)
    requires forall j :: k <= j < i ==> !Rewrites(steps[j], fd)
    ensures IsOpen(states[i], fd) && SameFlags(states[i].fds[fd], states[k].fds[fd])
    decreases i
  {
    hide Readable, PoolOk;
    if k < i {
      FlagsSame(states, steps, k, i - 1, fd);
      RunKeeps(states, steps, i - 1);
      assert states[i - 1 + 1] == Apply(states[i - 1], steps[i - 1]);
      FlagsStay(states[i - 1], steps[i - 1], fd);
    }
  }

  // A redirection opens its standard descriptor as asked, exactly if the open
  // of the same name would succeed.
  lemma RedirectOpens(p: Pool, fd: nat, found: Found, flags: bv32, status: int)
    requires PoolOk(p) && fd < 3
    ensures var p' := OpenFd(p, fd, found, flags, status);
      if Open(p, found, flags, status).1.Ok? then OpenedAs(p'.fds[fd], found, flags) else p'.fds[fd] == p.fds[fd]
    ensures forall i :: 0 <= i < 3 && i != fd ==> OpenFd(p, fd, found, flags, status).fds[i] == p.fds[i]
  {
    RedirectIsLocal(p, fd, found, flags, status);
    if !found.Missing? { NewIsOpened(found, flags); }
    OpenIsAtomic(p, found, flags, status);
    hide NewFlags, OpenedAs, Open, OpenFd, LockedOut;
  }

  // ---------------------------------------------------------------------
  // The services over alt_fd_list itself.

  class FileTable {
    const fds: array<Fd>
    var maxFd: int

    ghost function Abs(): Pool
      reads this, fds
    {
      Pool(fds[..], maxFd)
    }

    ghost predicate Valid()
      reads this, fds
    {
      PoolOk(Abs())
    }

    constructor (nul: nat)
      ensures Valid() && Abs() == Initial(nul) && fresh(fds)
      ensures maxFd == -1 && fds.Length == 32
      ensures forall i :: 0 <= i < 32 ==> fds[i] == if i < 3 then Fd(Some(nul), 0) else Fd(None, 0)
    {
      fds := new Fd[MAX_FD](i => if i < 3 then Fd(Some(nul), 0) else FREE);
      maxFd := -1;
      new;
      assert fds[..] == Initial(nul).fds;
    }

    // alt_get_fd: -1 stands for -EMFILE.
    method GetFd(d: nat) returns (fd: int)
      requires Valid()
      modifies this`maxFd, fds
      ensures var i := FirstFree(old(fds[..]));
        if i == MAX_FD then fd == -1 && Abs() == old(Abs()) else fd == i && Abs() == Claim(old(Abs()), d, i)
    {
      var i := 0;
      while i < MAX_FD
        invariant 0 <= i <= MAX_FD && Abs() == old(Abs())
        invariant forall j :: 0 <= j < i ==> fds[j].dev.Some?
      {
        if fds[i].dev.None? {
          FirstIs(fds[..], i);
          fds[i] := fds[i].(dev := Some(d));
          if i > maxFd {
            maxFd := i;
          }
          return i;
        }
        i := i + 1;
      }
      return -1;
    }

    // alt_release_fd
    method ReleaseFd(fd: int)
      requires fd < fds.Length
      modifies fds
      ensures Abs() == Release(old(Abs()), fd)
    {
      if fd > 2 {
        fds[fd] := fds[fd].(flags := 0);
        fds[fd] := fds[fd].(dev := None);
      }
    }

    // alt_file_locked
    method FileLocked(fd: nat) returns (locked: bool)
      requires fd < fds.Length && fds[fd].dev.Some? && fd <= maxFd < fds.Length
      requires forall i :: 0 <= i < fds.Length && i > Max(2, maxFd) ==> fds[i].dev.None?
      requires maxFd > 2
      modifies fds
      ensures fds[..] == old(fds[..])[fd := Fd(old(fds[fd]).dev, old(fds[fd]).flags | FD_DEV)]
      ensures locked <==> LockedOut(Abs(), fds[fd].dev.value, fd)
    {
      fds[fd] := fds[fd].(flags := fds[fd].flags | FD_DEV);
      hide ExclBit;
      var i := 0;
      while i <= maxFd
        invariant 0 <= i <= maxFd + 1
        invariant forall j :: 0 <= j < i && j != fd ==> !(fds[j].dev == fds[fd].dev && Excl(fds[j]))
      {
        if fds[i].dev == fds[fd].dev && Excl(fds[i]) && i != fd {
          assert LockedOut(Abs(), fds[fd].dev.value, fd);
          return true;
        }
        i := i + 1;
      }
      return false;
    }

    // The flags of the new descriptor, and the lock test for a device.
    method Prepare(fd: nat, found: Found, flags: bv32) returns (locked: bool)
      requires fd < fds.Length && !found.Missing? && fds[fd].dev == Some(found.id)
      requires 2 < maxFd && fd <= maxFd < fds.Length
      requires forall i :: 0 <= i < fds.Length && i > Max(2, maxFd) ==> fds[i].dev.None?
      modifies fds
      ensures Abs() == old(Abs()).(fds := old(fds[..])[fd := Fd(Some(found.id), NewFlags(found.Device?, flags))])
      ensures locked <==> found.Device? && LockedOut(Abs(), found.id, fd)
    {
      hide LockedOut;
      fds[fd] := fds[fd].(flags := flags & !(FD_EXCL | FD_DEV));
      locked := false;
      if found.Device? {
        locked := FileLocked(fd);
      }
    }

    // ALT_OPEN
    method OpenFile(found: Found, flags: bv32, status: int) returns (r: Result)
      requires Valid()
      modifies this`maxFd, fds
      ensures Valid() && (Abs(), r) == Open(old(Abs()), found, flags, status)
    {
      hide NewFlags, LockedOut, OnDevice, Excl;
      OpenIsAtomic(Abs(), found, flags, status);
      if found.Missing? {
        return Err(Enodev);
      }
      var index := GetFd(found.id);
      if index < 0 {
        ReleaseFd(index);
        return Err(Emfile);
      }
      var locked := Prepare(index, found, flags);
      if locked {
        ReleaseFd(index);
        return Err(Eacces);
      }
      if status < 0 {
        ReleaseFd(index);
        return Err(FromDriver(-status));
      }
      return Ok(index);
    }

    // ALT_CLOSE
    method CloseFile(fd: int, status: int) returns (r: Result)
      requires Valid() && (fd < 0 || IsOpen(Abs(), fd))
      modifies fds
      ensures Valid() && (Abs(), r) == Close(old(Abs()), fd, status)
    {
      if fd >= 0 {
        ReleasedOk(Abs(), fd);
        ReleaseFd(fd);
        if status < 0 {
          return Err(FromDriver(-status));
        }
        return Ok(0);
      }
      return Err(Ebadfd);
    }

    // alt_fd_lock
    method FdLock(fd: nat) returns (ok: bool)
      requires Valid() && IsOpen(Abs(), fd)
      modifies fds
      ensures ok <==> !SeenByLock(old(Abs()), fd)
      ensures Abs() == if ok then SetFlags(old(Abs()), fd, LockedFlags(old(fds[fd]).flags)) else old(Abs())
      ensures ok ==> Locking(old(Abs()), Abs(), fd, true)
    {
      hide LockedFlags, UnlockedFlags, OnlyLock;
      LockChanges(Abs(), fd);
      var i := 0;
      while i < maxFd
        invariant 0 <= i <= Max(0, maxFd) && Abs() == old(Abs())
        invariant forall j :: 0 <= j < i && j != fd ==> fds[j].dev != fds[fd].dev
      {
        if i != fd && fds[i].dev == fds[fd].dev {
          assert SeenByLock(Abs(), fd);
          return false;
        }
        i := i + 1;
      }
      assert !SeenByLock(Abs(), fd);
      fds[fd] := fds[fd].(flags := LockedFlags(fds[fd].flags));
      return true;
    }

    // alt_fd_unlock
    method FdUnlock(fd: nat)
      requires IsOpen(Abs(), fd)
      modifies fds
      ensures Abs() == SetFlags(old(Abs()), fd, UnlockedFlags(old(fds[fd]).flags))
      ensures Locking(old(Abs()), Abs(), fd, false)
    {
      hide LockedFlags, UnlockedFlags, OnlyLock;
      LockChanges(Abs(), fd);
      fds[fd] := fds[fd].(flags := UnlockedFlags(fds[fd].flags));
    }

    // ALT_IOCTL
    method IoctlFile(fd: int, req: Request, driver: Option<int>) returns (r: Result)
      requires Valid() && (fd < 0 || IsOpen(Abs(), fd))
      modifies fds
      ensures Valid() && (Abs(), r) == Ioctl(old(Abs()), fd, req, driver)
    {
      hide SeenByLock, LockedFlags, UnlockedFlags, DevBit, ExclBit, PoolOk;
      if fd < 0 {
        return Err(Ebadfd);
      }
      IoctlIsLocal(Abs(), fd, req, driver);
      ReflaggedOk(Abs(), Ioctl(Abs(), fd, req, driver).0, fd, req.Tiocnxcl?);
      if OnDevice(fds[fd]) {
        if req.Tiocexcl? {
          var ok := FdLock(fd);
          return if ok then Ok(0) else Err(Eacces);
        } else if req.Tiocnxcl? {
          FdUnlock(fd);
          return Ok(0);
        }
      }
      match driver {
        case None => return Err(Enotty);
        case Some(rc) => return if rc < 0 then Err(FromDriver(-rc)) else Ok(rc);
      }
    }

    // ALT_FCNTL
    method FcntlFile(fd: int, cmd: Command) returns (r: Result)
      requires Valid() && (fd < 0 || InPool(Abs(), fd))
      modifies fds
      ensures Valid() && (Abs(), r) == Fcntl(old(Abs()), fd, cmd)
    {
      hide PoolOk, ExclBit, DevBit;
      if fd < 0 {
        return Err(Ebadfd);
      }
      FcntlIsLocal(Abs(), fd, cmd);
      ReflaggedOk(Abs(), Fcntl(Abs(), fd, cmd).0, fd, false);
      match cmd {
        case GetFl =>
          return Ok((fds[fd].flags & !(FD_EXCL | FD_DEV)) as int);
        case SetFl(arg) =>
          fds[fd] := fds[fd].(flags := SetFlFlags(fds[fd].flags, arg));
          return Ok(0);
        case OtherCommand =>
          return Err(Einval);
      }
    }

    // alt_open_fd
    method OpenInto(fd: nat, found: Found, flags: bv32, status: int)
      requires Valid() && fd < 3
      modifies this`maxFd, fds
      ensures Valid() && Abs() == OpenFd(old(Abs()), fd, found, flags, status)
    {
      OpenIsAtomic(Abs(), found, flags, status);
      RedirectIsLocal(Abs(), fd, found, flags, status);
      hide Open;
      var r := OpenFile(found, flags, status);
      if r.Ok? {
        var temp := r.value;
        fds[fd] := fds[temp];
        ReleaseFd(temp);
      }
    }

    // alt_io_redirect: the three names as looked up, and the drivers' answers.
    method IoRedirect(out: Found, inp: Found, err: Found, outStatus: int, inStatus: int, errStatus: int)
      requires Valid()
      modifies this`maxFd, fds
      ensures Valid() && SameAbove(old(fds[..]), fds[..])
      ensures Abs() == OpenFd(OpenFd(OpenFd(old(Abs()), 1, out, O_WRONLY, outStatus), 0, inp, O_RDONLY, inStatus),
                              2, err, O_WRONLY, errStatus)
    {
      RedirectsAreLocal(Abs(), out, inp, err, outStatus, inStatus, errStatus);
      hide PoolOk, Open, OpenFd, SameAbove;
      OpenInto(1, out, O_WRONLY, outStatus);
      OpenInto(0, inp, O_RDONLY, inStatus);
      OpenInto(2, err, O_WRONLY, errStatus);
    }
  }
}
