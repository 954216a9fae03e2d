/**
 * The file-descriptor pool: allocation, release, exclusive locks on devices,
 * and the boot-time redirection of the standard streams.
 */
module FdPool {
  import opened Integers
  import opened Options

  datatype Error = EMFILE | EACCES | ENODEV | EBADFD | ENOTTY | EINVAL | Driver(code: int)

  datatype Result<T> = Ok(value: T) | Err(error: Error)

  const MAX_FD: nat := 32
  const FD_EXCL: bv32 := 0x8000_0000
  const FD_DEV: bv32 := 0x4000_0000
  const FD_FLAGS_MASK: bv32 := 0xC000_0000
  /** O_APPEND | O_NONBLOCK */
  const FCNTL_FLAGS_MASK: bv32 := 0x4008

  type UserBits = u: bv32 | u & FD_FLAGS_MASK == 0

  /** What the word fd_flags says: the lock bit, the device bit, and the caller's open flags in the bits below. */
  datatype Flags = Flags(excl: bool, dev: bool, user: UserBits)

  /** What an ioctl asks for: TIOCEXCL, TIOCNXCL, or something for the driver. */
  datatype Request = Exclusive | NonExclusive | Other

  /** A device or filesystem, by its address. */
  type Dev = nat
  const DEV_NULL: Dev := 0

  datatype Fd = Fd(dev: Option<Dev>, priv: int, flags: Flags)

  const NO_FLAGS := Flags(false, false, 0)
  const FREE := Fd(None, 0, NO_FLAGS)

  predicate Excl(f: Fd) { f.flags.excl }

  predicate IsDev(f: Fd) { f.flags.dev }

  predicate Open(f: Fd) { f.dev.Some? }

  // ----- fd_flags as the word it is: every change is the source's bit operation

  /** The two marks as they stand in the word. */
  function Marks(excl: bool, dev: bool): (m: bv32)
    ensures m & !FD_FLAGS_MASK == 0
    ensures (m & FD_EXCL != 0) == excl && (m & FD_DEV != 0) == dev
  {
    if excl then if dev then FD_FLAGS_MASK else FD_EXCL else if dev then FD_DEV else 0
  }

  function Word(f: Flags): (word: bv32) {
    Marks(f.excl, f.dev) | f.user
  }

  lemma BelowTheMarks(word: bv32)
    ensures (word & !FD_FLAGS_MASK) & FD_FLAGS_MASK == 0
  {
  }

  function FromWord(word: bv32): (f: Flags) {
    BelowTheMarks(word);
    Flags(word & FD_EXCL != 0, word & FD_DEV != 0, word & !FD_FLAGS_MASK)
  }

  /** A word made of marks m and user bits u falls apart into them again. */
  lemma Parts(m: bv32, u: bv32)
    requires u & FD_FLAGS_MASK == 0 && m & !FD_FLAGS_MASK == 0
    ensures (m | u) & !FD_FLAGS_MASK == u
    ensures (m | u) & FD_EXCL == m & FD_EXCL && (m | u) & FD_DEV == m & FD_DEV
  {
  }

  lemma OrIn(m: bv32, u: bv32, b: bv32)
    ensures (m | u) | b == (m | b) | u
  {
  }

  lemma ClearIn(m: bv32, u: bv32)
    requires u & FD_FLAGS_MASK == 0
    ensures (m | u) & !FD_EXCL == (m & !FD_EXCL) | u
  {
  }

  lemma UpdateIn(m: bv32, u: bv32, arg: bv32)
    requires u & FD_FLAGS_MASK == 0 && m & !FD_FLAGS_MASK == 0
    ensures ((m | u) & !FCNTL_FLAGS_MASK) | (arg & FCNTL_FLAGS_MASK) == m | ((u & !FCNTL_FLAGS_MASK) | (arg & FCNTL_FLAGS_MASK))
    ensures ((u & !FCNTL_FLAGS_MASK) | (arg & FCNTL_FLAGS_MASK)) & FD_FLAGS_MASK == 0
  {
  }

  lemma MarksChange(excl: bool, dev: bool)
    ensures Marks(excl, dev) | FD_EXCL == Marks(true, dev) && Marks(excl, dev) | FD_DEV == Marks(excl, true)
    ensures Marks(excl, dev) & !FD_EXCL == Marks(false, dev)
  {
  }

  /** Nothing of the flags is lost in the word. */
  lemma FlagsOfWord(f: Flags)
    ensures FromWord(Word(f)) == f
  {
    Parts(Marks(f.excl, f.dev), f.user);
  }

  function WithLock(f: Flags): (l: Flags)
    ensures l == f.(excl := true)
  {
    OrIn(Marks(f.excl, f.dev), f.user, FD_EXCL);
    MarksChange(f.excl, f.dev);
    FlagsOfWord(f.(excl := true));
    FromWord(Word(f) | FD_EXCL)
  }

  function WithoutLock(f: Flags): (l: Flags)
    ensures l == f.(excl := false)
  {
    ClearIn(Marks(f.excl, f.dev), f.user);
    MarksChange(f.excl, f.dev);
    FlagsOfWord(f.(excl := false));
    FromWord(Word(f) & !FD_EXCL)
  }

  function AsDevice(f: Flags): (l: Flags)
    ensures l == f.(dev := true)
  {
    OrIn(Marks(f.excl, f.dev), f.user, FD_DEV);
    MarksChange(f.excl, f.dev);
    FlagsOfWord(f.(dev := true));
    FromWord(Word(f) | FD_DEV)
  }

  /** The flags passed to open can set neither mark. */
  function Opened(flags: bv32): (l: Flags)
    ensures !l.excl && !l.dev && l.user == flags & !FD_FLAGS_MASK
  {
    BelowTheMarks(flags);
    Parts(0, flags & !FD_FLAGS_MASK);
    FromWord(flags & !FD_FLAGS_MASK)
  }

  function NewBits(u: UserBits, arg: bv32): (u': UserBits) {
    UpdateIn(0, u, arg);
    (u & !FCNTL_FLAGS_MASK) | (arg & FCNTL_FLAGS_MASK)
  }

  lemma UpdatedWord(f: Flags, arg: bv32)
    ensures (Word(f) & !FCNTL_FLAGS_MASK) | (arg & FCNTL_FLAGS_MASK) == Word(f.(user := NewBits(f.user, arg)))
  {
    UpdateIn(Marks(f.excl, f.dev), f.user, arg);
  }

  /** Nor can fcntl's, which changes two bits below them. */
  function Updated(f: Flags, arg: bv32): (l: Flags)
    ensures l == f.(user := NewBits(f.user, arg))
  {
    UpdatedWord(f, arg);
    FlagsOfWord(f.(user := NewBits(f.user, arg)));
    FromWord((Word(f) & !FCNTL_FLAGS_MASK) | (arg & FCNTL_FLAGS_MASK))
  }

  /** Another descriptor below limit refers to fd's device. */
  ghost predicate SharedBelow(l: seq<Fd>, limit: int, fd: nat)
    requires fd < |l| && limit <= |l|
  {
    exists i | 0 <= i < limit :: i != fd && l[i].dev == l[fd].dev
  }

  ghost predicate Shared(l: seq<Fd>, fd: nat)
    requires fd < |l|
  {
    SharedBelow(l, |l|, fd)
  }

  /** Some descriptor holds the device. */
  ghost predicate Held(l: seq<Fd>, dev: Dev) {
    exists i | 0 <= i < |l| :: l[i].dev == Some(dev) && Excl(l[i])
  }

  /** An open finds its device, no holder, a free descriptor and a willing driver. */
  ghost predicate CanOpen(l: seq<Fd>, found: Option<Dev>, status: int) {
    found.Some? && !Held(l, found.value) && status >= 0 && exists i | 0 <= i < |l| :: !Open(l[i])
  }

  ghost predicate LowestFree(l: seq<Fd>, fd: nat) {
    fd < |l| && !Open(l[fd]) && forall i | 0 <= i < fd :: Open(l[i])
  }

  /** The high-water mark after an open, failed or not. */
  ghost predicate MaxAfterOpen(l: seq<Fd>, m: int, found: Option<Dev>, m': int) {
    && ((found.None? || forall i | 0 <= i < |l| :: Open(l[i])) ==> m' == m)
    && forall fd: nat | found.Some? && LowestFree(l, fd) :: m' == Max(m, fd)
  }

  /** Why an open fails. */
  ghost function OpenError(l: seq<Fd>, found: Option<Dev>, status: int): (r: Error) {
    if found.None? then ENODEV
    else if forall i | 0 <= i < |l| :: Open(l[i]) then EMFILE
    else if Held(l, found.value) then EACCES
    else Driver(-status)
  }

  /** No device has two holders. */
  ghost predicate OneHolder(l: seq<Fd>) {
    forall i, j | 0 <= i < j < |l| :: Excl(l[i]) && Excl(l[j]) ==> l[i].dev != l[j].dev
  }

  /**
   * What every operation keeps. The last line is why one holder per device
   * survives a lock scan that leaves out the highest descriptor.
   */
  ghost predicate Inv(l: seq<Fd>, maxFd: int, filesystems: set<Dev>) {
    && |l| == MAX_FD && -1 <= maxFd < MAX_FD
    && (forall i | 0 <= i <= 2 :: Open(l[i]))
    && (forall i | 0 <= i < MAX_FD :: Open(l[i]) ==> i <= maxFd || i <= 2)
    && (forall i | 0 <= i < MAX_FD :: !Open(l[i]) ==> l[i].flags == NO_FLAGS)
    && (forall i | 0 <= i < MAX_FD :: IsDev(l[i]) ==> 3 <= maxFd && l[i].dev.Some? && l[i].dev.value !in filesystems)
    && (forall i | 0 <= i < MAX_FD :: Excl(l[i]) ==> IsDev(l[i]))
    && (forall i, j | 0 <= i < MAX_FD && 0 <= j < MAX_FD :: Excl(l[i]) && j != i && l[j].dev == l[i].dev ==> i < j)
  }

  lemma InvGivesOneHolder(l: seq<Fd>, maxFd: int, filesystems: set<Dev>)
    requires Inv(l, maxFd, filesystems)
    ensures OneHolder(l)
  {
  }

  /** A granted lock leaves fd the only user of its device exactly when the descriptor the scan skips is fd or another device's. */
  lemma LockIsSoleIff(l: seq<Fd>, maxFd: int, filesystems: set<Dev>, fd: nat)
    requires Inv(l, maxFd, filesystems) && fd < MAX_FD && IsDev(l[fd]) && !SharedBelow(l, maxFd, fd)
    ensures !Shared(l, fd) <==> fd == maxFd || l[maxFd].dev != l[fd].dev
  {
    if fd != maxFd && l[maxFd].dev == l[fd].dev {
      assert SharedBelow(l, |l|, fd);
    }
  }

  /** A descriptor is added for a device nobody holds. */
  lemma AddKeepsInv(l: seq<Fd>, maxFd: int, filesystems: set<Dev>, fd: nat, f: Fd)
    requires Inv(l, maxFd, filesystems) && fd < MAX_FD && !Open(l[fd])
    requires f.dev.Some? && !Excl(f) && IsDev(f) == (f.dev.value !in filesystems) && !Held(l, f.dev.value)
    ensures Inv(l[fd := f], Max(maxFd, fd), filesystems)
  {
    forall i | 0 <= i < MAX_FD && Excl(l[i]) ensures l[i].dev != f.dev {}
  }

  /** A descriptor is taken back: one that was free, or one that is open. */
  lemma DropKeepsInv(l: seq<Fd>, maxFd: int, filesystems: set<Dev>, fd: nat, high: int, priv: int)
    requires Inv(l, maxFd, filesystems) && 2 < fd < MAX_FD && maxFd <= high < MAX_FD
    ensures Inv(l[fd := FREE.(priv := priv)], high, filesystems)
  {
  }

  /** The scan of alt_file_locked reaches every holder. */
  lemma HolderIsInReach(l: seq<Fd>, maxFd: int, filesystems: set<Dev>, fd: nat, dev: Dev)
    requires Inv(l, maxFd, filesystems) && fd < MAX_FD && !Open(l[fd]) && Held(l, dev)
    ensures dev !in filesystems
    ensures exists i | 0 <= i <= Max(maxFd, fd) :: i != fd && l[i].dev == Some(dev) && Excl(l[i])
  {
    var i :| 0 <= i < |l| && l[i].dev == Some(dev) && Excl(l[i]);
    assert IsDev(l[i]);
  }

  /** Flags other than the marks change, or the lock is dropped. */
  lemma FlagsKeepInv(l: seq<Fd>, maxFd: int, filesystems: set<Dev>, fd: nat, flags: Flags)
    requires Inv(l, maxFd, filesystems) && fd < MAX_FD && Open(l[fd])
    requires flags.dev == l[fd].flags.dev && (flags.excl ==> l[fd].flags.excl)
    ensures Inv(l[fd := l[fd].(flags := flags)], maxFd, filesystems)
  {
  }

  function Locked(f: Fd): (r: Fd) { f.(flags := WithLock(f.flags)) }

  function Unlocked(f: Fd): (r: Fd) { f.(flags := WithoutLock(f.flags)) }

  /** A lock is granted: the only sharer the scan can have missed is higher. */
  lemma HolderKeepsInv(l: seq<Fd>, maxFd: int, filesystems: set<Dev>, fd: nat)
    requires Inv(l, maxFd, filesystems) && fd < MAX_FD && IsDev(l[fd]) && !SharedBelow(l, maxFd, fd)
    ensures Inv(l[fd := Locked(l[fd])], maxFd, filesystems)
  {
    forall j | 0 <= j < MAX_FD && j != fd && l[j].dev == l[fd].dev ensures fd < j && !Excl(l[j]) {
      assert j >= maxFd;
    }
  }

  /** A descriptor without a lock on its device moves to a standard stream. */
  lemma MoveKeepsInv(l: seq<Fd>, maxFd: int, filesystems: set<Dev>, stream: nat, fd: nat)
    requires Inv(l, maxFd, filesystems) && stream <= 2 < fd < MAX_FD && Open(l[fd])
    requires forall i | 0 <= i < MAX_FD && l[i].dev == l[fd].dev :: !Excl(l[i])
    ensures Inv(l[stream := l[fd]][fd := FREE.(priv := l[fd].priv)], maxFd, filesystems)
  {
  }

  /** The scan of alt_file_locked finds a holder exactly when there is one. */
  lemma Verdict(l: seq<Fd>, maxFd: int, filesystems: set<Dev>, fd: nat, dev: Dev, now: seq<Fd>, locked: bool)
    requires Inv(l, maxFd, filesystems) && fd < MAX_FD && !Open(l[fd])
    requires |now| == MAX_FD && now == l[fd := now[fd]]
    requires locked <==>
               dev !in filesystems && exists i | 0 <= i <= Max(maxFd, fd) :: i != fd && now[i].dev == Some(dev) && Excl(now[i])
    ensures locked <==> Held(l, dev)
  {
    if locked {
      var i :| 0 <= i <= Max(maxFd, fd) && i != fd && now[i].dev == Some(dev) && Excl(now[i]);
      assert now[i] == l[i];
    }
    if Held(l, dev) {
      HolderIsInReach(l, maxFd, filesystems, fd, dev);
      var i :| 0 <= i <= Max(maxFd, fd) && i != fd && l[i].dev == Some(dev) && Excl(l[i]);
      assert now[i] == l[i];
    }
  }

  class Pool {
    const fds: array<Fd>
    var maxFd: int
    const filesystems: set<Dev>

    ghost predicate Valid()
      reads this, fds
    {
      fds.Length == MAX_FD && Inv(fds[..], maxFd, filesystems)
    }

    /** The pool at reset: the standard streams on the null device. */
    constructor (filesystems: set<Dev>)
      ensures Valid() && fresh(fds) && this.filesystems == filesystems && maxFd == -1
      ensures fds[..] == seq(MAX_FD, i => if i <= 2 then Fd(Some(DEV_NULL), 0, NO_FLAGS) else FREE)
    {
      fds := new Fd[MAX_FD](i => if i <= 2 then Fd(Some(DEV_NULL), 0, NO_FLAGS) else FREE);
      maxFd := -1;
      this.filesystems := filesystems;
      new;
      assert fds[..] == seq(MAX_FD, i => if i <= 2 then Fd(Some(DEV_NULL), 0, NO_FLAGS) else FREE);
    }

    /** alt_get_fd: the lowest free descriptor. */
    method GetFd(dev: Dev) returns (r: Result<nat>)
      requires fds.Length == MAX_FD && -1 <= maxFd < MAX_FD
      modifies this`maxFd, fds
      ensures r.Ok? ==>
                && r.value < MAX_FD && !Open(old(fds[r.value])) && (forall i | 0 <= i < r.value :: Open(old(fds[i])))
                && fds[..] == old(fds[..])[r.value := old(fds[r.value]).(dev := Some(dev))]
                && maxFd == if r.value > old(maxFd) then r.value else old(maxFd)
      ensures r.Err? ==>
                && r.error == EMFILE && (forall i | 0 <= i < MAX_FD :: Open(old(fds[i])))
                && fds[..] == old(fds[..]) && maxFd == old(maxFd)
    {
      for i := 0 to MAX_FD
        invariant forall k | 0 <= k < i :: Open(fds[k])
        invariant fds[..] == old(fds[..]) && maxFd == old(maxFd)
      {
        if !Open(fds[i]) {
          fds[i] := fds[i].(dev := Some(dev));
          if i > maxFd { maxFd := i; }
          return Ok(i);
        }
      }
      return Err(EMFILE);
    }

    /** alt_release_fd: the standard streams are never given back. */
    method ReleaseFd(fd: int)
      requires fds.Length == MAX_FD && fd < MAX_FD
      modifies fds
      ensures fds[..] == if fd > 2 then old(fds[..])[fd := FREE.(priv := old(fds[fd]).priv)] else old(fds[..])
    {
      if fd > 2 {
        fds[fd] := fds[fd].(flags := NO_FLAGS);
        fds[fd] := fds[fd].(dev := None);
      }
    }

    /** alt_file_locked: marks fd as a device's, then looks for a holder. */
    method FileLocked(fd: nat) returns (locked: bool)
      requires fds.Length == MAX_FD && fd < MAX_FD && 0 <= maxFd < MAX_FD
      modifies fds
      ensures fds[..] == old(fds[..])[fd := old(fds[fd]).(flags := old(fds[fd]).flags.(dev := true))]
      ensures locked <==> exists i | 0 <= i <= maxFd :: i != fd && fds[i].dev == fds[fd].dev && Excl(fds[i])
    {
      fds[fd] := fds[fd].(flags := AsDevice(fds[fd].flags));
      for i := 0 to maxFd + 1
        invariant forall k | 0 <= k < i :: k == fd || fds[k].dev != fds[fd].dev || !Excl(fds[k])
      {
        if fds[i].dev == fds[fd].dev && Excl(fds[i]) && i != fd { return true; }
      }
      return false;
    }

    /** What open does with a fresh descriptor: the lock check unless it is a filesystem's, then the driver's open. */
    method Admit(fd: nat, dev: Dev, status: int) returns (error: Option<Error>)
      requires fds.Length == MAX_FD && fd < MAX_FD && 0 <= maxFd < MAX_FD && fds[fd].dev == Some(dev)
      modifies fds
      ensures fds[..] == old(fds[..])[fd := fds[fd]]
      ensures fds[fd] == if dev in filesystems then old(fds[fd]) else old(fds[fd]).(flags := old(fds[fd]).flags.(dev := true))
      ensures error == Some(EACCES) <==>
                dev !in filesystems && exists i | 0 <= i <= maxFd :: i != fd && fds[i].dev == Some(dev) && Excl(fds[i])
      ensures error.Some? && error != Some(EACCES) ==> error == Some(Driver(-status)) && status < 0
      ensures error.None? ==> status >= 0
    {
      if dev !in filesystems {
        var locked := FileLocked(fd);
        if locked { return Some(EACCES); }
      }
      return if status < 0 then Some(Driver(-status)) else None;
    }

    /**
     * open. found is what the name resolves to, status what the driver's open
     * callback returns (zero when it has none).
     */
    method OpenFile(found: Option<Dev>, flags: bv32, status: int) returns (r: Result<nat>)
      requires Valid()
      modifies this`maxFd, fds
      ensures Valid()
      ensures r.Ok? <==> CanOpen(old(fds[..]), found, status)
      ensures MaxAfterOpen(old(fds[..]), old(maxFd), found, maxFd)
      ensures r.Ok? ==>
                && 2 < r.value < MAX_FD && LowestFree(old(fds[..]), r.value)
                && fds[r.value].dev == found
                && fds[r.value].flags == Opened(flags).(dev := found.value !in filesystems)
                && fds[..] == old(fds[..])[r.value := fds[r.value]]
      ensures r.Err? ==> r.error == OpenError(old(fds[..]), found, status) && fds[..] == old(fds[..])
    {
      if found.None? { return Err(ENODEV); }
      var got := GetFd(found.value);
      if got.Err? { return got; }
      assert forall fd: nat | LowestFree(old(fds[..]), fd) :: fd == got.value by {
        assert !Open(old(fds[..])[got.value]);
      }
      r := Settle(got.value, found.value, flags, status, old(fds[..]), old(maxFd));
    }

    /** The rest of open once it has a descriptor. */
    method Settle(fd: nat, dev: Dev, flags: bv32, status: int, ghost l: seq<Fd>, ghost m: int) returns (r: Result<nat>)
      requires fds.Length == MAX_FD && Inv(l, m, filesystems) && fd < MAX_FD && !Open(l[fd])
      requires fds[..] == l[fd := l[fd].(dev := Some(dev))] && maxFd == Max(m, fd)
      modifies fds
      ensures Valid()
      ensures Held(l, dev) ==> r == Err(EACCES)
      ensures r == Err(EACCES) ==> Held(l, dev)
      ensures r.Ok? ==>
                && r == Ok(fd) && fds[fd].dev == Some(dev)
                && fds[fd].flags == Opened(flags).(dev := dev !in filesystems)
      ensures r.Ok? ==> fds[..] == l[fd := fds[fd]]
      ensures r.Err? ==> fds[..] == l && maxFd == Max(m, fd) && (Held(l, dev) || (status < 0 && r == Err(Driver(-status))))
      ensures r.Ok? ==> status >= 0
    {
      fds[fd] := fds[fd].(flags := Opened(flags));
      var error := Admit(fd, dev, status);
      assert fds[..] == l[fd := fds[fd]];
      Verdict(l, m, filesystems, fd, dev, fds[..], error == Some(EACCES));
      if error.Some? {
        DropKeepsInv(l, m, filesystems, fd, maxFd, l[fd].priv);
        ReleaseFd(fd);
        assert fds[..] == l[fd := FREE.(priv := l[fd].priv)] == l;
        return Err(error.value);
      }
      AddKeepsInv(l, m, filesystems, fd, fds[fd]);
      return Ok(fd);
    }

    /**
     * close; rval is what the driver's close callback returns. Closing a
     * standard stream gives nothing back, not even its lock.
     */
    method Close(fildes: int, rval: int) returns (r: Result<nat>)
      requires Valid() && fildes < MAX_FD && (fildes >= 0 ==> Open(fds[fildes]))
      modifies fds
      ensures Valid()
      ensures fildes > 2 ==> !Open(fds[fildes]) && fds[..] == old(fds[..])[fildes := fds[fildes]]
      ensures fildes <= 2 ==> fds[..] == old(fds[..])
      ensures r == if fildes < 0 then Err(EBADFD) else if rval < 0 then Err(Driver(-rval)) else Ok(0)
    {
      if fildes < 0 { return Err(EBADFD); }
      if fildes > 2 { DropKeepsInv(fds[..], maxFd, filesystems, fildes, maxFd, fds[fildes].priv); }
      ReleaseFd(fildes);
      return if rval < 0 then Err(Driver(-rval)) else Ok(0);
    }

    /** alt_fd_lock: the scan stops short of the highest descriptor ever allocated. */
    method Lock(fd: nat) returns (r: Result<int>)
      requires Valid() && fd < MAX_FD && IsDev(fds[fd])
      modifies fds
      ensures Valid()
      ensures r == if SharedBelow(old(fds[..]), maxFd, fd) then Err(EACCES) else Ok(0)
      ensures r.Err? ==> fds[..] == old(fds[..])
      ensures r.Ok? ==> fds[..] == old(fds[..])[fd := fds[fd]] && fds[fd] == Locked(old(fds[fd]))
    {
      for i := 0 to maxFd
        invariant forall k | 0 <= k < i :: k == fd || fds[k].dev != fds[fd].dev
      {
        if i != fd && fds[i].dev == fds[fd].dev {
          assert fds[..][i].dev == fds[..][fd].dev;
          return Err(EACCES);
        }
      }
      HolderKeepsInv(fds[..], maxFd, filesystems, fd);
      fds[fd] := Locked(fds[fd]);
      return Ok(0);
    }

    /** ioctl; status is what the driver's ioctl callback returns, if it has one. */
    method Ioctl(file: int, request: Request, status: Option<int>) returns (r: Result<int>)
      requires Valid() && file < MAX_FD && (file >= 0 ==> Open(fds[file]))
      modifies fds
      ensures Valid()
      ensures file < 0 ==> r == Err(EBADFD)
      ensures file >= 0 && (request == Other || !IsDev(old(fds[file]))) ==>
                fds[..] == old(fds[..]) && r == match status
                                                case None => Err(ENOTTY)
                                                case Some(rc) => if rc < 0 then Err(Driver(-rc)) else Ok(rc)
      ensures file >= 0 && IsDev(old(fds[file])) && request == Exclusive ==>
                && r == (if SharedBelow(old(fds[..]), maxFd, file) then Err(EACCES) else Ok(0))
                && (r.Err? ==> fds[..] == old(fds[..]))
                && (r.Ok? ==> fds[..] == old(fds[..])[file := fds[file]] && fds[file] == Locked(old(fds[file])))
      ensures file >= 0 && IsDev(old(fds[file])) && request == NonExclusive ==>
                r == Ok(0) && fds[..] == old(fds[..])[file := fds[file]] && fds[file] == Unlocked(old(fds[file]))
      ensures file < 0 ==> fds[..] == old(fds[..])
    {
      if file < 0 { return Err(EBADFD); }
      if IsDev(fds[file]) {
        if request == Exclusive {
          r := Lock(file);
          return;
        } else if request == NonExclusive {
          FlagsKeepInv(fds[..], maxFd, filesystems, file, Unlocked(fds[file]).flags);
          fds[file] := Unlocked(fds[file]);
          return Ok(0);
        }
      }
      match status
      case None => return Err(ENOTTY);
      case Some(rc) => return if rc < 0 then Err(Driver(-rc)) else Ok(rc);
    }

    /** fcntl with F_SETFL; it can neither take nor drop a lock. */
    method SetFlags(file: int, flags: bv32) returns (r: Result<int>)
      requires Valid() && file < MAX_FD && (file >= 0 ==> Open(fds[file]))
      modifies fds
      ensures Valid()
      ensures r == if file < 0 then Err(EBADFD) else Ok(0)
      ensures file < 0 ==> fds[..] == old(fds[..])
      ensures file >= 0 ==>
                var f := old(fds[file]).flags;
                fds[..] == old(fds[..])[file := old(fds[file]).(flags := Updated(f, flags))]
    {
      if file < 0 { return Err(EBADFD); }
      var f := fds[file].flags;
      FlagsKeepInv(fds[..], maxFd, filesystems, file, Updated(f, flags));
      fds[file] := fds[file].(flags := Updated(f, flags));
      return Ok(0);
    }

    /**
     * alt_open_fd: open the device anew, move it to the given stream, give the
     * new descriptor back. Nothing happens when the open fails.
     */
    method Redirect(stream: nat, found: Option<Dev>, flags: bv32, status: int)
      requires Valid() && stream <= 2
      modifies this`maxFd, fds
      ensures Valid()
      ensures forall i | 0 <= i < MAX_FD && i != stream :: fds[i].dev == old(fds[i]).dev && fds[i].flags == old(fds[i]).flags
      ensures if CanOpen(old(fds[..]), found, status)
              then fds[stream].dev == found && fds[stream].flags == Opened(flags).(dev := found.value !in filesystems)
              else fds[stream] == old(fds[stream])
    {
      ghost var l := fds[..];
      var got := OpenFile(found, flags, status);
      if got.Ok? {
        var fd := got.value;
        ghost var l1 := fds[..];
        fds[stream] := fds[fd];
        MoveKeepsInv(l1, maxFd, filesystems, stream, fd);
        ReleaseFd(fd);
      }
    }
  }

  // ----- whole runs

  /** System calls; those on a descriptor that is not open, which the callers must not make, are left out of a run. */
  datatype Call =
    | CallOpen(found: Option<Dev>, flags: bv32, status: int)
    | CallClose(fildes: int, rval: int)
    | CallIoctl(file: int, request: Request, answer: Option<int>)
    | CallSetFlags(file: int, flags: bv32)

  predicate Lawful(l: seq<Fd>, call: Call)
    requires |l| == MAX_FD
  {
    match call
    case CallOpen(_, _, _) => true
    case CallClose(fd, _) => fd < MAX_FD && (fd >= 0 ==> Open(l[fd]))
    case CallIoctl(fd, _, _) => fd < MAX_FD && (fd >= 0 ==> Open(l[fd]))
    case CallSetFlags(fd, _) => fd < MAX_FD && (fd >= 0 ==> Open(l[fd]))
  }

  /** What a call on pool l returns, and the pool it leaves: the locks, seen by the callers. */
  ghost predicate Answers(filesystems: set<Dev>, l: seq<Fd>, m: int, call: Call, reply: Option<Result<int>>,
                          l': seq<Fd>, m': int)
    requires |l| == |l'| == MAX_FD && m <= MAX_FD
  {
    (!call.CallOpen? ==> m' == m) &&
    if !Lawful(l, call) then reply.None? && l' == l else reply.Some? && match call
      case CallOpen(found, flags, status) =>
        && (reply.value.Ok? <==> CanOpen(l, found, status)) && MaxAfterOpen(l, m, found, m')
        && (reply.value.Err? ==> reply.value.error == OpenError(l, found, status) && l' == l)
        && (reply.value.Ok? ==>
              var fd := reply.value.value;
              && 2 < fd && LowestFree(l, fd) && l' == l[fd := l'[fd]]
              && l'[fd].dev == found && l'[fd].flags == Opened(flags).(dev := found.value !in filesystems))
      case CallClose(fd, rval) =>
        && (reply.value.Ok? <==> fd >= 0 && rval >= 0)
        && (if fd > 2 then !Open(l'[fd]) && l' == l[fd := l'[fd]] else l' == l)
      case CallIoctl(fd, request, answer) =>
        if fd >= 0 && IsDev(l[fd]) && request == Exclusive then
          && reply.value == (if SharedBelow(l, m, fd) then Err(EACCES) else Ok(0))
          && l' == if reply.value.Ok? then l[fd := Locked(l[fd])] else l
        else if fd >= 0 && IsDev(l[fd]) && request == NonExclusive then
          reply.value == Ok(0) && l' == l[fd := Unlocked(l[fd])]
        else l' == l
      case CallSetFlags(fd, flags) =>
        reply.value.Ok? == (fd >= 0)
        && l' == if fd < 0 then l else l[fd := l[fd].(flags := Updated(l[fd].flags, flags))]
  }

  /** One call, if it is one the callers may make. */
  method Perform(pool: Pool, call: Call) returns (reply: Option<Result<int>>)
    requires pool.Valid()
    modifies pool, pool.fds
    ensures pool.Valid() && Answers(pool.filesystems, old(pool.fds[..]), old(pool.maxFd), call, reply, pool.fds[..], pool.maxFd)
  {
    if !Lawful(pool.fds[..], call) { return None; }
    match call
    case CallOpen(found, flags, status) =>
      var r := pool.OpenFile(found, flags, status);
      reply := Some(match r case Ok(fd) => Ok(fd) case Err(e) => Err(e));
    case CallClose(fd, rval) =>
      var r := pool.Close(fd, rval);
      reply := Some(match r case Ok(n) => Ok(n) case Err(e) => Err(e));
    case CallIoctl(fd, request, answer) =>
      var r := pool.Ioctl(fd, request, answer);
      reply := Some(r);
    case CallSetFlags(fd, flags) =>
      var r := pool.SetFlags(fd, flags);
      reply := Some(r);
  }

  /** What a redirection at boot makes of a stream: nobody holds a device yet and there are descriptors to spare. */
  ghost predicate Redirected(f: Fd, found: Option<Dev>, flags: bv32, status: int, filesystems: set<Dev>) {
    if found.Some? && status >= 0 then f.dev == found && f.flags == Opened(flags).(dev := found.value !in filesystems)
    else f.dev == Some(DEV_NULL) && f.flags == NO_FLAGS
  }

  /** The pool as boot leaves it: the standard streams redirected, stdout first, then stdin and stderr. */
  ghost predicate Booted(l: seq<Fd>, filesystems: set<Dev>, streams: seq<Option<Dev>>, statuses: seq<int>)
    requires |streams| == |statuses| == 3
  {
    && |l| == MAX_FD && (forall i | 2 < i < MAX_FD :: !Open(l[i]))
    && Redirected(l[1], streams[0], 1, statuses[0], filesystems)
    && Redirected(l[0], streams[1], 0, statuses[1], filesystems)
    && Redirected(l[2], streams[2], 1, statuses[2], filesystems)
  }

  /** At boot: no locks, nothing open but the streams. */
  ghost predicate Early(l: seq<Fd>) {
    |l| == MAX_FD && forall i | 0 <= i < MAX_FD :: !Excl(l[i]) && (i > 2 ==> !Open(l[i]))
  }

  lemma EarlyOpensIff(l: seq<Fd>, found: Option<Dev>, status: int)
    requires Early(l)
    ensures CanOpen(l, found, status) <==> found.Some? && status >= 0
  {
    assert !Open(l[3]);
  }

  /** One redirection at boot. */
  method RedirectEarly(pool: Pool, stream: nat, found: Option<Dev>, flags: bv32, status: int)
    requires pool.Valid() && stream <= 2 && Early(pool.fds[..])
    requires pool.fds[stream].dev == Some(DEV_NULL) && pool.fds[stream].flags == NO_FLAGS
    modifies pool`maxFd, pool.fds
    ensures pool.Valid() && Early(pool.fds[..]) && Redirected(pool.fds[stream], found, flags, status, pool.filesystems)
    ensures forall i | 0 <= i < MAX_FD && i != stream ::
              pool.fds[i].dev == old(pool.fds[i]).dev && pool.fds[i].flags == old(pool.fds[i]).flags
  {
    EarlyOpensIff(pool.fds[..], found, status);
    pool.Redirect(stream, found, flags, status);
  }

  /** alt_io_redirect at boot. */
  method Boot(filesystems: set<Dev>, streams: seq<Option<Dev>>, statuses: seq<int>) returns (pool: Pool)
    requires |streams| == |statuses| == 3
    ensures pool.Valid() && fresh(pool) && fresh(pool.fds) && pool.filesystems == filesystems
    ensures Booted(pool.fds[..], filesystems, streams, statuses)
  {
    pool := new Pool(filesystems);
    RedirectEarly(pool, 1, streams[0], 1, statuses[0]);
    RedirectEarly(pool, 0, streams[1], 0, statuses[1]);
    RedirectEarly(pool, 2, streams[2], 1, statuses[2]);
  }

  datatype Snapshot = Snapshot(fds: seq<Fd>, maxFd: int)

  /** The pools between the calls and after the last, each with its one holder per device at most. */
  ghost predicate Trace(filesystems: set<Dev>, calls: seq<Call>, replies: seq<Option<Result<int>>>, pools: seq<Snapshot>) {
    && |pools| == |replies| + 1 <= |calls| + 1
    && (forall i | 0 <= i < |pools| :: |pools[i].fds| == MAX_FD && pools[i].maxFd < MAX_FD && OneHolder(pools[i].fds))
    && forall i | 0 <= i < |replies| ::
         Answers(filesystems, pools[i].fds, pools[i].maxFd, calls[i], replies[i], pools[i + 1].fds, pools[i + 1].maxFd)
  }

  /**
   * From boot, any calls whatever: every call is answered as it should be, at
   * no time has a device two holders, and a held device cannot be opened.
   */
  method Session(filesystems: set<Dev>, streams: seq<Option<Dev>>, statuses: seq<int>, calls: seq<Call>)
    returns (pool: Pool, replies: seq<Option<Result<int>>>, ghost pools: seq<Snapshot>)
    requires |streams| == |statuses| == 3
    ensures pool.Valid() && |replies| == |calls| && Trace(filesystems, calls, replies, pools)
    ensures pools[|calls|].fds == pool.fds[..] && pool.filesystems == filesystems
    ensures Booted(pools[0].fds, filesystems, streams, statuses)
  {
    pool := Boot(filesystems, streams, statuses);
    replies, pools := [], [Snapshot(pool.fds[..], pool.maxFd)];
    InvGivesOneHolder(pool.fds[..], pool.maxFd, pool.filesystems);
    for i := 0 to |calls|
      invariant pool.Valid() && fresh(pool) && fresh(pool.fds)
      invariant |replies| == i && Trace(filesystems, calls, replies, pools)
      invariant pools[i] == Snapshot(pool.fds[..], pool.maxFd) && pool.filesystems == filesystems
      invariant Booted(pools[0].fds, filesystems, streams, statuses)
    {
      var reply := Perform(pool, calls[i]);
      InvGivesOneHolder(pool.fds[..], pool.maxFd, pool.filesystems);
      replies, pools := replies + [reply], pools + [Snapshot(pool.fds[..], pool.maxFd)];
    }
  }

  /** In such a run, while anybody holds a device, every open of it fails. */
  lemma HeldIsNotOpened(filesystems: set<Dev>, calls: seq<Call>, replies: seq<Option<Result<int>>>, pools: seq<Snapshot>, i: nat)
    requires Trace(filesystems, calls, replies, pools) && i < |replies|
    requires calls[i].CallOpen? && calls[i].found.Some? && Held(pools[i].fds, calls[i].found.value)
    ensures replies[i].Some? && replies[i].value.Err? && pools[i + 1].fds == pools[i].fds
  {
    assert Answers(filesystems, pools[i].fds, pools[i].maxFd, calls[i], replies[i], pools[i + 1].fds, pools[i + 1].maxFd);
  }

  /** A holder keeps its lock until it is unlocked or, unless it is a standard stream, closed. */
  lemma LockLasts(filesystems: set<Dev>, calls: seq<Call>, replies: seq<Option<Result<int>>>, pools: seq<Snapshot>, i: nat, fd: nat)
    requires Trace(filesystems, calls, replies, pools) && i < |replies| && fd < MAX_FD && Excl(pools[i].fds[fd]) && Open(pools[i].fds[fd])
    requires calls[i].CallIoctl? && calls[i].file == fd ==> calls[i].request != NonExclusive
    requires fd > 2 && calls[i].CallClose? ==> calls[i].fildes != fd
    ensures Excl(pools[i + 1].fds[fd]) && pools[i + 1].fds[fd].dev == pools[i].fds[fd].dev
  {
    assert Answers(filesystems, pools[i].fds, pools[i].maxFd, calls[i], replies[i], pools[i + 1].fds, pools[i + 1].maxFd);
  }

  /** From reset: open a device twice, lock the first descriptor. It is granted although the second still uses the device. */
  method LockNeedNotBeSole() returns (pool: Pool, r: Result<int>)
    ensures r == Ok(0) && pool.Valid() && Excl(pool.fds[3]) && Shared(pool.fds[..], 3)
  {
    pool := new Pool({});
    var l := pool.fds[..];
    var a := pool.OpenFile(Some(1), 0, 0);
    assert !Open(l[3]);
    assert a == Ok(3);
    var l3 := pool.fds[..];
    var b := pool.OpenFile(Some(1), 0, 0);
    assert !Open(l3[4]) && forall i | 0 <= i < 4 :: Open(l3[i]);
    assert b == Ok(4);
    var l4 := pool.fds[..];
    assert l4[3] == l3[3] && l4[3].dev == Some(1);
    assert l4[4].dev == Some(1) && forall i | 0 <= i < 3 :: l4[i].dev == Some(DEV_NULL);
    assert !SharedBelow(l4, pool.maxFd, 3);
    r := pool.Ioctl(3, Exclusive, None);
    assert pool.fds[..][4].dev == pool.fds[..][3].dev;
  }

  /** From reset: standard input is redirected to a device, locked and closed. Nobody can open the device any more. */
  method CloseKeepsLock() returns (pool: Pool, locked: Result<int>, closed: Result<nat>, reopened: Result<nat>)
    ensures locked == Ok(0) && closed == Ok(0) && reopened == Err(EACCES)
  {
    pool := new Pool({});
    var l := pool.fds[..];
    assert !Open(l[3]);
    pool.Redirect(0, Some(1), 0, 0);
    var l0 := pool.fds[..];
    assert l0[0].dev == Some(1) && IsDev(l0[0]);
    forall i | 0 < i < MAX_FD ensures l0[i].dev != Some(1) { assert l0[i].dev == l[i].dev; }
    locked := pool.Ioctl(0, Exclusive, None);
    var l1 := pool.fds[..];
    assert l1[0].dev == Some(1) && Excl(l1[0]);
    closed := pool.Close(0, 0);
    assert Held(pool.fds[..], 1);
    assert !Open(pool.fds[3]) && !Open(l0[3]);
    reopened := pool.OpenFile(Some(1), 0, 0);
  }
}
