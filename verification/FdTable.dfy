/**
  The descriptor table of a process: how many slots point at an open file, and who holds its vnode.
 */
module FdTable {
  import opened Errno
  import opened Namev

  const NFILES: nat := 32
  const O_WRONLY := 1
  const O_RDWR := 2
  const O_CREAT := 0x100
  const O_TRUNC := 0x200
  const O_APPEND := 0x400
  const FMODE_READ := 1
  const FMODE_WRITE := 2
  const FMODE_APPEND := 4
  const SEEK_SET := 0
  const SEEK_CUR := 1
  const SEEK_END := 2

  /** The bit b of n. */
  predicate Bit(n: int, b: int)
    requires b > 0
  {
    (n / b) % 2 == 1
  }

  /** file_t */
  class File {
    var refs: int
    var mode: int
    var pos: int
    var vnode: Option<nat>

    /** fget(-1) */
    constructor ()
      ensures refs == 1 && mode == 0 && pos == 0 && vnode == None
    {
      refs, mode, pos, vnode := 1, 0, 0, None;
    }
  }

  /** How many slots point at f. */
  function Slots(s: seq<File?>, f: File): nat {
    if s == [] then 0 else Slots(s[..|s| - 1], f) + if s[|s| - 1] == f then 1 else 0
  }

  lemma {:induction false} SlotsUpdate(s: seq<File?>, k: nat, g: File?, f: File)
    requires k < |s|
    ensures Slots(s[k := g], f) == Slots(s, f) - (if s[k] == f then 1 else 0) + (if g == f then 1 else 0)
  {
    var n := |s| - 1;
    if k == n {
      assert s[k := g][..n] == s[..n];
    } else {
      assert s[k := g][..n] == s[..n][k := g];
      SlotsUpdate(s[..n], k, g, f);
    }
  }

  lemma {:induction false} SlotsSome(s: seq<File?>, f: File)
    ensures Slots(s, f) > 0 <==> exists k :: 0 <= k < |s| && s[k] == f
  {
    if s != [] {
      SlotsSome(s[..|s| - 1], f);
      assert forall k :: 0 <= k < |s| - 1 ==> s[..|s| - 1][k] == s[k];
    }
  }

  /** The open files that hold a reference to the vnode v. */
  ghost function Holding(open: set<File>, v: nat): set<File>
    reads open`vnode
  {
    set f | f in open && f.vnode == Some(v)
  }

  lemma HoldingAdd(open: set<File>, f: File, v: nat)
    requires f !in open
    ensures |Holding(open + {f}, v)| == |Holding(open, v)| + if f.vnode == Some(v) then 1 else 0
  {
    assert Holding(open + {f}, v) == Holding(open, v) + if f.vnode == Some(v) then {f} else {};
  }

  /** The lowest empty slot from k on, or NFILES. */
  function FirstEmpty(s: seq<File?>, k: nat): (e: nat)
    requires k <= |s|
    ensures k <= e <= |s| && (e < |s| ==> s[e] == null) && forall j :: k <= j < e ==> s[j] != null
    decreases |s| - k
  {
    if k == |s| || s[k] == null then k else FirstEmpty(s, k + 1)
  }

  /** The error do_open returns for the flags alone, or 0: write-only and read-write together, or truncating a file
      opened to be read. */
  function FlagsCode(oflags: int): int {
    if !(0 <= oflags <= 0x703) then -EINVAL
    else if Bit(oflags, O_RDWR) && Bit(oflags, O_WRONLY) then -EINVAL
    else if Bit(oflags, O_TRUNC) && !Bit(oflags, O_RDWR) && !Bit(oflags, O_WRONLY) then -EINVAL
    else 0
  }

  function OpenMode(oflags: int): int {
    (if Bit(oflags, O_WRONLY) then FMODE_WRITE else if Bit(oflags, O_RDWR) then FMODE_WRITE + FMODE_READ else FMODE_READ)
    + if Bit(oflags, O_APPEND) then FMODE_APPEND else 0
  }

  function ForWriting(oflags: int): bool {
    Bit(oflags, O_WRONLY) || Bit(oflags, O_RDWR)
  }

  /** Opened to be read and not to be written. */
  predicate ReadOnly(mode: int) {
    Bit(mode, FMODE_READ) && !Bit(mode, FMODE_WRITE)
  }

  /** Where do_lseek goes from pos in a file of length len, or -EINVAL. */
  function SeekTo(pos: int, offset: int, whence: int, len: int): int {
    if whence == SEEK_SET then if offset < 0 then -EINVAL else offset
    else if whence == SEEK_CUR then if pos < -offset then -EINVAL else pos + offset
    else if whence == SEEK_END then if offset + len < 0 then -EINVAL else len + offset
    else -EINVAL
  }

  /** A slot pointing at f is cleared. */
  lemma SlotLess(s: seq<File?>, k: nat, f: File)
    requires k < |s| && s[k] == f
    ensures forall g: File {:trigger Slots(s[k := null], g)} :: Slots(s[k := null], g) == Slots(s, g) - if g == f then 1 else 0
    ensures Slots(s, f) == 1 ==> f !in s[k := null]
  {
    forall g: File ensures Slots(s[k := null], g) == Slots(s, g) - if g == f then 1 else 0 {
      SlotsUpdate(s, k, null, g);
    }
    SlotsSome(s[k := null], f);
  }

  class Process {
    const files: array<File?>
    /** The vnodes, with the references held to them by open files and by others. */
    const vfs: Vfs
    /** The open files, and the references to vnodes that are not theirs. */
    ghost var open: set<File>
    ghost var others: multiset<nat>

    /** Every slot in use points at an open file; apart from extra more for f, a file's reference count is the number of
        slots pointing at it. */
    ghost predicate Counted(f: File?, extra: int)
      reads this, files, open`refs
    {
      && files.Length == NFILES
      && (forall k {:trigger files[k]} :: 0 <= k < NFILES && files[k] != null ==> files[k] in open)
      && (forall g: File {:trigger g in open} :: g in open ==>
            g.refs == Slots(files[..], g) + (if g == f then extra else 0) && Slots(files[..], g) > 0)
    }

    /** Every reference to a vnode belongs to an open file, one each, or to somebody else. */
    ghost predicate VnodesOk()
      reads this, open`vnode, vfs`refs
    {
      && (forall v: nat {:trigger vfs.refs[v]} :: vfs.refs[v] == others[v] + |Holding(open, v)|)
      && (forall f :: f in open ==> f.vnode.Some?)
    }

    /** What fput asserts about the position of a file. */
    ghost predicate PositionsOk()
      reads this, open`pos
    {
      forall f {:trigger f in open} :: f in open ==> f.pos >= -1
    }

    ghost predicate Valid()
      reads this, files, open`refs, open`vnode, open`pos, vfs`refs
    {
      Counted(null, 0) && VnodesOk() && PositionsOk()
    }

    constructor (vfs: Vfs)
      ensures Valid() && fresh(files) && open == {} && others == vfs.refs && this.vfs == vfs
    {
      this.vfs := vfs;
      files := new File?[NFILES](_ => null);
      open, others := {}, vfs.refs;
      new;
      forall v: nat ensures Holding(open, v) == {} { }
    }

    /** get_empty_fd */
    method GetEmptyFd() returns (fd: int)
      requires files.Length == NFILES
      ensures fd == if FirstEmpty(files[..], 0) == NFILES then -EMFILE else FirstEmpty(files[..], 0)
    {
      for k := 0 to NFILES
        invariant FirstEmpty(files[..], 0) == FirstEmpty(files[..], k)
      {
        if files[k] == null { return k; }
      }
      return -EMFILE;
    }

    /** fget on a descriptor: its file, with one reference more. */
    method Fget(fd: int, ghost extra: nat) returns (f: File?)
      requires files.Length == NFILES && Counted(if 0 <= fd < NFILES then files[fd] else null, extra)
      modifies open`refs
      ensures f == (if 0 <= fd < NFILES then files[fd] else null) && (f != null ==> f in open) && Counted(f, extra + 1)
    {
      f := if 0 <= fd < NFILES then files[fd] else null;
      if f != null { f.refs := f.refs + 1; }
    }

    /** fput where references remain; it asserts that the position is at least -1. */
    method Fput(f: File, ghost extra: nat)
      requires Counted(f, extra + 1) && f in open && f.pos >= -1
      modifies f`refs
      ensures Counted(f, extra)
    {
      f.refs := f.refs - 1;
    }

    /** The last fput of do_close, and the slot it clears.  The file goes, and gives its reference to the vnode back, with
        the last of its slots; x is a file somebody holds extra more references to, and has another slot. */
    method Release(fd: int, ghost x: File?, ghost extra: nat)
      requires Counted(x, extra) && VnodesOk() && 0 <= fd < NFILES && files[fd] != null && files[fd].pos >= -1
      requires extra > 0 && x == files[fd] ==> Slots(files[..], files[fd]) > 1
      modifies files, open`refs, vfs`refs, `open
      ensures Counted(x, extra) && VnodesOk() && files[..] == old(files[..])[fd := null]
      ensures open == if old(Slots(files[..], files[fd])) == 1 then old(open) - {old(files[fd])} else old(open)
      ensures vfs.refs == if old(Slots(files[..], files[fd])) == 1
                       then old(vfs.refs) - multiset{old(files[fd].vnode.value)} else old(vfs.refs)
    {
      var f := files[fd];
      SlotLess(files[..], fd, f);
      f.refs := f.refs - 1;
      if f.refs == 0 { Dispose(f); }
      ghost var s := files[..];
      files[fd] := null;
      assert files[..] == s[fd := null];
    }

    /** The end of fput for a file nobody refers to any more. */
    method Dispose(f: File)
      requires f in open && VnodesOk()
      modifies vfs`refs, `open
      ensures VnodesOk() && open == old(open) - {f} && vfs.refs == old(vfs.refs) - multiset{f.vnode.value}
    {
      FreedVnodes(f);
      vfs.Vput(f.vnode.value);
      open := open - {f};
    }

    lemma FreedVnodes(f: File)
      requires f in open && f.vnode.Some? && VnodesOk()
      ensures f.vnode.value in vfs.refs
      ensures forall v: nat :: |Holding(open, v)| == |Holding(open - {f}, v)| + if f.vnode == Some(v) then 1 else 0
    {
      assert open - {f} + {f} == open;
      forall v: nat ensures |Holding(open, v)| == |Holding(open - {f}, v)| + if f.vnode == Some(v) then 1 else 0 {
        HoldingAdd(open - {f}, f, v);
      }
      assert vfs.refs[f.vnode.value] > 0;
    }

    /** A slot that was empty points at f, which somebody held one reference more to. */
    method Point(fd: int, f: File)
      requires Counted(f, 1) && VnodesOk() && PositionsOk() && f in open && 0 <= fd < NFILES && files[fd] == null
      modifies files
      ensures Valid() && files[..] == old(files[..])[fd := f]
    {
      ghost var s := files[..];
      files[fd] := f;
      assert files[..] == s[fd := f];
      forall g: File | g in open ensures Slots(files[..], g) == Slots(s, g) + if g == f then 1 else 0 {
        SlotsUpdate(s, fd, f, g);
      }
    }

    /** What open_namev does for do_open. */
    function Target(path: Option<string>, oflags: int, made: int): Found
      reads vfs`world
    {
      OpenPath(vfs.world, Place(vfs.root, None, vfs.cwd), path, Bit(oflags, O_CREAT), made)
    }

    function WorldAfter(path: Option<string>, oflags: int, made: int): World
      reads vfs`world
    {
      AfterOpen(vfs.world, Place(vfs.root, None, vfs.cwd), path, Bit(oflags, O_CREAT), made)
    }

    /** The error do_open returns before it calls open_namev, or 0.  mem: a file object could be allocated. */
    function Early(oflags: int, mem: bool): int
      reads files
    {
      if FlagsCode(oflags) != 0 then FlagsCode(oflags)
      else if FirstEmpty(files[..], 0) == files.Length then -EMFILE
      else if !mem then -ENOMEM
      else 0
    }

    /** do_open; made is what the create operation of a directory returns if it is called. */
    method DoOpen(path: Option<string>, oflags: int, mem: bool, made: int) returns (r: int)
      requires Valid()
      modifies files, vfs`refs, vfs`world, `open
      ensures Valid()
      ensures r == if old(Early(oflags, mem)) != 0 then old(Early(oflags, mem))
                   else if old(Target(path, oflags, made)).Failed? then old(Target(path, oflags, made)).error
                   else if ForWriting(oflags) && old(Target(path, oflags, made)).v in vfs.world then -EISDIR
                   else FirstEmpty(old(files[..]), 0)
      ensures vfs.world == if old(Early(oflags, mem)) != 0 then old(vfs.world) else old(WorldAfter(path, oflags, made))
      ensures r < 0 ==> files[..] == old(files[..]) && vfs.refs == old(vfs.refs) && open == old(open)
      ensures r >= 0 ==> (
                && r < NFILES && files[r] != null && files[..] == old(files[..])[r := files[r]] && fresh(files[r])
                && old(Target(path, oflags, made)).Found? && files[r].vnode == Some(old(Target(path, oflags, made)).v)
                && files[r].mode == OpenMode(oflags) && files[r].pos == 0
                && vfs.refs == old(vfs.refs) + multiset{old(Target(path, oflags, made)).v})
    {
      if !(0 <= oflags <= 0x703) { return -EINVAL; }
      var rw, w := Bit(oflags, O_RDWR), Bit(oflags, O_WRONLY);
      if rw && w { return -EINVAL; }
      if Bit(oflags, O_TRUNC) && !rw && !w { return -EINVAL; }
      var fd := GetEmptyFd();
      if fd < 0 { return fd; }
      if !mem { return -ENOMEM; }
      ErrorsNegative(vfs.world, Place(vfs.root, None, vfs.cwd), path, Bit(oflags, O_CREAT), made);
      r := OpenAt(fd, OpenMode(oflags), path, Bit(oflags, O_CREAT), made, w || rw);
    }

    /** A fresh file object goes into the slot before there is a vnode for it. */
    method Store(fd: nat, mode: int) returns (f: File)
      requires fd < NFILES == files.Length
      modifies files
      ensures fresh(f) && files[..] == old(files[..])[fd := f] && f !in old(files[..])
      ensures f.refs == 1 && f.mode == mode && f.pos == 0
    {
      f := new File();
      files[fd] := f;
      f.mode := mode;
    }

    /** do_open from the point where it has a slot. */
    method OpenAt(fd: nat, mode: int, path: Option<string>, create: bool, made: int, write: bool) returns (r: int)
      requires Valid() && fd < NFILES && files[fd] == null
      modifies files, vfs`refs, vfs`world, `open
      ensures Valid()
      ensures vfs.world == AfterOpen(old(vfs.world), Place(vfs.root, None, vfs.cwd), path, create, made)
      ensures var target := OpenPath(old(vfs.world), Place(vfs.root, None, vfs.cwd), path, create, made);
        if target.Failed? then r == target.error && SameFiles(old(files[..]), old(vfs.refs), old(open))
        else if write && target.v in vfs.world then r == -EISDIR && SameFiles(old(files[..]), old(vfs.refs), old(open))
        else
          && r == fd && files[fd] != null && files[..] == old(files[..])[fd := files[fd]] && fresh(files[fd])
          && files[fd].vnode == Some(target.v) && files[fd].mode == mode && files[fd].pos == 0
          && vfs.refs == old(vfs.refs) + multiset{target.v}
    {
      ghost var s, before := files[..], vfs.refs;
      assert CountedIn(s);
      var f := Store(fd, mode);
      var target := vfs.OpenNamev(path, None, create, made);
      r := Settle(fd, f, s, target, write, before);
    }

    /** do_open after open_namev: the vnode goes into the file, or slot and reference are given back. */
    method Settle(fd: nat, f: File, ghost s: seq<File?>, target: Found, write: bool, ghost before: multiset<nat>)
        returns (r: int)
      requires fd < NFILES == files.Length == |s| && s[fd] == null && files[..] == s[fd := f]
      requires f !in open && f !in s && f.refs == 1 && f.pos == 0 && PositionsOk()
      requires CountedIn(s) && forall g :: g in open ==> g.vnode.Some?
      requires vfs.refs == before + if target.Found? then multiset{target.v} else multiset{}
      requires forall u: nat {:trigger before[u]} :: before[u] == others[u] + |Holding(open, u)|
      modifies files, f`vnode, vfs`refs, `open
      ensures Valid()
      ensures if target.Failed? then r == target.error && SameFiles(s, before, old(open))
        else if write && target.v in vfs.world then r == -EISDIR && SameFiles(s, before, old(open))
        else
          && r == fd && files[..] == s[fd := f] && f.vnode == Some(target.v)
          && vfs.refs == before + multiset{target.v}
    {
      if target.Failed? {
        ClearSlot(fd, s);
        return target.error;
      }
      if write && target.v in vfs.world {
        vfs.PutBack(target.v, before);
        ClearSlot(fd, s);
        return -EISDIR;
      }
      Complete(fd, f, s, target.v);
      return fd;
    }

    ghost predicate SameFiles(s: seq<File?>, refs: multiset<nat>, was: set<File>)
      reads this, files, vfs`refs
    {
      files[..] == s && vfs.refs == refs && open == was
    }

    /** The table s has every file open and every reference counted. */
    ghost predicate CountedIn(s: seq<File?>)
      reads this, open`refs
    {
      && (forall k {:trigger s[k]} :: 0 <= k < |s| && s[k] != null ==> s[k] in open)
      && (forall g: File {:trigger g in open} :: g in open ==> g.refs == Slots(s, g) > 0)
    }

    /** The slot that was reserved is given up. */
    method ClearSlot(fd: nat, ghost s: seq<File?>)
      requires fd < NFILES == files.Length == |s| && s[fd] == null && files[..] == s[fd := files[fd]]
      requires CountedIn(s) && VnodesOk() && PositionsOk()
      modifies files
      ensures Valid() && files[..] == s
    {
      files[fd] := null;
      assert files[..] == s;
    }

    /** The file in slot fd gets its vnode, and counts as open. */
    method Complete(fd: nat, f: File, ghost s: seq<File?>, v: nat)
      requires fd < NFILES == files.Length == |s| && s[fd] == null && files[..] == s[fd := f]
      requires f !in open && f !in s && f.refs == 1 && f.pos >= -1 && PositionsOk()
      requires CountedIn(s) && forall g :: g in open ==> g.vnode.Some?
      requires forall u: nat {:trigger vfs.refs[u]} ::
                 vfs.refs[u] == others[u] + |Holding(open, u)| + if u == v then 1 else 0
      modifies f`vnode, `open
      ensures Valid() && open == old(open) + {f} && f.vnode == Some(v)
    {
      f.vnode := Some(v);
      forall g: File | g in open + {f} ensures Slots(files[..], g) == Slots(s, g) + if g == f then 1 else 0 {
        SlotsUpdate(s, fd, f, g);
      }
      SlotsSome(s, f);
      forall u: nat ensures |Holding(open + {f}, u)| == |Holding(open, u)| + if u == v then 1 else 0 {
        HoldingAdd(open, f, u);
      }
      open := open + {f};
    }

    /** do_lseek; len is the length of the file.  extra: references somebody holds to the file besides its slots. */
    method DoLseek(fd: int, offset: int, whence: int, len: int, ghost extra: nat) returns (r: int)
      requires Counted(if 0 <= fd < NFILES && files.Length == NFILES then files[fd] else null, extra) && PositionsOk()
      modifies open`refs, open`pos
      ensures Counted(if 0 <= fd < NFILES then files[fd] else null, extra) && PositionsOk()
      ensures if 0 <= fd < NFILES && files[fd] != null then r == SeekTo(old(files[fd].pos), offset, whence, len)
              else r == -EBADF
      ensures forall f :: f in open ==>
                f.pos == if 0 <= fd < NFILES && f == files[fd] && r >= 0 then r else old(f.pos)
    {
      if !(0 <= fd < NFILES) { return -EBADF; }
      var f := Fget(fd, extra);
      if f == null { return -EBADF; }
      if whence == SEEK_SET && offset >= 0 {
        f.pos := offset;
      } else if whence == SEEK_CUR && f.pos >= -offset {
        f.pos := f.pos + offset;
      } else if whence == SEEK_END && offset + len >= 0 {
        f.pos := len + offset;
      } else {
        Fput(f, extra);
        return -EINVAL;
      }
      r := f.pos;
      Fput(f, extra);
    }

    /** The end of a transfer: the position moves to from + count, and the reference goes, unless fput's assertion
        about the position fails. */
    method Advance(f: File, from: int, count: int) returns (ok: bool)
      requires Counted(f, 1) && VnodesOk() && PositionsOk() && f in open
      modifies f`refs, f`pos
      ensures ok <==> from + count >= -1
      ensures ok ==> Valid() && f.pos == from + count
    {
      f.pos := from + count;
      ok := f.pos >= -1;
      if ok { Fput(f, 0); }
    }

    /** The end of a call that fails. */
    method PutBack(f: File)
      requires Counted(f, 1) && VnodesOk() && PositionsOk() && f in open
      modifies f`refs
      ensures Valid()
    {
      Fput(f, 0);
    }

    /** do_read reaches the read operation of the vnode. */
    ghost predicate Reads(fd: int)
      requires Valid()
      reads this, files, open, vfs
    {
      0 <= fd < NFILES && files[fd] != null && Bit(files[fd].mode, FMODE_READ) && files[fd].vnode.value !in vfs.world
    }

    /** do_read; count is what the read operation of the vnode returns.  ok says that the assertion of fput holds: an
        error would have to take the position below -1. */
    method DoRead(fd: int, count: int) returns (r: int, ok: bool)
      requires Valid()
      modifies open`refs, open`pos
      ensures ok <==> !(old(Reads(fd)) && old(files[fd].pos) + count < -1)
      ensures ok ==> Valid()
      ensures ok ==> r == if !(0 <= fd < NFILES) || files[fd] == null || !Bit(files[fd].mode, FMODE_READ) then -EBADF
                          else if files[fd].vnode.value in vfs.world then -EISDIR else count
      ensures ok ==> forall f :: f in open ==> f.pos == old(f.pos) + if old(Reads(fd)) && f == files[fd] then count else 0
    {
      ok := true;
      if !(0 <= fd < NFILES) { return -EBADF, true; }
      var f := Fget(fd, 0);
      if f == null { return -EBADF, true; }
      if !Bit(f.mode, FMODE_READ) {
        PutBack(f);
        return -EBADF, true;
      }
      if f.vnode.value in vfs.world {
        PutBack(f);
        return -EISDIR, true;
      }
      ok := Advance(f, f.pos, count);
      return count, ok;
    }

    ghost predicate Writes(fd: int)
      requires Valid()
      reads this, files, open, vfs
    {
      0 <= fd < NFILES && files[fd] != null && !ReadOnly(files[fd].mode)
    }

    /** Where do_write starts to write. */
    ghost function WriteFrom(fd: int, len: int): int
      requires Valid() && Writes(fd)
      reads this, files, open, vfs
    {
      if Bit(files[fd].mode, FMODE_APPEND) then len else files[fd].pos
    }

    /** do_write; len is the length of the file and count what the write operation of the vnode returns. */
    method DoWrite(fd: int, len: int, count: int) returns (r: int, ok: bool)
      requires Valid() && len >= 0
      modifies open`refs, open`pos
      ensures ok <==> !(old(Writes(fd)) && old(WriteFrom(fd, len)) + count < -1)
      ensures ok ==> Valid() && r == if old(Writes(fd)) then count else -EBADF
      ensures ok ==> forall f :: f in open ==>
                f.pos == if old(Writes(fd)) && f == files[fd] then old(WriteFrom(fd, len)) + count else old(f.pos)
    {
      ok := true;
      if !(0 <= fd < NFILES) { return -EBADF, true; }
      var f := Fget(fd, 0);
      if f == null { return -EBADF, true; }
      if ReadOnly(f.mode) {
        PutBack(f);
        return -EBADF, true;
      }
      if Bit(f.mode, FMODE_APPEND) {
        var end := DoLseek(fd, 0, SEEK_END, len, 1);
        assert end == len && f.pos == len;
      }
      ok := Advance(f, f.pos, count);
      return count, ok;
    }

    /** do_close */
    method DoClose(fd: int, ghost x: File?, ghost extra: nat) returns (r: int)
      requires Counted(x, extra) && VnodesOk() && PositionsOk()
      requires extra > 0 && 0 <= fd < NFILES && files[fd] != null && x == files[fd] ==> Slots(files[..], files[fd]) > 1
      modifies files, open`refs, vfs`refs, `open
      ensures Counted(x, extra) && VnodesOk() && PositionsOk()
      ensures r == if 0 <= fd < NFILES && old(files[fd]) != null then 0 else -EBADF
      ensures r == 0 ==> (
                && files[..] == old(files[..])[fd := null]
                && open == (if old(Slots(files[..], files[fd])) == 1 then old(open) - {old(files[fd])} else old(open))
                && vfs.refs == if old(Slots(files[..], files[fd])) == 1 then old(vfs.refs) - multiset{old(files[fd].vnode.value)}
                            else old(vfs.refs))
      ensures r != 0 ==> files[..] == old(files[..]) && open == old(open) && vfs.refs == old(vfs.refs)
    {
      if fd < 0 || fd >= NFILES || files[fd] == null { return -EBADF; }
      var f := files[fd];
      f.refs := f.refs + 1;
      f.refs := f.refs - 1;
      Release(fd, x, extra);
      return 0;
    }

    /** do_dup */
    method DoDup(fd: int) returns (r: int)
      requires Valid()
      modifies files, open`refs
      ensures Valid()
      ensures r == if !(0 <= fd < NFILES) || old(files[fd]) == null then -EBADF
                   else if FirstEmpty(old(files[..]), 0) == NFILES then -EMFILE else FirstEmpty(old(files[..]), 0)
      ensures r >= 0 ==> r < NFILES && files[..] == old(files[..])[r := old(files[fd])]
      ensures r < 0 ==> files[..] == old(files[..])
    {
      if fd < 0 || fd >= NFILES { return -EBADF; }
      var f := Fget(fd, 0);
      if f == null { return -EBADF; }
      r := GetEmptyFd();
      if r < 0 {
        Fput(f, 0);
        return;
      }
      Point(r, f);
    }

    /** do_close on the slot nfd for do_dup2, which holds a reference to the file in slot ofd. */
    method CloseOther(nfd: nat, ofd: nat, f: File)
      requires Counted(f, 1) && VnodesOk() && PositionsOk() && f in open
      requires nfd < NFILES && ofd < NFILES && nfd != ofd && files[ofd] == f && files[nfd] != null
      modifies files, open`refs, vfs`refs, `open
      ensures Counted(f, 1) && VnodesOk() && PositionsOk() && f in open && files[..] == old(files[..])[nfd := null]
    {
      TwoSlots(files[..], ofd, nfd);
      var closed := DoClose(nfd, f, 1);
      assert files[..][ofd] == f;
    }

    /** do_dup2 */
    method DoDup2(ofd: int, nfd: int) returns (r: int)
      requires Valid()
      modifies files, open`refs, vfs`refs, `open
      ensures Valid()
      ensures r == if 0 <= ofd < NFILES && 0 <= nfd < NFILES && old(files[ofd]) != null then nfd else -EBADF
      ensures files[..] == if r >= 0 then old(files[..])[nfd := old(files[ofd])] else old(files[..])
    {
      if !(0 <= ofd < NFILES) || !(0 <= nfd < NFILES) { return -EBADF; }
      ghost var s := files[..];
      var f := Fget(ofd, 0);
      if f == null { return -EBADF; }
      if files[nfd] != null {
        if nfd == ofd {
          Fput(f, 0);
          assert s[nfd := f] == s;
          return ofd;
        }
        CloseOther(nfd, ofd, f);
      }
      Point(nfd, f);
      assert s[nfd := null][nfd := f] == s[nfd := f];
      return nfd;
    }
  }

  /** Where nobody holds a file besides the slots, the slots and the open files are the same files, and a file's reference
      count says how many slots point at it. */
  lemma OpenIsPointedAt(p: Process, f: File)
    requires p.Valid()
    ensures f in p.open <==> exists k :: 0 <= k < NFILES && p.files[k] == f
    ensures f in p.open ==> f.refs == Slots(p.files[..], f) > 0
  {
    SlotsSome(p.files[..], f);
    assert forall k :: 0 <= k < NFILES ==> p.files[..][k] == p.files[k];
  }

  lemma TwoSlots(s: seq<File?>, j: nat, k: nat)
    requires j < |s| && k < |s| && j != k && s[j] != null
    ensures s[j] == s[k] ==> Slots(s, s[j]) > 1
  {
    SlotsUpdate(s, k, null, s[j]);
    SlotsSome(s[k := null], s[j]);
    assert s[k := null][j] == s[j];
  }
}
