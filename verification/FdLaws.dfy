/**
  What the flags of an open, the order of its errors and the whence of a seek come to, in numbers.
 */
module FdLaws {
  import opened Errno
  import opened Namev
  import opened NamevWalk
  import opened FdTable

  /** The flags of an open: the access mode in the lowest two bits, six bits nothing looks at, and whether to create,
      truncate and append. */
  function Flags(access: nat, unused: nat, creat: bool, trunc: bool, append: bool): int {
    access + 4 * unused + (if creat then 0x100 else 0) + (if trunc then 0x200 else 0) + (if append then 0x400 else 0)
  }

  lemma LowBits(access: nat, unused: nat, high: nat)
    requires access < 4 && unused < 64 && high < 8
    ensures var n := access + 4 * unused + 0x100 * high;
      && Bit(n, 1) == (access % 2 == 1) && Bit(n, 2) == (access >= 2)
      && Bit(n, 0x100) == (high % 2 == 1) && Bit(n, 0x200) == ((high / 2) % 2 == 1) && Bit(n, 0x400) == (high >= 4)
  {
    var n := access + 4 * unused + 0x100 * high;
    assert n / 2 == access / 2 + 2 * (unused + 64 * high);
    assert n / 0x100 == high;
    assert n / 0x200 == high / 2 && n / 0x400 == high / 4;
  }

  function High(creat: bool, trunc: bool, append: bool): (h: nat)
    ensures h < 8 && (h % 2 == 1 <==> creat) && ((h / 2) % 2 == 1 <==> trunc) && (h >= 4 <==> append)
  {
    (if creat then 1 else 0) + (if trunc then 2 else 0) + (if append then 4 else 0)
  }

  /** Flags are refused that name no access mode, that truncate a file opened to be read, or that are out of range; a
      file opened otherwise can be read, written and appended to exactly as was asked. */
  lemma FlagsAre(access: nat, unused: nat, creat: bool, trunc: bool, append: bool)
    requires access < 4 && unused < 64
    ensures var flags := Flags(access, unused, creat, trunc, append);
      && FlagsCode(flags) == (if flags > 0x703 || access == 3 || (trunc && access == 0) then -EINVAL else 0)
      && (ForWriting(flags) <==> access != 0) && (Bit(flags, O_CREAT) <==> creat)
      && (access < 3 ==>
            && OpenMode(flags) == [1, 2, 3][access] + (if append then 4 else 0)
            && (Bit(OpenMode(flags), FMODE_READ) <==> access != 1)
            && (ReadOnly(OpenMode(flags)) <==> access == 0)
            && (Bit(OpenMode(flags), FMODE_APPEND) <==> append))
  {
    LowBits(access, unused, High(creat, trunc, append));
  }

  /** Every number the check of the flags lets through is made of such parts, and it lets through no other. */
  lemma FlagsParts(flags: int) returns (access: nat, unused: nat, creat: bool, trunc: bool, append: bool)
    ensures access < 4 && unused < 64
    ensures 0 <= flags <= 0x703 ==> flags == Flags(access, unused, creat, trunc, append)
    ensures !(0 <= flags <= 0x703) ==> FlagsCode(flags) == -EINVAL
  {
    var f := flags % 0x800;
    access, unused := f % 4, (f / 4) % 64;
    var h := f / 0x100;
    creat, trunc, append := h % 2 == 1, (h / 2) % 2 == 1, h >= 4;
  }

  /** A file opened so is read where access was asked for reading and it is no directory, and written where it was asked
      for writing: at the end of the file if it was opened to append, else at the position. */
  lemma TransfersAre(p: Process, fd: nat, len: int, access: nat, unused: nat, creat: bool, trunc: bool, append: bool)
    requires p.Valid() && access < 3 && unused < 64 && fd < NFILES && p.files[fd] != null
    requires p.files[fd].mode == OpenMode(Flags(access, unused, creat, trunc, append))
    ensures p.Reads(fd) <==> access != 1 && p.files[fd].vnode.value !in p.vfs.world
    ensures p.Writes(fd) <==> access != 0
    ensures access != 0 ==> p.WriteFrom(fd, len) == if append then len else p.files[fd].pos
  {
    FlagsAre(access, unused, creat, trunc, append);
  }

  /** A seek leads to the offset from the start, from the position or from the end of the file, unless that is before the
      start of the file or whence is none of the three. */
  lemma SeekIs(pos: int, offset: int, whence: int, len: int)
    ensures var from := if whence == 0 then 0 else if whence == 1 then pos else len;
      SeekTo(pos, offset, whence, len) == if 0 <= whence <= 2 && from + offset >= 0 then from + offset else -EINVAL
  {
  }

  /** An open fails for its flags first, then for want of a slot, then for want of memory, all before it looks at the
      path. */
  lemma EarlyIs(p: Process, flags: int, mem: bool)
    requires p.files.Length == NFILES
    ensures p.Early(flags, mem) ==
            if FlagsCode(flags) != 0 then -EINVAL
            else if forall k :: 0 <= k < 32 ==> p.files[k] != null then -EMFILE
            else if mem then 0 else -ENOMEM
  {
    var e := FirstEmpty(p.files[..], 0);
    assert forall k :: 0 <= k < 32 ==> p.files[..][k] == p.files[k];
  }

  /** What is opened is looked up from the root or from the working directory; without O_CREAT it is what the components
      of the path lead to, and no directory changes. */
  lemma TargetIs(p: Process, path: string, flags: int, made: int, v: nat, x: nat)
    requires |path| < MAXPATHLEN && Components(path) != []
    requires v == if path[..1] == "/" then p.vfs.root else p.vfs.cwd
    ensures !Bit(flags, O_CREAT) ==> (p.Target(Some(path), flags, made) == Found(x) <==>
                                      Reaches(p.vfs.world, v, Components(path), x))
    ensures !Bit(flags, O_CREAT) ==> p.WorldAfter(Some(path), flags, made) == p.vfs.world
    ensures DirOf(p.vfs.world, Place(p.vfs.root, None, p.vfs.cwd), Some(path))
         == Descend(p.vfs.world, v, Components(path))
  {
    var at := Place(p.vfs.root, None, p.vfs.cwd);
    assert path != "";
    assert StartsAt(at, path, v);
    DirNamevStarts(p.vfs.world, at, Some(path), v);
    OpenNamevIs(p.vfs.world, at, path, v, made, x);
  }
}
