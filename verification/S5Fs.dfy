/**
  The S5 vnode operations step by step, on the inodes, directories, free list and vnode table they update.
 */
module S5FsImpl {
  import opened Errno
  import opened S5Links

  /** Taking and giving back a vnode that is held anyway only undoes itself. */
  lemma HeldGetPut(fs: Fs, d: nat, n: string, c: nat, paged: bool)
    requires RefsOf(fs, c) > 0
    ensures PutVnode(Drop(GetVnode(fs, c), d, n, c), c, paged) == Drop(fs, d, n, c)
  {
    assert fs.vnodes[c := fs.vnodes[c] + 1][c := fs.vnodes[c]] == fs.vnodes;
  }

  /** What the steps that make a node rely on. */
  ghost predicate Placeable(fs: Fs, d: nat, n: string) {
    && d in fs.dirs && d in fs.inodes && n !in fs.dirs[d] && n != "." && n != ""
    && (fs.free != [] ==> Unused(fs, Top(fs)) && Top(fs) != d)
  }

  lemma IsPlaceable(fs: Fs, t: Tree, d: nat, n: string)
    requires Inv(fs, t) && Linkable(fs, t, d, n)
    ensures Placeable(fs, d, n)
  {
    if fs.free != [] { TopUnused(fs, t); }
  }

  /** The tree s5fs_mkdir leads to. */
  lemma MkdirTree(fs: Fs, t: Tree, d: nat, n: string, err: int, paged: bool) returns (next: Tree)
    requires Inv(fs, t) && Linkable(fs, t, d, n)
    ensures Inv(MkdirFs(fs, d, n, err, paged).0, next) && Placeable(fs, d, n)
  {
    IsPlaceable(fs, t, d, n);
    MkdirKeeps(fs, t, d, n, err, paged);
    next := NextTree(fs, t, Op.Mkdir(d, n, err, paged));
  }

  lemma NotItself(fs: Fs, t: Tree, d: nat, n: string)
    requires Inv(fs, t) && d in t.live && Proper(n) && n in fs.dirs[d]
    ensures fs.dirs[d][n] != d
  {
    assert EntryOk(fs, t, d, n);
    assert LiveDirOk(fs, t, d);
  }

  lemma EvictKeeps(fs: Fs, t: Tree, i: nat)
    requires Inv(fs, t) && Enabled(fs, t, Op.Evict(i))
    ensures Inv(S5Links.DeleteVnode(fs, i), t) && i in fs.inodes
    ensures i !in S5Links.DeleteVnode(fs, i).inodes <==> Names(fs.dirs, t.live, i) == 0
  {
    DeleteKeeps(fs, t, i);
  }

  /** What the steps of s5fs_rmdir rely on. */
  ghost predicate Removable(fs: Fs, d: nat, n: string) {
    && d in fs.dirs && d in fs.inodes && (n in fs.dirs[d] ==> fs.dirs[d][n] in fs.inodes && fs.dirs[d][n] != d)
    && "" !in fs.dirs[d] && Findable(fs, n)
    && forall i :: i in fs.dirs <==> i in fs.inodes && fs.inodes[i].kind == Dir
  }

  /** The tree s5fs_rmdir leads to. */
  lemma RmdirTree(fs: Fs, t: Tree, d: nat, n: string, paged: bool) returns (next: Tree)
    requires Inv(fs, t) && Enabled(fs, t, Op.Rmdir(d, n, paged))
    ensures Inv(RmdirFs(fs, d, n, paged).0, next) && Removable(fs, d, n)
  {
    RmdirKeeps(fs, t, d, n, paged);
    next := NextTree(fs, t, Op.Rmdir(d, n, paged));
    assert LiveDirOk(fs, t, d);
    if n in fs.dirs[d] {
      EntryNamesInode(fs, t, d, n);
      NotItself(fs, t, d, n);
    }
  }

  /** One reference more to inode i, and none to any other. */
  ghost predicate OneMore(before: map<nat, nat>, after: map<nat, nat>, i: nat) {
    && i in after && after[i] == (if i in before then before[i] else 0) + 1
    && forall j: nat :: j != i ==> (j in after <==> j in before) && (j in before ==> after[j] == before[j])
  }

  class S5Fs {
    const root: nat
    var inodes: map<nat, Inode>
    var dirs: map<nat, Entries>
    var free: seq<nat>
    var vnodes: map<nat, nat>
    ghost var tree: Tree

    function Abs(): Fs
      reads this
    {
      Fs(root, inodes, dirs, free, vnodes)
    }

    ghost predicate Valid()
      reads this
    {
      Inv(Abs(), tree)
    }

    /** A volume just made and mounted. */
    constructor (root: nat, free: seq<nat>)
      requires root !in free && forall j, k :: 0 <= j < k < |free| ==> free[j] != free[k]
      ensures Valid() && Mounted(Abs()) && Abs().root == root && Abs().free == free
    {
      this.root := root;
      this.free := free;
      this.inodes := map[root := Inode(Dir, 2)];
      this.dirs := map[root := NewDir(root, root)];
      this.vnodes := map[root := 1];
      this.tree := Tree({root}, map[], map[]);
      new;
      MountedInv(Abs());
    }

    method Vget(i: nat)
      requires i in inodes
      modifies `inodes, `vnodes
      ensures Abs() == GetVnode(old(Abs()), i)
    {
      if i in vnodes {
        vnodes := vnodes[i := vnodes[i] + 1];
      } else {
        inodes := inodes[i := inodes[i].(links := inodes[i].links + 1)];
        vnodes := vnodes[i := 1];
      }
    }

    method DeleteVnode(i: nat)
      requires i in inodes
      modifies `inodes, `vnodes, `dirs, `free
      ensures Abs() == S5Links.DeleteVnode(old(Abs()), i)
    {
      inodes := inodes[i := inodes[i].(links := inodes[i].links - 1)];
      if inodes[i].links == 0 {
        assert inodes - {i} == old(inodes) - {i};
        inodes := inodes - {i};
        dirs := dirs - {i};
        free := free + [i];
      }
      vnodes := vnodes - {i};
    }

    method Vput(i: nat, paged: bool)
      requires i in inodes && RefsOf(Abs(), i) > 0
      modifies `inodes, `vnodes, `dirs, `free
      ensures Abs() == PutVnode(old(Abs()), i, paged)
    {
      if vnodes[i] > 1 {
        vnodes := vnodes[i := vnodes[i] - 1];
      } else {
        var linked := inodes[i].links > 1;
        if linked && paged {
          vnodes := vnodes[i := 0];
        } else {
          DeleteVnode(i);
        }
      }
    }

    /** s5_alloc_inode: a free inode with link count 0, or -ENOSPC. */
    method AllocInode(kind: Kind) returns (ino: int)
      modifies `inodes, `dirs, `free
      ensures old(free) == [] ==> ino == -ENOSPC && Abs() == old(Abs())
      ensures old(free) != [] ==> (
                ino == Top(old(Abs()))
                && free == old(free)[..|old(free)| - 1] && inodes == old(inodes)[ino as nat := Inode(kind, 0)]
                && dirs == if kind == Dir then old(dirs)[ino as nat := map[]] else old(dirs))
    {
      if free == [] { return -ENOSPC; }
      var c := free[|free| - 1];
      free := free[..|free| - 1];
      inodes := inodes[c := Inode(kind, 0)];
      if kind == Dir { dirs := dirs[c := map[]]; }
      return c;
    }

    /** s5_find_dirent; that it does so on the records of a directory is proved for S5Dir. */
    method FindDirent(d: nat, name: string) returns (i: int)
      requires d in dirs
      ensures i == FindEntry(Abs(), d, name)
    {
      if name == "" { return 0; }
      if name !in dirs[d] { return -ENOENT; }
      return dirs[d][name];
    }

    /** s5_link: an entry for child in parent, unless the name is taken or the entry cannot be written. */
    method LinkEntry(parent: nat, child: nat, name: string, err: int) returns (ret: int)
      requires parent in dirs && child in inodes
      modifies `inodes, `dirs
      ensures FindEntry(old(Abs()), parent, name) >= 0 ==> ret == -1
      ensures FindEntry(old(Abs()), parent, name) < 0 ==> ret == if err < 0 then err else 0
      ensures ret < 0 ==> Abs() == old(Abs())
      ensures ret >= 0 ==> (
                dirs == AddEntry(old(dirs), parent, name, child)
                && inodes == if name == "." then old(inodes) else AddLinks(old(inodes), child, 1))
    {
      var exist := FindDirent(parent, name);
      if exist >= 0 { return -1; }
      if err < 0 { return err; }
      var e: Entries := dirs[parent][name := child];
      dirs := dirs[parent := e];
      if name != "." {
        inodes := inodes[child := inodes[child].(links := inodes[child].links + 1)];
      }
      return 0;
    }

    /** s5_remove_dirent. */
    method RemoveDirent(d: nat, n: string, paged: bool) returns (ret: int)
      requires d in dirs && (n in dirs[d] ==> dirs[d][n] in inodes)
      modifies `inodes, `vnodes, `dirs, `free
      ensures ret == UnlinkFs(old(Abs()), d, n, paged).1 && Abs() == UnlinkFs(old(Abs()), d, n, paged).0
    {
      if n !in dirs[d] { return -ENOENT; }
      var c := dirs[d][n];
      var e: Entries := dirs[d] - {n};
      dirs := dirs[d := e];
      Vget(c);
      inodes := inodes[c := inodes[c].(links := inodes[c].links - 1)];
      Vput(c, paged);
      return 0;
    }

    /** The steps s5fs_create and s5fs_mknod share: the inode and its first entry. */
    method NewNode(d: nat, n: string, kind: Kind, err: int) returns (ret: int, c: nat)
      requires Placeable(Abs(), d, n) && kind != Dir
      modifies `inodes, `vnodes, `dirs, `free
      ensures ret == CreateFs(old(Abs()), d, n, kind, err).1 && Abs() == CreateFs(old(Abs()), d, n, kind, err).0
      ensures ret >= 0 ==> c == Top(old(Abs())) && c in inodes && inodes[c].links == 2 && RefsOf(Abs(), c) == 1
    {
      ghost var fs := Abs();
      var ino := AllocInode(kind);
      c := 0;
      if ino < 0 { return ino, c; }
      c := ino;
      Vget(c);
      assert Abs() == Fresh(fs, kind);
      ret := LinkEntry(d, c, n, err);
      if ret < 0 { Vput(c, false); }
    }

    /** The steps of s5fs_mknod. */
    method NewSpecial(d: nat, n: string, kind: Kind, err: int, paged: bool) returns (ret: int)
      requires Placeable(Abs(), d, n) && kind != Dir
      modifies `inodes, `vnodes, `dirs, `free
      ensures ret == MknodFs(old(Abs()), d, n, kind, err, paged).1
      ensures Abs() == MknodFs(old(Abs()), d, n, kind, err, paged).0
    {
      var c: nat;
      ret, c := NewNode(d, n, kind, err);
      if ret >= 0 {
        Vput(c, paged);
        return 0;
      }
    }

    /** The first two entries of the new directory c. */
    method WriteDots(c: nat, parent: nat) returns (ret: int)
      requires c in dirs && dirs[c] == map[] && c in inodes && parent in inodes
      modifies `inodes, `dirs
      ensures ret == 0 && dirs == old(dirs)[c := NewDir(c, parent)] && inodes == AddLinks(old(inodes), parent, 1)
    {
      ret := LinkEntry(c, c, ".", 0);
      ret := LinkEntry(c, parent, "..", 0);
    }

    /** The steps of s5fs_mkdir. */
    method NewDirectory(d: nat, n: string, err: int, paged: bool) returns (ret: int)
      requires Placeable(Abs(), d, n)
      modifies `inodes, `vnodes, `dirs, `free
      ensures ret == MkdirFs(old(Abs()), d, n, err, paged).1 && Abs() == MkdirFs(old(Abs()), d, n, err, paged).0
    {
      ghost var fs := Abs();
      var ino := AllocInode(Dir);
      if ino < 0 { return ino; }
      var c: nat := ino;
      Vget(c);
      assert Abs() == Fresh(fs, Dir);
      ret := LinkEntry(d, c, n, err);
      if ret < 0 {
        Vput(c, false);
        return -1;
      }
      ret := WriteDots(c, d);
      assert Abs() == LinkDir(Fresh(fs, Dir), d, n, c);
      assert inodes[c].links == 2;
      Vput(c, paged);
    }

    /** The steps of s5fs_link. */
    method NewName(d: nat, n: string, src: nat) returns (ret: int)
      requires d in dirs && n !in dirs[d] && n != "." && n != "" && src in inodes
      modifies `inodes, `dirs
      ensures ret == 0 && Abs() == LinkTo(old(Abs()), d, n, src)
    {
      ret := LinkEntry(d, src, n, 0);
    }

    /** The steps of s5fs_rmdir. */
    method DropDirectory(d: nat, n: string, paged: bool) returns (ret: int)
      requires Removable(Abs(), d, n)
      modifies `inodes, `vnodes, `dirs, `free
      ensures ret == RmdirFs(old(Abs()), d, n, paged).1 && Abs() == RmdirFs(old(Abs()), d, n, paged).0
    {
      var ino := FindDirent(d, n);
      if ino < 0 { return ino; }
      var c: nat := ino;
      Vget(c);
      if inodes[c].kind != Dir {
        Vput(c, paged);
        return -ENOTDIR;
      }
      if RECORD * |dirs[c]| > DIRENT * 2 {
        Vput(c, paged);
        return -ENOTEMPTY;
      }
      if n == "" {
        ret := RemoveDirent(d, n, paged);
        Vput(c, paged);
      } else {
        ret := DropEmpty(d, n, c, paged);
      }
    }

    /** The end of s5fs_rmdir where there is an entry to remove. */
    method DropEmpty(d: nat, n: string, c: nat, paged: bool) returns (ret: int)
      requires d in dirs && d in inodes && n in dirs[d] && dirs[d][n] == c && c in inodes && c != d && RefsOf(Abs(), c) > 0
      modifies `inodes, `vnodes, `dirs, `free
      ensures ret == 0 && Abs() == PutVnode(DropDir(old(Abs()), d, n, c), c, paged)
    {
      HeldGetPut(Abs(), d, n, c, paged);
      ret := RemoveDirent(d, n, paged);
      inodes := inodes[d := inodes[d].(links := inodes[d].links - 1)];
      Vput(c, paged);
    }

    /** found is the inode whose vnode the caller gets. */
    method Lookup(d: nat, n: string) returns (ret: int, found: nat)
      requires Valid() && Enabled(Abs(), tree, Op.Lookup(d, n))
      modifies `inodes, `vnodes
      ensures Valid() && ret == LookupFs(old(Abs()), d, n).1 && Abs() == LookupFs(old(Abs()), d, n).0
      ensures ret == if n == "" || n in dirs[d] then 0 else -ENOENT
      ensures ret == 0 ==> found == (if n == "" then 0 else dirs[d][n]) && OneMore(old(vnodes), vnodes, found)
    {
      LookupKeeps(Abs(), tree, d, n);
      if FindEntry(Abs(), d, n) >= 0 { Found(Abs(), tree, d, n); }
      ret, found := FindAndGet(d, n);
    }

    /** The steps of s5fs_lookup. */
    method FindAndGet(d: nat, n: string) returns (ret: int, found: nat)
      requires d in dirs && (FindEntry(Abs(), d, n) >= 0 ==> FindEntry(Abs(), d, n) in inodes)
      modifies `inodes, `vnodes
      ensures ret == LookupFs(old(Abs()), d, n).1 && Abs() == LookupFs(old(Abs()), d, n).0
      ensures ret == if n == "" || n in dirs[d] then 0 else -ENOENT
      ensures ret == 0 ==> found == (if n == "" then 0 else dirs[d][n]) && OneMore(old(vnodes), vnodes, found)
    {
      var inodeNumber := FindDirent(d, n);
      if inodeNumber < 0 { return inodeNumber, 0; }
      Vget(inodeNumber);
      return 0, inodeNumber;
    }

    method Create(d: nat, n: string, err: int) returns (ret: int, c: nat)
      requires Valid() && Enabled(Abs(), tree, Op.Create(d, n, err))
      modifies `inodes, `vnodes, `dirs, `free
      ensures Valid() && ret == CreateFs(old(Abs()), d, n, Data, err).1 && Abs() == CreateFs(old(Abs()), d, n, Data, err).0
      ensures ret >= 0 ==> c in inodes && inodes[c].links == 2 && RefsOf(Abs(), c) == 1
      ensures ret >= 0 ==> d in dirs && n in dirs[d] && dirs[d][n] == c
    {
      IsPlaceable(Abs(), tree, d, n);
      CreateKeeps(Abs(), tree, d, n, Data, err);
      ret, c := NewNode(d, n, Data, err);
    }

    method Mknod(d: nat, n: string, kind: Kind, err: int, paged: bool) returns (ret: int)
      requires Valid() && Enabled(Abs(), tree, Op.Mknod(d, n, kind, err, paged))
      modifies `inodes, `vnodes, `dirs, `free
      ensures Valid() && ret == MknodFs(old(Abs()), d, n, kind, err, paged).1
      ensures Abs() == MknodFs(old(Abs()), d, n, kind, err, paged).0
    {
      IsPlaceable(Abs(), tree, d, n);
      MknodKeeps(Abs(), tree, d, n, kind, err, paged);
      ret := NewSpecial(d, n, kind, err, paged);
    }

    method Mkdir(d: nat, n: string, err: int, paged: bool) returns (ret: int)
      requires Valid() && Enabled(Abs(), tree, Op.Mkdir(d, n, err, paged))
      modifies this
      ensures Valid() && ret == MkdirFs(old(Abs()), d, n, err, paged).1
      ensures Abs() == MkdirFs(old(Abs()), d, n, err, paged).0
    {
      ghost var after := MkdirFs(Abs(), d, n, err, paged).0;
      ghost var next := MkdirTree(Abs(), tree, d, n, err, paged);
      ret := NewDirectory(d, n, err, paged);
      tree := next;
      assert Abs() == after;
    }

    /** s5fs_link, for a source that is not a directory. */
    method LinkFile(d: nat, n: string, src: nat) returns (ret: int)
      requires Valid() && Enabled(Abs(), tree, Op.Link(d, n, src))
      modifies `inodes, `dirs
      ensures Valid() && ret == 0 && Abs() == LinkTo(old(Abs()), d, n, src)
    {
      LinkToKeeps(Abs(), tree, d, n, src);
      ret := NewName(d, n, src);
    }

    method Unlink(d: nat, n: string, paged: bool) returns (ret: int)
      requires Valid() && Enabled(Abs(), tree, Op.Unlink(d, n, paged))
      modifies `inodes, `vnodes, `dirs, `free
      ensures Valid() && ret == UnlinkFs(old(Abs()), d, n, paged).1 && Abs() == UnlinkFs(old(Abs()), d, n, paged).0
    {
      UnlinkKeeps(Abs(), tree, d, n, paged);
      if n in dirs[d] { EntryNamesInode(Abs(), tree, d, n); }
      ret := RemoveDirent(d, n, paged);
    }

    method Rmdir(d: nat, n: string, paged: bool) returns (ret: int)
      requires Valid() && Enabled(Abs(), tree, Op.Rmdir(d, n, paged))
      modifies this
      ensures Valid() && ret == RmdirFs(old(Abs()), d, n, paged).1 && Abs() == RmdirFs(old(Abs()), d, n, paged).0
    {
      ghost var after := RmdirFs(Abs(), d, n, paged).0;
      ghost var next := RmdirTree(Abs(), tree, d, n, paged);
      ret := DropDirectory(d, n, paged);
      tree := next;
      assert Abs() == after;
    }

    /** The last cached page of a vnode nobody refers to is evicted. */
    method Evict(i: nat)
      requires Valid() && Enabled(Abs(), tree, Op.Evict(i))
      modifies `inodes, `vnodes, `dirs, `free
      ensures Valid() && Abs() == S5Links.DeleteVnode(old(Abs()), i)
      ensures i !in inodes <==> Names(old(dirs), tree.live, i) == 0
    {
      EvictKeeps(Abs(), tree, i);
      DeleteVnode(i);
    }
  }
}
