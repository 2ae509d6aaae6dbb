/**
  What each vnode operation does, seen in the entries, the link counts, the vnodes in memory and the free list: what
  it changes, that it changes nothing else, and which error it returns when it changes nothing at all.
 */
module S5Effects {
  import opened Errno
  import opened S5Links

  ghost predicate SameNode(fs: Fs, fs': Fs, i: nat) {
    && (i in fs'.inodes <==> i in fs.inodes) && (i in fs.inodes ==> fs'.inodes[i] == fs.inodes[i])
    && (i in fs'.vnodes <==> i in fs.vnodes) && (i in fs.vnodes ==> fs'.vnodes[i] == fs.vnodes[i])
  }

  /** Every inode and vnode but those in s is as it was. */
  ghost predicate OthersSame(fs: Fs, fs': Fs, s: set<nat>) {
    fs'.root == fs.root && forall i: nat {:trigger SameNode(fs, fs', i)} :: i !in s ==> SameNode(fs, fs', i)
  }

  ghost predicate HasEntry(fs: Fs, d: nat, n: string, c: nat) {
    d in fs.dirs && n in fs.dirs[d] && fs.dirs[d][n] == c
  }

  /** Every entry but the one called n in d is as it was, outside of directory new. */
  ghost predicate EntriesSame(fs: Fs, fs': Fs, d: nat, n: string, new_: set<nat>) {
    && (forall e: nat :: e !in new_ ==> (e in fs'.dirs <==> e in fs.dirs))
    && (forall e: nat, m: string, c: nat {:trigger HasEntry(fs', e, m, c)} :: e !in new_ && (e, m) != (d, n) ==>
          (HasEntry(fs', e, m, c) <==> HasEntry(fs, e, m, c)))
  }

  /** Inode i of the given kind has the given number of links on disk and of references. */
  ghost predicate Node(fs: Fs, i: nat, kind: Kind, stored: int, refs: nat) {
    && i in fs.inodes && fs.inodes[i].kind == kind
    && fs.inodes[i].links == stored + (if i in fs.vnodes then 1 else 0)
    && refs == if i in fs.vnodes then fs.vnodes[i] else 0
  }

  // ---------------------------------------------------------------- vnodes

  /** vget. */
  lemma GetIs(fs: Fs, i: nat, kind: Kind, stored: int, refs: nat)
    requires Node(fs, i, kind, stored, refs)
    ensures var fs' := GetVnode(fs, i);
      && Node(fs', i, kind, stored, refs + 1) && i in fs'.vnodes
      && OthersSame(fs, fs', {i}) && fs'.dirs == fs.dirs && fs'.free == fs.free
  {
  }

  /** vput: with the last reference goes an inode that nothing names; a vnode stays in memory while it has pages there. */
  lemma PutIs(fs: Fs, i: nat, kind: Kind, stored: int, refs: nat, paged: bool)
    requires Node(fs, i, kind, stored, refs) && refs > 0 && stored >= 0
    ensures var fs' := PutVnode(fs, i, paged);
      && OthersSame(fs, fs', {i})
      && if refs > 1 || stored > 0 then
           && Node(fs', i, kind, stored, refs - 1) && (i in fs'.vnodes <==> refs > 1 || paged)
           && fs'.dirs == fs.dirs && fs'.free == fs.free
         else Freed(fs, fs', i)
  {
  }

  /** Inode i, with its directory if it is one, is gone and on top of the free list. */
  ghost predicate Freed(fs: Fs, fs': Fs, i: nat) {
    && i !in fs'.inodes && i !in fs'.vnodes && i !in fs'.dirs && fs'.free == fs.free + [i]
    && forall e: nat :: e != i ==> (e in fs'.dirs <==> e in fs.dirs) && (e in fs.dirs ==> fs'.dirs[e] == fs.dirs[e])
  }

  /** s5fs_delete_vnode, when the last cached page of a vnode nobody holds goes. */
  lemma EvictIs(fs: Fs, i: nat, kind: Kind, stored: int)
    requires Node(fs, i, kind, stored, 0) && i in fs.vnodes && stored >= 0
    ensures var fs' := DeleteVnode(fs, i);
      && OthersSame(fs, fs', {i}) && i !in fs'.vnodes
      && if stored > 0 then Node(fs', i, kind, stored, 0) && fs'.dirs == fs.dirs && fs'.free == fs.free
         else Freed(fs, fs', i)
  {
  }

  // ---------------------------------------------------------------- lookup

  /** A name that is there gives the caller one reference to the inode it names, the empty name one to inode 0, and any
      other name is answered with -ENOENT. */
  lemma LookupIs(fs: Fs, d: nat, n: string, c: nat, kind: Kind, stored: int, refs: nat)
    requires d in fs.dirs
    ensures n != "" && n !in fs.dirs[d] ==> LookupFs(fs, d, n) == (fs, -ENOENT)
    ensures (if n == "" then c == 0 else HasEntry(fs, d, n, c)) && Node(fs, c, kind, stored, refs) ==>
      var (fs', ret) := LookupFs(fs, d, n);
      && ret == 0 && Node(fs', c, kind, stored, refs + 1) && c in fs'.vnodes
      && OthersSame(fs, fs', {c}) && fs'.dirs == fs.dirs && fs'.free == fs.free
  {
    if (if n == "" then c == 0 else HasEntry(fs, d, n, c)) && Node(fs, c, kind, stored, refs) {
      GetIs(fs, c, kind, stored, refs);
    }
  }

  // ---------------------------------------------------------------- making

  /** Entry n of d names c now, which is a new inode with the given links and references, from the top of the free
      list. */
  ghost predicate IsNew(fs: Fs, fs': Fs, d: nat, n: string, c: nat, kind: Kind, refs: nat) {
    && c !in fs.inodes && c !in fs.vnodes && fs.free == fs'.free + [c]
    && Node(fs', c, kind, 1, refs) && HasEntry(fs', d, n, c)
  }

  /** Where a new entry can be made for a new inode. */
  ghost predicate Open(fs: Fs, d: nat, n: string) {
    fs.free != [] && Unused(fs, fs.free[|fs.free| - 1]) && d != fs.free[|fs.free| - 1] && d in fs.dirs && n !in fs.dirs[d]
  }

  lemma IsOpen(fs: Fs, t: Tree, d: nat, n: string)
    requires Inv(fs, t) && Linkable(fs, t, d, n) && fs.free != []
    ensures Open(fs, d, n)
  {
    TopUnused(fs, t);
  }

  lemma CreateMakes(fs: Fs, d: nat, n: string, kind: Kind)
    requires Open(fs, d, n) && kind != Dir
    ensures var (fs', ret) := CreateFs(fs, d, n, kind, 0); var c := fs.free[|fs.free| - 1];
      && ret == 0 && IsNew(fs, fs', d, n, c, kind, 1) && c in fs'.vnodes
      && OthersSame(fs, fs', {c}) && EntriesSame(fs, fs', d, n, {})
  {
  }

  /** s5fs_create: the new file has the entry, one link and one reference.  err is what writing the entry failed with. */
  lemma CreateIs(fs: Fs, t: Tree, d: nat, n: string, kind: Kind, err: int)
    requires Inv(fs, t) && Linkable(fs, t, d, n) && kind != Dir
    ensures fs.free == [] ==> CreateFs(fs, d, n, kind, err) == (fs, -ENOSPC)
    ensures fs.free != [] && err < 0 ==> CreateFs(fs, d, n, kind, err) == (fs, err)
    ensures fs.free != [] && err >= 0 ==>
      var (fs', ret) := CreateFs(fs, d, n, kind, err); var c := fs.free[|fs.free| - 1];
      && ret == 0 && IsNew(fs, fs', d, n, c, kind, 1) && OthersSame(fs, fs', {c}) && EntriesSame(fs, fs', d, n, {})
  {
    if fs.free != [] {
      IsOpen(fs, t, d, n);
      FreshUndone(fs, t, kind);
      CreateMakes(fs, d, n, kind);
      assert err >= 0 ==> CreateFs(fs, d, n, kind, err) == CreateFs(fs, d, n, kind, 0);
    }
  }

  /** Giving the last reference to a new node up. */
  lemma PutNew(fs: Fs, made: Fs, d: nat, n: string, c: nat, kind: Kind, paged: bool, new_: set<nat>, touched: set<nat>)
    requires IsNew(fs, made, d, n, c, kind, 1) && c in touched
    requires OthersSame(fs, made, touched) && EntriesSame(fs, made, d, n, new_)
    ensures var fs' := PutVnode(made, c, paged);
      && IsNew(fs, fs', d, n, c, kind, 0) && (c in fs'.vnodes <==> paged) && fs'.dirs == made.dirs
      && OthersSame(fs, fs', touched) && EntriesSame(fs, fs', d, n, new_) && OthersSame(made, fs', {c})
  {
    var fs' := PutVnode(made, c, paged);
    PutIs(made, c, kind, 1, 1, paged);
    forall i: nat | i !in touched ensures SameNode(fs, fs', i) {
      assert SameNode(fs, made, i) && SameNode(made, fs', i);
    }
    forall e: nat, m: string, k: nat | e !in new_ && (e, m) != (d, n) ensures HasEntry(fs', e, m, k) <==> HasEntry(fs, e, m, k) {
      assert HasEntry(made, e, m, k) <==> HasEntry(fs, e, m, k);
    }
  }

  /** s5fs_mknod: the same without the reference; the vnode stays in memory while it has pages there. */
  lemma MknodIs(fs: Fs, t: Tree, d: nat, n: string, kind: Kind, err: int, paged: bool)
    requires Inv(fs, t) && Linkable(fs, t, d, n) && kind != Dir
    ensures fs.free == [] ==> MknodFs(fs, d, n, kind, err, paged) == (fs, -ENOSPC)
    ensures fs.free != [] && err < 0 ==> MknodFs(fs, d, n, kind, err, paged) == (fs, err)
    ensures fs.free != [] && err >= 0 ==>
      var (fs', ret) := MknodFs(fs, d, n, kind, err, paged); var c := fs.free[|fs.free| - 1];
      && ret == 0 && IsNew(fs, fs', d, n, c, kind, 0) && (c in fs'.vnodes <==> paged)
      && OthersSame(fs, fs', {c}) && EntriesSame(fs, fs', d, n, {})
  {
    CreateIs(fs, t, d, n, kind, err);
    if fs.free != [] && err >= 0 {
      var c := fs.free[|fs.free| - 1];
      PutNew(fs, CreateFs(fs, d, n, kind, err).0, d, n, c, kind, paged, {}, {c});
    }
  }

  /** The new directory c has the entries "." and ".." and no other, and d has a link more. */
  ghost predicate IsDirectory(fs': Fs, d: nat, c: nat, kind: Kind, stored: int, refs: nat) {
    && HasEntry(fs', c, ".", c) && HasEntry(fs', c, "..", d) && (forall m, k :: HasEntry(fs', c, m, k) ==> m == "." || m == "..")
    && Node(fs', d, kind, stored + 1, refs)
  }

  lemma DirMade(fs: Fs, d: nat, n: string, kind: Kind, stored: int, refs: nat)
    requires Open(fs, d, n) && Node(fs, d, kind, stored, refs)
    ensures var c := fs.free[|fs.free| - 1]; var made := LinkDir(Fresh(fs, Dir), d, n, c);
      && IsNew(fs, made, d, n, c, Dir, 1) && IsDirectory(made, d, c, kind, stored, refs)
      && OthersSame(fs, made, {c, d}) && EntriesSame(fs, made, d, n, {c})
  {
  }

  /** s5fs_mkdir. */
  lemma MkdirIs(fs: Fs, t: Tree, d: nat, n: string, err: int, paged: bool, kind: Kind, stored: int, refs: nat)
    requires Inv(fs, t) && Linkable(fs, t, d, n) && Node(fs, d, kind, stored, refs)
    ensures fs.free == [] ==> MkdirFs(fs, d, n, err, paged) == (fs, -ENOSPC)
    ensures fs.free != [] && err < 0 ==> MkdirFs(fs, d, n, err, paged) == (fs, -1)
    ensures fs.free != [] && err >= 0 ==>
      var (fs', ret) := MkdirFs(fs, d, n, err, paged); var c := fs.free[|fs.free| - 1];
      && ret == 0 && IsNew(fs, fs', d, n, c, Dir, 0) && (c in fs'.vnodes <==> paged)
      && IsDirectory(fs', d, c, kind, stored, refs)
      && OthersSame(fs, fs', {c, d}) && EntriesSame(fs, fs', d, n, {c})
  {
    if fs.free != [] {
      var c := fs.free[|fs.free| - 1];
      IsOpen(fs, t, d, n);
      FreshUndone(fs, t, Dir);
      DirMade(fs, d, n, kind, stored, refs);
      var made := LinkDir(Fresh(fs, Dir), d, n, c);
      PutNew(fs, made, d, n, c, Dir, paged, {c}, {c, d});
      DirectoryStays(made, PutVnode(made, c, paged), d, c, kind, stored, refs);
    }
  }

  lemma DirectoryStays(made: Fs, fs': Fs, d: nat, c: nat, kind: Kind, stored: int, refs: nat)
    requires IsDirectory(made, d, c, kind, stored, refs) && fs'.dirs == made.dirs && OthersSame(made, fs', {c}) && c != d
    ensures IsDirectory(fs', d, c, kind, stored, refs)
  {
    assert SameNode(made, fs', d);
    forall m, k | HasEntry(fs', c, m, k) ensures m == "." || m == ".." { assert HasEntry(made, c, m, k); }
  }

  /** s5fs_link: one entry more, and one link more for what it names. */
  lemma LinkIs(fs: Fs, d: nat, n: string, src: nat, kind: Kind, stored: int, refs: nat)
    requires d in fs.dirs && n !in fs.dirs[d] && Node(fs, src, kind, stored, refs)
    ensures var fs' := LinkTo(fs, d, n, src);
      && HasEntry(fs', d, n, src) && Node(fs', src, kind, stored + 1, refs)
      && OthersSame(fs, fs', {src}) && EntriesSame(fs, fs', d, n, {}) && fs'.free == fs.free && fs'.vnodes == fs.vnodes
  {
  }

  // ---------------------------------------------------------------- removing

  ghost predicate NoEntry(fs: Fs, d: nat, n: string) {
    d in fs.dirs && n !in fs.dirs[d]
  }

  /** Inode c loses its last link and goes, unless somebody holds it or something else names it. */
  ghost predicate LessLinked(fs: Fs, fs': Fs, c: nat, kind: Kind, stored: int, refs: nat) {
    if refs > 0 || stored > 1 then
      Node(fs', c, kind, stored - 1, refs) && fs'.free == fs.free && (c in fs.dirs <==> c in fs'.dirs)
    else
      c !in fs'.inodes && c !in fs'.vnodes && c !in fs'.dirs && fs'.free == fs.free + [c]
  }

  lemma UnlinkDoes(fs: Fs, d: nat, n: string, c: nat, paged: bool, kind: Kind, stored: int, refs: nat)
    requires HasEntry(fs, d, n, c) && c !in fs.dirs && Node(fs, c, kind, stored, refs) && stored > 0
    ensures var (fs', ret) := UnlinkFs(fs, d, n, paged);
      && ret == 0 && NoEntry(fs', d, n) && LessLinked(fs, fs', c, kind, stored, refs)
      && OthersSame(fs, fs', {c}) && EntriesSame(fs, fs', d, n, {})
  {
    var got := GetVnode(fs, c);
    GetIs(fs, c, kind, stored, refs);
    var less := Drop(got, d, n, c);
    assert Node(less, c, kind, stored - 1, refs + 1);
    PutIs(less, c, kind, stored - 1, refs + 1, paged);
    var fs' := PutVnode(less, c, paged);
    forall i: nat | i !in {c} ensures SameNode(fs, fs', i) {
      assert SameNode(fs, got, i) && SameNode(less, fs', i);
    }
    assert fs'.dirs == less.dirs;
  }

  /** The number of links on disk of what an entry names is not 0. */
  lemma NamedStored(fs: Fs, t: Tree, d: nat, n: string, c: nat, kind: Kind, stored: int, refs: nat)
    requires Inv(fs, t) && d in t.live && HasEntry(fs, d, n, c) && n != "." && Node(fs, c, kind, stored, refs)
    ensures stored > 0
  {
    NamesSome(fs.dirs, t.live, d, n);
  }

  /** s5fs_unlink. */
  lemma UnlinkIs(fs: Fs, t: Tree, d: nat, n: string, c: nat, paged: bool, kind: Kind, stored: int, refs: nat)
    requires Inv(fs, t) && Enabled(fs, t, Op.Unlink(d, n, paged))
    ensures NoEntry(fs, d, n) ==> UnlinkFs(fs, d, n, paged) == (fs, -ENOENT)
    ensures HasEntry(fs, d, n, c) && Node(fs, c, kind, stored, refs) ==>
      var (fs', ret) := UnlinkFs(fs, d, n, paged);
      && ret == 0 && NoEntry(fs', d, n) && LessLinked(fs, fs', c, kind, stored, refs)
      && OthersSame(fs, fs', {c}) && EntriesSame(fs, fs', d, n, {})
  {
    if HasEntry(fs, d, n, c) && Node(fs, c, kind, stored, refs) {
      NamedStored(fs, t, d, n, c, kind, stored, refs);
      UnlinkDoes(fs, d, n, c, paged, kind, stored, refs);
    }
  }

  /** A visit to c that changes nothing but, perhaps, whether its vnode is in memory. */
  ghost predicate OnlyLooked(fs: Fs, fs': Fs, c: nat, kind: Kind, stored: int, refs: nat) {
    Node(fs', c, kind, stored, refs) && OthersSame(fs, fs', {c}) && fs'.dirs == fs.dirs && fs'.free == fs.free
  }

  lemma GetPutIs(fs: Fs, c: nat, paged: bool, kind: Kind, stored: int, refs: nat)
    requires Node(fs, c, kind, stored, refs) && stored > 0
    ensures OnlyLooked(fs, PutVnode(GetVnode(fs, c), c, paged), c, kind, stored, refs)
  {
    var got := GetVnode(fs, c);
    GetIs(fs, c, kind, stored, refs);
    PutIs(got, c, kind, stored, refs + 1, paged);
    forall i: nat | i !in {c} ensures SameNode(fs, PutVnode(got, c, paged), i) {
      assert SameNode(fs, got, i);
    }
  }

  lemma RmdirDoes(fs: Fs, d: nat, n: string, c: nat, paged: bool, kd: Kind, sd: int, rd: nat, stored: int, refs: nat)
    requires HasEntry(fs, d, n, c) && c in fs.dirs && c != d && n != "" && |fs.dirs[c]| <= 2
    requires Node(fs, c, Dir, stored, refs) && stored > 0 && Node(fs, d, kd, sd, rd)
    ensures var (fs', ret) := RmdirFs(fs, d, n, paged);
      ret == 0 && DirRemoved(fs, fs', d, n, c, stored, refs, kd, sd, rd)
  {
    var got := GetVnode(fs, c);
    GetIs(fs, c, Dir, stored, refs);
    assert SameNode(fs, got, d);
    var less := DropDir(got, d, n, c);
    DropDirIs(got, d, n, c, stored, refs + 1, kd, sd, rd);
    PutIs(less, c, Dir, stored - 1, refs + 1, paged);
    var fs' := PutVnode(less, c, paged);
    assert SameNode(less, fs', d);
    forall i: nat | i !in {c, d} ensures SameNode(fs, fs', i) {
      assert SameNode(fs, got, i) && SameNode(got, less, i) && SameNode(less, fs', i);
    }
  }

  lemma DropDirIs(fs: Fs, d: nat, n: string, c: nat, stored: int, refs: nat, kd: Kind, sd: int, rd: nat)
    requires HasEntry(fs, d, n, c) && c != d && Node(fs, c, Dir, stored, refs) && Node(fs, d, kd, sd, rd)
    ensures var less := DropDir(fs, d, n, c);
      && Node(less, c, Dir, stored - 1, refs) && Node(less, d, kd, sd - 1, rd) && NoEntry(less, d, n)
      && OthersSame(fs, less, {c, d}) && EntriesSame(fs, less, d, n, {}) && less.free == fs.free
      && less.dirs.Keys == fs.dirs.Keys
  {
  }

  /** s5fs_rmdir, for a name other than "".  A directory with an entry besides "." and ".." and what is no directory are
      left alone. */
  lemma RmdirIs(fs: Fs, t: Tree, d: nat, n: string, c: nat, paged: bool, kind: Kind, stored: int, refs: nat,
                kd: Kind, sd: int, rd: nat)
    requires Inv(fs, t) && Enabled(fs, t, Op.Rmdir(d, n, paged)) && n != "" && Node(fs, d, kd, sd, rd)
    ensures NoEntry(fs, d, n) ==> RmdirFs(fs, d, n, paged) == (fs, -ENOENT)
    ensures HasEntry(fs, d, n, c) && Node(fs, c, kind, stored, refs) ==>
      var (fs', ret) := RmdirFs(fs, d, n, paged);
      if kind != Dir then ret == -ENOTDIR && OnlyLooked(fs, fs', c, kind, stored, refs)
      else if exists m, k :: HasEntry(fs, c, m, k) && m != "." && m != ".." then
        ret == -ENOTEMPTY && OnlyLooked(fs, fs', c, kind, stored, refs)
      else ret == 0 && DirRemoved(fs, fs', d, n, c, stored, refs, kd, sd, rd)
  {
    if HasEntry(fs, d, n, c) && Node(fs, c, kind, stored, refs) {
      NamedStored(fs, t, d, n, c, kind, stored, refs);
      if kind == Dir { OnlyDots(fs, t, d, n, c); }
      RmdirCases(fs, d, n, c, paged, kind, stored, refs, kd, sd, rd);
    }
  }

  /** Entry n of d is gone, the directory c with it unless somebody holds it, and d has a link less. */
  ghost predicate DirRemoved(fs: Fs, fs': Fs, d: nat, n: string, c: nat, stored: int, refs: nat, kd: Kind, sd: int, rd: nat) {
    && NoEntry(fs', d, n) && LessLinked(fs, fs', c, Dir, stored, refs) && Node(fs', d, kd, sd - 1, rd)
    && OthersSame(fs, fs', {c, d}) && EntriesSame(fs, fs', d, n, {c})
  }

  lemma RmdirCases(fs: Fs, d: nat, n: string, c: nat, paged: bool, kind: Kind, stored: int, refs: nat,
                   kd: Kind, sd: int, rd: nat)
    requires HasEntry(fs, d, n, c) && n != "" && Node(fs, c, kind, stored, refs) && stored > 0 && Node(fs, d, kd, sd, rd)
    requires kind == Dir ==> c in fs.dirs && c != d && (RECORD * |fs.dirs[c]| <= DIRENT * 2 <==> fs.dirs[c] == NewDir(c, d))
    requires kind == Dir && fs.dirs[c] == NewDir(c, d) ==> |fs.dirs[c]| <= 2
    ensures var (fs', ret) := RmdirFs(fs, d, n, paged);
      if kind != Dir then ret == -ENOTDIR && OnlyLooked(fs, fs', c, kind, stored, refs)
      else if fs.dirs[c] != NewDir(c, d) then ret == -ENOTEMPTY && OnlyLooked(fs, fs', c, kind, stored, refs)
      else ret == 0 && DirRemoved(fs, fs', d, n, c, stored, refs, kd, sd, rd)
  {
    GetPutIs(fs, c, paged, kind, stored, refs);
    if kind == Dir && fs.dirs[c] == NewDir(c, d) { RmdirDoes(fs, d, n, c, paged, kd, sd, rd, stored, refs); }
  }

  lemma OnlyDots(fs: Fs, t: Tree, d: nat, n: string, c: nat)
    requires Inv(fs, t) && Usable(fs, t, d) && Proper(n) && HasEntry(fs, d, n, c) && c in fs.inodes && fs.inodes[c].kind == Dir
    ensures c in fs.dirs && c != d && (RECORD * |fs.dirs[c]| <= DIRENT * 2 <==> fs.dirs[c] == NewDir(c, d))
    ensures fs.dirs[c] == NewDir(c, d) ==> |fs.dirs[c]| <= 2
    ensures fs.dirs[c] == NewDir(c, d) <==> !exists m, k :: HasEntry(fs, c, m, k) && m != "." && m != ".."
  {
    assert EntryOk(fs, t, d, n) && LiveDirOk(fs, t, d);
    assert LiveDirOk(fs, t, c);
    SizeTest(fs, t, d, n, c);
    DotsAlone(fs, c, d);
  }

  lemma DotsAlone(fs: Fs, c: nat, d: nat)
    requires HasEntry(fs, c, ".", c) && HasEntry(fs, c, "..", d)
    ensures fs.dirs[c] == NewDir(c, d) <==> !exists m, k :: HasEntry(fs, c, m, k) && m != "." && m != ".."
  {
    var e := fs.dirs[c];
    if forall m | m in e :: m == "." || m == ".." {
      assert e == NewDir(c, d);
    } else {
      var m :| m in e && m != "." && m != "..";
      assert HasEntry(fs, c, m, e[m]);
    }
  }

  /** The empty name leads s5fs_rmdir to inode 0, but there is no such entry to remove. */
  lemma RmdirOfNothing(fs: Fs, d: nat, paged: bool, kind: Kind, stored: int, refs: nat)
    requires NoEntry(fs, d, "") && Node(fs, 0, kind, stored, refs) && stored > 0
    ensures var (fs', ret) := RmdirFs(fs, d, "", paged);
      (ret == -ENOTDIR || ret == -ENOTEMPTY || ret == -ENOENT) && OnlyLooked(fs, fs', 0, kind, stored, refs)
    ensures kind != Dir <==> RmdirFs(fs, d, "", paged).1 == -ENOTDIR
  {
    GetPutIs(fs, 0, paged, kind, stored, refs);
  }
}
