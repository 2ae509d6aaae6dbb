/**
  Link counts of the S5 file system.  An inode counts the directory entries that name it, other than
  ".", and one more while its vnode is in memory; it is freed when nothing is left to count.
 */
module S5Links {
  import opened Errno

  datatype Kind = Data | Dir | Chr | Blk

  /** links is s5_linkcount. */
  datatype Inode = Inode(kind: Kind, links: int)

  /** What is stored and what is in memory.
      inodes: the allocated inodes; dirs: the entries of each directory; free: the free inodes, top last;
      vnodes: the vnodes in memory, each with the number of its active references. */
  datatype Fs = Fs(root: nat, inodes: map<nat, Inode>, dirs: map<nat, Entries>, free: seq<nat>, vnodes: map<nat, nat>)

  /** The tree of directories that can be named.  A directory removed while somebody holds its vnode is
      in dirs but no longer live.  up: the directory and name a live directory is found under. */
  datatype Tree = Tree(live: set<nat>, up: map<nat, (nat, string)>, depth: map<nat, nat>)

  type Entries = map<string, nat>

  function EntriesOf(dirs: map<nat, Entries>, d: nat): Entries {
    if d in dirs then dirs[d] else map[]
  }

  function AddEntry(dirs: map<nat, Entries>, d: nat, n: string, c: nat): map<nat, Entries>
  {
    var e: Entries := EntriesOf(dirs, d)[n := c];
    dirs[d := e]
  }

  function DropEntry(dirs: map<nat, Entries>, d: nat, n: string): map<nat, Entries>
  {
    var e: Entries := EntriesOf(dirs, d) - {n};
    dirs[d := e]
  }

  /** What s5fs_mkdir puts into a new directory. */
  function NewDir(c: nat, p: nat): Entries {
    map["." := c, ".." := p]
  }

  // ---------------------------------------------------------------- counting entries

  /** The entry n of directory d is one that i's link count counts. */
  ghost predicate Counts(dirs: map<nat, Entries>, live: set<nat>, i: nat, d: nat, n: string) {
    d in live && d in dirs && n in dirs[d] && n != "." && dirs[d][n] == i
  }

  ghost function Naming(dirs: map<nat, Entries>, live: set<nat>, i: nat): set<(nat, string)> {
    set d, n | d in live && d in dirs && n in dirs[d] && Counts(dirs, live, i, d, n) :: (d, n)
  }

  /** How many entries of live directories name i, "." not counted. */
  ghost function Names(dirs: map<nat, Entries>, live: set<nat>, i: nat): nat {
    |Naming(dirs, live, i)|
  }

  lemma NamingIn(dirs: map<nat, Entries>, live: set<nat>, i: nat, p: (nat, string))
    ensures p in Naming(dirs, live, i) <==> Counts(dirs, live, i, p.0, p.1)
  {
  }

  /** Two name spaces that differ, for i, at most in entry n of d. */
  lemma NamesDiffer(dirs: map<nat, Entries>, live: set<nat>, dirs': map<nat, Entries>, live': set<nat>,
                    i: nat, d: nat, n: string)
    requires forall e: nat, m: string :: (e, m) != (d, n) ==> Counts(dirs', live', i, e, m) == Counts(dirs, live, i, e, m)
    ensures Names(dirs', live', i) == Names(dirs, live, i)
      + (if Counts(dirs', live', i, d, n) then 1 else 0) - (if Counts(dirs, live, i, d, n) then 1 else 0)
  {
    var s, s' := Naming(dirs, live, i), Naming(dirs', live', i);
    forall p | p != (d, n) ensures p in s <==> p in s' {
      NamingIn(dirs, live, i, p);
      NamingIn(dirs', live', i, p);
      assert p == (p.0, p.1);
    }
    NamingIn(dirs, live, i, (d, n));
    NamingIn(dirs', live', i, (d, n));
    OneMoreOrLess(s, s', (d, n));
  }

  lemma OneMoreOrLess(s: set<(nat, string)>, s': set<(nat, string)>, x: (nat, string))
    requires forall p :: p != x ==> (p in s <==> p in s')
    ensures |s'| == |s| + (if x in s' then 1 else 0) - (if x in s then 1 else 0)
  {
    assert s - {x} == s' - {x};
    assert |s| == |s - {x}| + if x in s then 1 else 0;
    assert |s'| == |s' - {x}| + if x in s' then 1 else 0;
  }

  lemma NamesAdd(dirs: map<nat, Entries>, live: set<nat>, d: nat, n: string, c: nat, i: nat)
    requires d in live && d in dirs && n !in dirs[d] && n != "."
    ensures Names(AddEntry(dirs, d, n, c), live, i) == Names(dirs, live, i) + if i == c then 1 else 0
  {
    NamesDiffer(dirs, live, AddEntry(dirs, d, n, c), live, i, d, n);
  }

  lemma NamesDrop(dirs: map<nat, Entries>, live: set<nat>, d: nat, n: string, i: nat)
    requires d in live && d in dirs && n in dirs[d] && n != "."
    ensures Names(dirs, live, i) == Names(DropEntry(dirs, d, n), live, i) + if i == dirs[d][n] then 1 else 0
  {
    NamesDiffer(dirs, live, DropEntry(dirs, d, n), live, i, d, n);
  }

  /** A new directory holding "." and ".." counts once, for its parent. */
  lemma NamesNewDir(dirs: map<nat, Entries>, live: set<nat>, c: nat, p: nat, i: nat)
    requires c !in live
    ensures Names(dirs[c := NewDir(c, p)], live + {c}, i) == Names(dirs, live, i) + if i == p then 1 else 0
  {
    NamesDiffer(dirs, live, dirs[c := NewDir(c, p)], live + {c}, i, c, "..");
  }

  /** An empty directory that stops being live stops counting for its parent. */
  lemma NamesOldDir(dirs: map<nat, Entries>, live: set<nat>, c: nat, p: nat, i: nat)
    requires c in live && c in dirs && dirs[c] == NewDir(c, p)
    ensures Names(dirs, live, i) == Names(dirs, live - {c}, i) + if i == p then 1 else 0
  {
    NamesDiffer(dirs, live, dirs, live - {c}, i, c, "..");
  }

  lemma NamesFrame(dirs: map<nat, Entries>, dirs': map<nat, Entries>, live: set<nat>, i: nat)
    requires forall d :: d in live ==> (d in dirs <==> d in dirs') && (d in dirs ==> dirs'[d] == dirs[d])
    ensures Names(dirs', live, i) == Names(dirs, live, i)
  {
    NamesDiffer(dirs, live, dirs', live, i, 0, "");
  }

  lemma NamesSome(dirs: map<nat, Entries>, live: set<nat>, d: nat, n: string)
    requires d in live && d in dirs && n in dirs[d] && n != "."
    ensures Names(dirs, live, dirs[d][n]) > 0
  {
    assert (d, n) in Naming(dirs, live, dirs[d][n]);
  }

  // ---------------------------------------------------------------- the invariant

  ghost predicate DomainsOk(fs: Fs, t: Tree) {
    && (forall i :: i in fs.dirs <==> i in fs.inodes && fs.inodes[i].kind == Dir)
    && (forall i :: i in t.live ==> i in fs.dirs)
    && (forall i :: i in fs.vnodes ==> i in fs.inodes)
    && fs.root in t.live && fs.root in fs.vnodes && fs.vnodes[fs.root] > 0
    && (forall i :: i in fs.free ==> i !in fs.inodes)
    && (forall j, k :: 0 <= j < k < |fs.free| ==> fs.free[j] != fs.free[k])
  }

  /** Every inode's link count is the number of entries naming it, plus one if its vnode is in memory;
      and no allocated inode counts nothing. */
  ghost predicate LinksOk(fs: Fs, t: Tree) {
    forall i :: i in fs.inodes ==>
      && fs.inodes[i].links == Names(fs.dirs, t.live, i) + (if i in fs.vnodes then 1 else 0)
      && fs.inodes[i].links > 0
  }

  ghost predicate Proper(n: string) {
    n != "." && n != ".."
  }

  ghost predicate LiveDirOk(fs: Fs, t: Tree, d: nat)
    requires d in fs.dirs
  {
    var e := fs.dirs[d];
    && "." in e && e["."] == d && ".." in e && "" !in e
    && if d == fs.root then e[".."] == d
       else
         && d in t.up && d in t.depth
         && var (p, n) := t.up[d];
         && p in t.live && p in fs.dirs && Proper(n) && n in fs.dirs[p] && fs.dirs[p][n] == d && e[".."] == p
         && t.depth[d] == (if p in t.depth then t.depth[p] else 0) + 1
  }

  /** An entry with a proper name names an allocated inode, and a directory only in one place. */
  ghost predicate EntryOk(fs: Fs, t: Tree, d: nat, n: string)
    requires d in fs.dirs && n in fs.dirs[d]
  {
    var c := fs.dirs[d][n];
    && c in fs.inodes && c != fs.root
    && (c in fs.dirs ==> c in t.live && c in t.up && t.up[c] == (d, n))
  }

  ghost predicate TreeOk(fs: Fs, t: Tree) {
    && fs.root !in t.depth
    && (forall d {:trigger LiveDirOk(fs, t, d)} :: d in t.live && d in fs.dirs ==> LiveDirOk(fs, t, d))
    && (forall d, n {:trigger EntryOk(fs, t, d, n)} ::
          d in t.live && d in fs.dirs && n in fs.dirs[d] && Proper(n) ==> EntryOk(fs, t, d, n))
    && (forall d :: d in fs.dirs && d !in t.live ==> d in fs.vnodes && |fs.dirs[d]| <= 2)
  }

  ghost predicate Inv(fs: Fs, t: Tree) {
    DomainsOk(fs, t) && LinksOk(fs, t) && TreeOk(fs, t)
  }

  /** Directory d stands in the tree as before: its own fixed entries and the one it is found under are there. */
  lemma LiveDirFrame(fs: Fs, t: Tree, fs': Fs, t': Tree, d: nat)
    requires d in fs.dirs && d in fs'.dirs && fs'.root == fs.root && LiveDirOk(fs, t, d)
    requires forall m :: m == "." || m == ".." || m == "" ==>
      (m in fs.dirs[d] <==> m in fs'.dirs[d]) && (m in fs.dirs[d] ==> fs'.dirs[d][m] == fs.dirs[d][m])
    requires d != fs.root ==>
      && t'.up == t.up && t'.depth == t.depth
      && var (p, n) := t.up[d]; p in t'.live && p in fs'.dirs && n in fs'.dirs[p] && fs'.dirs[p][n] == d
    ensures LiveDirOk(fs', t', d)
  {
  }

  lemma EntryFrame(fs: Fs, t: Tree, fs': Fs, t': Tree, d: nat, n: string)
    requires d in fs.dirs && n in fs.dirs[d] && EntryOk(fs, t, d, n) && fs'.root == fs.root && t'.up == t.up
    requires d in fs'.dirs && n in fs'.dirs[d] && fs'.dirs[d][n] == fs.dirs[d][n]
    requires fs.dirs[d][n] in fs'.inodes
    requires fs.dirs[d][n] in fs'.dirs ==> fs.dirs[d][n] in fs.dirs && fs.dirs[d][n] in t'.live
    ensures EntryOk(fs', t', d, n)
  {
  }

  // ---------------------------------------------------------------- vnodes in memory

  function AddLinks(inodes: map<nat, Inode>, i: nat, k: int): map<nat, Inode> {
    if i in inodes then inodes[i := inodes[i].(links := inodes[i].links + k)] else inodes
  }

  function LinksOf(fs: Fs, i: nat): int {
    if i in fs.inodes then fs.inodes[i].links else 0
  }

  function RefsOf(fs: Fs, i: nat): nat {
    if i in fs.vnodes then fs.vnodes[i] else 0
  }

  /** The links of i that its vnode does not account for. */
  function Stored(fs: Fs, i: nat): int {
    LinksOf(fs, i) - if i in fs.vnodes then 1 else 0
  }

  /** vget: a vnode read in counts as a link. */
  function GetVnode(fs: Fs, i: nat): Fs {
    if i in fs.vnodes then fs.(vnodes := fs.vnodes[i := fs.vnodes[i] + 1])
    else fs.(vnodes := fs.vnodes[i := 1], inodes := AddLinks(fs.inodes, i, 1))
  }

  function FreeInode(fs: Fs, i: nat): Fs {
    fs.(vnodes := fs.vnodes - {i}, inodes := fs.inodes - {i}, dirs := fs.dirs - {i}, free := fs.free + [i])
  }

  /** s5fs_delete_vnode. */
  function DeleteVnode(fs: Fs, i: nat): Fs {
    if LinksOf(fs, i) == 1 then FreeInode(fs, i)
    else fs.(vnodes := fs.vnodes - {i}, inodes := AddLinks(fs.inodes, i, -1))
  }

  /** vput.  At the last active reference the vnode goes if s5fs_query_vnode says that nothing but the
      vnode itself is counted; otherwise it stays exactly while cached pages refer to it. */
  function PutVnode(fs: Fs, i: nat, paged: bool): Fs {
    if RefsOf(fs, i) > 1 then fs.(vnodes := fs.vnodes[i := fs.vnodes[i] - 1])
    else if LinksOf(fs, i) > 1 && paged then fs.(vnodes := fs.vnodes[i := 0])
    else DeleteVnode(fs, i)
  }

  lemma GetKeeps(fs: Fs, t: Tree, i: nat)
    requires Inv(fs, t) && i in fs.inodes
    ensures Inv(GetVnode(fs, i), t)
  {
    LinksOnGet(fs, t, i);
    TreeOnGet(fs, t, i);
    DomainsOnGet(fs, t, i);
  }

  lemma TreeOnGet(fs: Fs, t: Tree, i: nat)
    requires TreeOk(fs, t)
    ensures TreeOk(GetVnode(fs, i), t)
  {
    TreeOnVnodes(fs, GetVnode(fs, i), t);
  }

  lemma DomainsOnGet(fs: Fs, t: Tree, i: nat)
    requires DomainsOk(fs, t) && i in fs.inodes
    ensures DomainsOk(GetVnode(fs, i), t)
  {
    DomainsOnVnodes(fs, GetVnode(fs, i), t);
  }

  /** Reading vnodes in changes nothing the tree depends on. */
  lemma TreeOnVnodes(fs: Fs, fs': Fs, t: Tree)
    requires TreeOk(fs, t) && fs'.root == fs.root && fs'.dirs == fs.dirs && fs'.inodes.Keys == fs.inodes.Keys
    requires forall d :: d in fs.dirs && d !in t.live ==> d in fs'.vnodes
    ensures TreeOk(fs', t)
  {
    forall d | d in t.live && d in fs'.dirs ensures LiveDirOk(fs', t, d) {
      assert LiveDirOk(fs, t, d);
    }
    forall d, n | d in t.live && d in fs'.dirs && n in fs'.dirs[d] && Proper(n) ensures EntryOk(fs', t, d, n) {
      assert EntryOk(fs, t, d, n);
    }
  }

  lemma DomainsOnVnodes(fs: Fs, fs': Fs, t: Tree)
    requires DomainsOk(fs, t) && fs'.root == fs.root && fs'.dirs == fs.dirs && fs'.free == fs.free
    requires forall i :: (i in fs'.inodes <==> i in fs.inodes) && (i in fs.inodes ==> fs'.inodes[i].kind == fs.inodes[i].kind)
    requires forall i :: i in fs'.vnodes ==> i in fs.inodes
    requires RefsOf(fs', fs.root) > 0
    ensures DomainsOk(fs', t)
  {
  }

  lemma LinksOnGet(fs: Fs, t: Tree, i: nat)
    requires LinksOk(fs, t)
    ensures LinksOk(GetVnode(fs, i), t)
  {
  }

  lemma LinksOnDrop(fs: Fs, t: Tree, i: nat)
    requires LinksOk(fs, t) && i in fs.vnodes && LinksOf(fs, i) > 1
    ensures LinksOk(DeleteVnode(fs, i), t)
  {
  }

  lemma EntryNamesInode(fs: Fs, t: Tree, d: nat, n: string)
    requires Inv(fs, t) && d in t.live && n in fs.dirs[d]
    ensures fs.dirs[d][n] in fs.inodes && (fs.dirs[d][n] in fs.dirs ==> fs.dirs[d][n] in t.live)
    ensures Proper(n) ==> fs.dirs[d][n] != fs.root
  {
    assert LiveDirOk(fs, t, d);
    if Proper(n) { assert EntryOk(fs, t, d, n); }
  }

  /** No entry of a live directory names a directory that was removed. */
  lemma RemovedUnnamed(fs: Fs, t: Tree, c: nat)
    requires Inv(fs, t) && c in fs.dirs && c !in t.live
    ensures Names(fs.dirs, t.live, c) == 0
  {
    forall p ensures p !in Naming(fs.dirs, t.live, c) {
      NamingIn(fs.dirs, t.live, c, p);
      if p.0 in t.live && p.0 in fs.dirs && p.1 in fs.dirs[p.0] { EntryNamesInode(fs, t, p.0, p.1); }
    }
    assert Naming(fs.dirs, t.live, c) == {};
  }

  /** Something always names a live directory. */
  lemma LiveNamed(fs: Fs, t: Tree, d: nat)
    requires Inv(fs, t) && d in t.live
    ensures Names(fs.dirs, t.live, d) > 0
  {
    assert LiveDirOk(fs, t, d);
    if d == fs.root {
      NamesSome(fs.dirs, t.live, d, "..");
    } else {
      NamesSome(fs.dirs, t.live, t.up[d].0, t.up[d].1);
    }
  }

  lemma KeptTree(fs: Fs, t: Tree, i: nat)
    requires TreeOk(fs, t) && LinksOf(fs, i) > 1 && (i in fs.dirs ==> i in t.live)
    ensures TreeOk(DeleteVnode(fs, i), t)
  {
    TreeOnVnodes(fs, DeleteVnode(fs, i), t);
  }

  lemma KeptDomains(fs: Fs, t: Tree, i: nat)
    requires DomainsOk(fs, t) && i != fs.root && LinksOf(fs, i) > 1
    ensures DomainsOk(DeleteVnode(fs, i), t)
  {
    DomainsOnVnodes(fs, DeleteVnode(fs, i), t);
  }

  lemma KeptOk(fs: Fs, t: Tree, i: nat)
    requires Inv(fs, t) && i in fs.vnodes && i != fs.root && LinksOf(fs, i) > 1
    ensures Inv(DeleteVnode(fs, i), t)
  {
    if i in fs.dirs && i !in t.live { RemovedUnnamed(fs, t, i); }
    KeptTree(fs, t, i);
    KeptDomains(fs, t, i);
    LinksOnDrop(fs, t, i);
  }

  lemma FreedEntry(fs: Fs, t: Tree, i: nat, d: nat, n: string)
    requires i !in t.live && Names(fs.dirs, t.live, i) == 0
    requires d in t.live && d in fs.dirs && n in fs.dirs[d] && Proper(n) && EntryOk(fs, t, d, n)
    ensures EntryOk(FreeInode(fs, i), t, d, n)
  {
    NamesSome(fs.dirs, t.live, d, n);
    EntryFrame(fs, t, FreeInode(fs, i), t, d, n);
  }

  lemma FreedTree(fs: Fs, t: Tree, i: nat)
    requires DomainsOk(fs, t) && TreeOk(fs, t) && i in fs.inodes && i !in t.live && Names(fs.dirs, t.live, i) == 0
    ensures TreeOk(FreeInode(fs, i), t)
  {
    var fs' := FreeInode(fs, i);
    forall d | d in t.live && d in fs'.dirs ensures LiveDirOk(fs', t, d) {
      assert LiveDirOk(fs, t, d);
      LiveDirFrame(fs, t, fs', t, d);
    }
    forall d, n | d in t.live && d in fs'.dirs && n in fs'.dirs[d] && Proper(n) ensures EntryOk(fs', t, d, n) {
      assert EntryOk(fs, t, d, n);
      FreedEntry(fs, t, i, d, n);
    }
  }

  lemma FreedLinks(fs: Fs, t: Tree, i: nat)
    requires LinksOk(fs, t) && i !in t.live
    ensures LinksOk(FreeInode(fs, i), t)
  {
    var dirs' := fs.dirs - {i};
    forall j: nat ensures Names(dirs', t.live, j) == Names(fs.dirs, t.live, j) {
      NamesFrame(fs.dirs, dirs', t.live, j);
    }
  }

  lemma FreedDomains(fs: Fs, t: Tree, i: nat)
    requires DomainsOk(fs, t) && i in fs.inodes && i !in t.live && i != fs.root
    ensures DomainsOk(FreeInode(fs, i), t)
  {
    var fs' := FreeInode(fs, i);
    assert forall j :: j in fs'.free ==> j == i || j in fs.free;
  }

  lemma FreedOk(fs: Fs, t: Tree, i: nat)
    requires Inv(fs, t) && i in fs.vnodes && i != fs.root && fs.inodes[i].links == 1
    ensures Inv(DeleteVnode(fs, i), t)
  {
    if i in t.live { LiveNamed(fs, t, i); }
    FreedTree(fs, t, i);
    FreedLinks(fs, t, i);
    FreedDomains(fs, t, i);
    assert DeleteVnode(fs, i) == FreeInode(fs, i);
  }

  /** A vnode leaves memory: the inode is freed exactly if no entry names it. */
  lemma DeleteKeeps(fs: Fs, t: Tree, i: nat)
    requires Inv(fs, t) && i in fs.vnodes && i != fs.root
    ensures Inv(DeleteVnode(fs, i), t)
    ensures i !in DeleteVnode(fs, i).inodes <==> Names(fs.dirs, t.live, i) == 0
  {
    if fs.inodes[i].links == 1 {
      FreedOk(fs, t, i);
    } else {
      KeptOk(fs, t, i);
    }
  }

  lemma PutKeeps(fs: Fs, t: Tree, i: nat, paged: bool)
    requires Inv(fs, t) && i in fs.vnodes && fs.vnodes[i] > 0 && (i == fs.root ==> fs.vnodes[i] > 1)
    ensures Inv(PutVnode(fs, i, paged), t)
    ensures i !in PutVnode(fs, i, paged).inodes <==> fs.vnodes[i] == 1 && Names(fs.dirs, t.live, i) == 0
  {
    if fs.vnodes[i] > 1 || (fs.inodes[i].links > 1 && paged) {
      TreeOnVnodes(fs, PutVnode(fs, i, paged), t);
      DomainsOnVnodes(fs, PutVnode(fs, i, paged), t);
    } else {
      DeleteKeeps(fs, t, i);
    }
  }

  /** An inode is allocated exactly while an entry names it or its vnode is in memory. */
  lemma AllocatedIff(fs: Fs, t: Tree, i: nat)
    requires Inv(fs, t)
    ensures i in fs.inodes <==> Names(fs.dirs, t.live, i) > 0 || i in fs.vnodes
    ensures i in fs.free ==> forall d, n :: d in t.live && n in fs.dirs[d] ==> fs.dirs[d][n] != i
  {
    forall d, n | d in t.live && n in fs.dirs[d] ensures fs.dirs[d][n] in fs.inodes {
      EntryNamesInode(fs, t, d, n);
    }
    if i !in fs.inodes {
      forall p ensures p !in Naming(fs.dirs, t.live, i) {
        NamingIn(fs.dirs, t.live, i, p);
      }
      assert Naming(fs.dirs, t.live, i) == {};
    }
  }

  // ---------------------------------------------------------------- the operations

  /** s5_alloc_inode followed by vget: the inode on top of the free list, read into memory. */
  function Fresh(fs: Fs, kind: Kind): Fs
    requires fs.free != []
  {
    var c := fs.free[|fs.free| - 1];
    fs.(free := fs.free[..|fs.free| - 1], inodes := fs.inodes[c := Inode(kind, 1)], vnodes := fs.vnodes[c := 1],
        dirs := if kind == Dir then fs.dirs[c := map[]] else fs.dirs)
  }

  /** s5_link of a name other than ".". */
  function LinkTo(fs: Fs, d: nat, n: string, i: nat): Fs {
    fs.(dirs := AddEntry(fs.dirs, d, n, i), inodes := AddLinks(fs.inodes, i, 1))
  }

  /** The three entries s5fs_mkdir writes for the new directory c. */
  function LinkDir(fs: Fs, d: nat, n: string, c: nat): Fs {
    fs.(dirs := AddEntry(fs.dirs, d, n, c)[c := NewDir(c, d)], inodes := AddLinks(AddLinks(fs.inodes, c, 1), d, 1))
  }

  ghost function Grown(t: Tree, d: nat, n: string, c: nat): Tree {
    Tree(t.live + {c}, t.up[c := (d, n)], t.depth[c := (if d in t.depth then t.depth[d] else 0) + 1])
  }

  lemma FreshTree(fs: Fs, t: Tree, kind: Kind)
    requires DomainsOk(fs, t) && TreeOk(fs, t) && fs.free != []
    ensures TreeOk(Fresh(fs, kind), t)
  {
    var fs' := Fresh(fs, kind);
    assert fs.free[|fs.free| - 1] in fs.free;
    forall d | d in t.live && d in fs'.dirs ensures LiveDirOk(fs', t, d) {
      assert LiveDirOk(fs, t, d);
    }
    forall d, n | d in t.live && d in fs'.dirs && n in fs'.dirs[d] && Proper(n) ensures EntryOk(fs', t, d, n) {
      assert EntryOk(fs, t, d, n);
    }
  }

  lemma FreshLinks(fs: Fs, t: Tree, kind: Kind)
    requires Inv(fs, t) && fs.free != []
    ensures LinksOk(Fresh(fs, kind), t)
  {
    var c := fs.free[|fs.free| - 1];
    var dirs' := Fresh(fs, kind).dirs;
    AllocatedIff(fs, t, c);
    assert c in fs.free;
    forall j: nat ensures Names(dirs', t.live, j) == Names(fs.dirs, t.live, j) {
      NamesFrame(fs.dirs, dirs', t.live, j);
    }
  }

  lemma FreshDomains(fs: Fs, t: Tree, kind: Kind)
    requires DomainsOk(fs, t) && fs.free != []
    ensures DomainsOk(Fresh(fs, kind), t)
  {
    assert fs.free[|fs.free| - 1] in fs.free;
  }

  lemma FreshKeeps(fs: Fs, t: Tree, kind: Kind)
    requires Inv(fs, t) && fs.free != []
    ensures Inv(Fresh(fs, kind), t)
  {
    FreshTree(fs, t, kind);
    FreshLinks(fs, t, kind);
    FreshDomains(fs, t, kind);
  }

  /** Giving a fresh inode back, as s5fs_create does when its entry cannot be written, restores everything. */
  lemma FreshUndone(fs: Fs, t: Tree, kind: Kind)
    requires DomainsOk(fs, t) && fs.free != []
    ensures PutVnode(Fresh(fs, kind), fs.free[|fs.free| - 1], false) == fs
  {
    var c := fs.free[|fs.free| - 1];
    var fs' := Fresh(fs, kind);
    assert c in fs.free;
    assert fs'.inodes - {c} == fs.inodes;
    assert fs'.dirs - {c} == fs.dirs;
    assert fs'.vnodes - {c} == fs.vnodes;
  }

  // ---------------------------------------------------------------- a new entry

  /** d is a live directory whose vnode the caller holds. */
  ghost predicate Usable(fs: Fs, t: Tree, d: nat) {
    d in t.live && d in fs.dirs && RefsOf(fs, d) > 0
  }

  /** A name s5fs_lookup does not find, as the assertions of create, mknod, mkdir and link demand. */
  ghost predicate Linkable(fs: Fs, t: Tree, d: nat, n: string) {
    Usable(fs, t, d) && Proper(n) && n != "" && n !in fs.dirs[d]
  }

  lemma LinkToTree(fs: Fs, t: Tree, d: nat, n: string, i: nat)
    requires TreeOk(fs, t) && Linkable(fs, t, d, n) && i in fs.inodes && i !in fs.dirs && i != fs.root
    ensures TreeOk(LinkTo(fs, d, n, i), t)
  {
    var fs' := LinkTo(fs, d, n, i);
    forall e | e in t.live && e in fs'.dirs ensures LiveDirOk(fs', t, e) {
      assert LiveDirOk(fs, t, e);
      LiveDirFrame(fs, t, fs', t, e);
    }
    forall e, m | e in t.live && e in fs'.dirs && m in fs'.dirs[e] && Proper(m) ensures EntryOk(fs', t, e, m) {
      if (e, m) != (d, n) {
        assert EntryOk(fs, t, e, m);
        EntryFrame(fs, t, fs', t, e, m);
      }
    }
  }

  lemma LinkToDomains(fs: Fs, t: Tree, d: nat, n: string, i: nat)
    requires DomainsOk(fs, t) && d in fs.dirs
    ensures DomainsOk(LinkTo(fs, d, n, i), t)
  {
  }

  lemma LinkToLinks(fs: Fs, t: Tree, d: nat, n: string, i: nat)
    requires LinksOk(fs, t) && Linkable(fs, t, d, n)
    ensures LinksOk(LinkTo(fs, d, n, i), t)
  {
    forall j: nat
      ensures Names(AddEntry(fs.dirs, d, n, i), t.live, j) == Names(fs.dirs, t.live, j) + if j == i then 1 else 0
    {
      NamesAdd(fs.dirs, t.live, d, n, i, j);
    }
  }

  /** A second name for something that is not a directory, or the first name of a fresh inode. */
  lemma LinkToKeeps(fs: Fs, t: Tree, d: nat, n: string, i: nat)
    requires Inv(fs, t) && Linkable(fs, t, d, n) && i in fs.inodes && i !in fs.dirs
    ensures Inv(LinkTo(fs, d, n, i), t)
  {
    LinkToTree(fs, t, d, n, i);
    LinkToLinks(fs, t, d, n, i);
    LinkToDomains(fs, t, d, n, i);
  }

  ghost predicate Unnamed(fs: Fs, t: Tree, c: nat) {
    c in fs.dirs && c !in t.live && fs.dirs[c] == map[] && Names(fs.dirs, t.live, c) == 0
  }

  lemma LinkDirLive(fs: Fs, t: Tree, d: nat, n: string, c: nat, e: nat)
    requires TreeOk(fs, t) && Linkable(fs, t, d, n) && c != fs.root && c !in t.live && e in t.live + {c} && (e == c || e in fs.dirs)
    ensures LiveDirOk(LinkDir(fs, d, n, c), Grown(t, d, n, c), e)
  {
    if e != c { assert LiveDirOk(fs, t, e); }
  }

  lemma LinkDirEntry(fs: Fs, t: Tree, d: nat, n: string, c: nat, e: nat, m: string)
    requires TreeOk(fs, t) && Linkable(fs, t, d, n) && Unnamed(fs, t, c) && c in fs.inodes && c != fs.root
    requires e in t.live + {c} && e in fs.dirs && m in LinkDir(fs, d, n, c).dirs[e] && Proper(m)
    ensures EntryOk(LinkDir(fs, d, n, c), Grown(t, d, n, c), e, m)
  {
    if (e, m) != (d, n) {
      assert EntryOk(fs, t, e, m);
      NamesSome(fs.dirs, t.live, e, m);
    }
  }

  lemma LinkDirTree(fs: Fs, t: Tree, d: nat, n: string, c: nat)
    requires DomainsOk(fs, t) && TreeOk(fs, t) && Linkable(fs, t, d, n) && Unnamed(fs, t, c)
    ensures TreeOk(LinkDir(fs, d, n, c), Grown(t, d, n, c))
  {
    var fs', t' := LinkDir(fs, d, n, c), Grown(t, d, n, c);
    forall e | e in t'.live && e in fs'.dirs ensures LiveDirOk(fs', t', e) {
      LinkDirLive(fs, t, d, n, c, e);
    }
    forall e, m | e in t'.live && e in fs'.dirs && m in fs'.dirs[e] && Proper(m) ensures EntryOk(fs', t', e, m) {
      LinkDirEntry(fs, t, d, n, c, e, m);
    }
  }

  lemma LinkDirLinks(fs: Fs, t: Tree, d: nat, n: string, c: nat)
    requires LinksOk(fs, t) && Linkable(fs, t, d, n) && c !in t.live && d in fs.inodes
    ensures LinksOk(LinkDir(fs, d, n, c), Grown(t, d, n, c))
  {
    var s' := LinkDir(fs, d, n, c);
    forall j | j in s'.inodes
      ensures s'.inodes[j].links == Names(s'.dirs, t.live + {c}, j) + (if j in s'.vnodes then 1 else 0)
      ensures s'.inodes[j].links > 0
    {
      NamesAdd(fs.dirs, t.live, d, n, c, j);
      NamesNewDir(AddEntry(fs.dirs, d, n, c), t.live, c, d, j);
    }
  }

  lemma LinkDirDomains(fs: Fs, t: Tree, d: nat, n: string, c: nat)
    requires DomainsOk(fs, t) && d in fs.dirs && c in fs.dirs
    ensures DomainsOk(LinkDir(fs, d, n, c), Grown(t, d, n, c))
  {
  }

  /** A directory without entries takes its place in the tree. */
  lemma LinkDirKeeps(fs: Fs, t: Tree, d: nat, n: string, c: nat)
    requires Inv(fs, t) && Linkable(fs, t, d, n) && Unnamed(fs, t, c)
    ensures Inv(LinkDir(fs, d, n, c), Grown(t, d, n, c))
  {
    LinkDirTree(fs, t, d, n, c);
    LinkDirLinks(fs, t, d, n, c);
    LinkDirDomains(fs, t, d, n, c);
  }

  // ---------------------------------------------------------------- an entry less

  /** The entry n of d goes, and what it named loses a link. */
  function Drop(fs: Fs, d: nat, n: string, c: nat): Fs {
    fs.(dirs := DropEntry(fs.dirs, d, n), inodes := AddLinks(fs.inodes, c, -1))
  }

  ghost predicate Dropping(fs: Fs, t: Tree, d: nat, n: string, c: nat) {
    Usable(fs, t, d) && Proper(n) && n in fs.dirs[d] && fs.dirs[d][n] == c
  }

  lemma DropLive(fs: Fs, t: Tree, d: nat, n: string, c: nat, e: nat)
    requires d in fs.dirs && n in fs.dirs[d] && fs.dirs[d][n] == c && c !in fs.dirs && Proper(n) && n != ""
    requires e in fs.dirs && LiveDirOk(fs, t, e)
    ensures LiveDirOk(Drop(fs, d, n, c), t, e)
  {
    LiveDirFrame(fs, t, Drop(fs, d, n, c), t, e);
  }

  lemma DropTree(fs: Fs, t: Tree, d: nat, n: string, c: nat)
    requires DomainsOk(fs, t) && TreeOk(fs, t) && Dropping(fs, t, d, n, c) && c !in fs.dirs
    ensures TreeOk(Drop(fs, d, n, c), t)
  {
    var fs' := Drop(fs, d, n, c);
    assert EntryOk(fs, t, d, n);
    assert LiveDirOk(fs, t, d);
    forall e | e in t.live && e in fs'.dirs ensures LiveDirOk(fs', t, e) {
      assert LiveDirOk(fs, t, e);
      DropLive(fs, t, d, n, c, e);
    }
    forall e, m | e in t.live && e in fs'.dirs && m in fs'.dirs[e] && Proper(m) ensures EntryOk(fs', t, e, m) {
      assert EntryOk(fs, t, e, m);
      EntryFrame(fs, t, fs', t, e, m);
    }
  }

  lemma DropLinks(fs: Fs, t: Tree, d: nat, n: string, c: nat)
    requires LinksOk(fs, t) && Dropping(fs, t, d, n, c) && c in fs.vnodes
    ensures LinksOk(Drop(fs, d, n, c), t)
  {
    forall j: nat
      ensures Names(fs.dirs, t.live, j) == Names(DropEntry(fs.dirs, d, n), t.live, j) + if j == c then 1 else 0
    {
      NamesDrop(fs.dirs, t.live, d, n, j);
    }
  }

  lemma DropDomains(fs: Fs, t: Tree, d: nat, n: string, c: nat)
    requires DomainsOk(fs, t) && d in fs.dirs
    ensures DomainsOk(Drop(fs, d, n, c), t)
  {
  }

  lemma DropKeeps(fs: Fs, t: Tree, d: nat, n: string, c: nat)
    requires Inv(fs, t) && Dropping(fs, t, d, n, c) && c !in fs.dirs && c in fs.vnodes
    ensures Inv(Drop(fs, d, n, c), t)
  {
    DropTree(fs, t, d, n, c);
    DropLinks(fs, t, d, n, c);
    DropDomains(fs, t, d, n, c);
  }

  /** What s5fs_rmdir does to an empty directory c: its entry goes, and its ".." stops counting. */
  function DropDir(fs: Fs, d: nat, n: string, c: nat): Fs {
    var gone := Drop(fs, d, n, c);
    gone.(inodes := AddLinks(gone.inodes, d, -1))
  }

  ghost function Shrunk(t: Tree, c: nat): Tree {
    t.(live := t.live - {c})
  }

  /** Only "." and ".." are left of a live directory with two entries. */
  lemma EmptyDir(fs: Fs, t: Tree, c: nat, p: nat)
    requires TreeOk(fs, t) && c in t.live && c in fs.dirs && |fs.dirs[c]| <= 2 && c != fs.root && c in t.up && t.up[c].0 == p
    ensures fs.dirs[c] == NewDir(c, p)
  {
    assert LiveDirOk(fs, t, c);
    var e := fs.dirs[c];
    assert {".", ".."} <= e.Keys;
    var rest := e.Keys - {".", ".."};
    assert |e.Keys| == |rest| + 2;
    assert e.Keys == {".", ".."};
  }

  lemma DropDirLive(fs: Fs, t: Tree, d: nat, n: string, c: nat, e: nat)
    requires d in fs.dirs && n in fs.dirs[d] && fs.dirs[d][n] == c && Proper(n) && n != ""
    requires c in fs.dirs && fs.dirs[c] == NewDir(c, d) && c != d
    requires e in fs.dirs && e in t.live && e != c && LiveDirOk(fs, t, e)
    ensures LiveDirOk(DropDir(fs, d, n, c), Shrunk(t, c), e)
  {
    LiveDirFrame(fs, t, DropDir(fs, d, n, c), Shrunk(t, c), e);
  }

  lemma DropDirEntry(fs: Fs, t: Tree, d: nat, n: string, c: nat, e: nat, m: string)
    requires d in fs.dirs && n in fs.dirs[d] && fs.dirs[d][n] == c && c in fs.dirs && c != d && EntryOk(fs, t, d, n)
    requires e in fs.dirs && e != c && m in fs.dirs[e] && (e, m) != (d, n) && EntryOk(fs, t, e, m)
    ensures EntryOk(DropDir(fs, d, n, c), Shrunk(t, c), e, m)
  {
    EntryFrame(fs, t, DropDir(fs, d, n, c), Shrunk(t, c), e, m);
  }

  /** Something to be removed is a live directory with its parent's ".." alone. */
  lemma DropDirFacts(fs: Fs, t: Tree, d: nat, n: string, c: nat)
    requires TreeOk(fs, t) && Dropping(fs, t, d, n, c) && c in fs.dirs && |fs.dirs[c]| <= 2
    ensures c in t.live && c != d && fs.dirs[c] == NewDir(c, d) && EntryOk(fs, t, d, n) && n != "" && c != fs.root
  {
    assert EntryOk(fs, t, d, n);
    assert LiveDirOk(fs, t, d);
    EmptyDir(fs, t, c, d);
  }

  lemma DropDirTree(fs: Fs, t: Tree, d: nat, n: string, c: nat)
    requires TreeOk(fs, t) && Dropping(fs, t, d, n, c) && c in fs.dirs && c in fs.vnodes && |fs.dirs[c]| <= 2
    ensures TreeOk(DropDir(fs, d, n, c), Shrunk(t, c))
  {
    var fs', t' := DropDir(fs, d, n, c), Shrunk(t, c);
    DropDirFacts(fs, t, d, n, c);
    forall e | e in t'.live && e in fs'.dirs ensures LiveDirOk(fs', t', e) {
      assert LiveDirOk(fs, t, e);
      DropDirLive(fs, t, d, n, c, e);
    }
    forall e, m | e in t'.live && e in fs'.dirs && m in fs'.dirs[e] && Proper(m) ensures EntryOk(fs', t', e, m) {
      assert EntryOk(fs, t, e, m);
      DropDirEntry(fs, t, d, n, c, e, m);
    }
  }

  lemma DropDirLinks(fs: Fs, t: Tree, d: nat, n: string, c: nat)
    requires LinksOk(fs, t) && Dropping(fs, t, d, n, c) && c in t.live && c in fs.vnodes && c != d
    requires c in fs.dirs && fs.dirs[c] == NewDir(c, d)
    ensures LinksOk(DropDir(fs, d, n, c), Shrunk(t, c))
  {
    var dirs' := DropEntry(fs.dirs, d, n);
    forall j: nat
      ensures Names(fs.dirs, t.live, j)
        == Names(dirs', t.live - {c}, j) + (if j == c then 1 else 0) + (if j == d then 1 else 0)
    {
      NamesDrop(fs.dirs, t.live, d, n, j);
      NamesOldDir(dirs', t.live, c, d, j);
    }
  }

  lemma DropDirDomains(fs: Fs, t: Tree, d: nat, n: string, c: nat)
    requires DomainsOk(fs, t) && d in fs.dirs && c != fs.root
    ensures DomainsOk(DropDir(fs, d, n, c), Shrunk(t, c))
  {
  }

  lemma DropDirKeeps(fs: Fs, t: Tree, d: nat, n: string, c: nat)
    requires Inv(fs, t) && Dropping(fs, t, d, n, c) && c in fs.dirs && c in fs.vnodes && |fs.dirs[c]| <= 2
    ensures Inv(DropDir(fs, d, n, c), Shrunk(t, c))
  {
    DropDirFacts(fs, t, d, n, c);
    DropDirTree(fs, t, d, n, c);
    DropDirLinks(fs, t, d, n, c);
    DropDirDomains(fs, t, d, n, c);
  }

  // ---------------------------------------------------------------- the vnode operations, as functions of the state

  function Top(fs: Fs): nat {
    if fs.free == [] then 0 else fs.free[|fs.free| - 1]
  }

  function Target(fs: Fs, d: nat, n: string): nat {
    var e := EntriesOf(fs.dirs, d);
    if n in e then e[n] else 0
  }

  function KindOf(fs: Fs, i: nat): Kind {
    if i in fs.inodes then fs.inodes[i].kind else Data
  }

  /** s5_find_dirent: the empty name is answered with inode 0. */
  function FindIn(e: Entries, n: string): int {
    if n == "" then 0 else if n !in e then -ENOENT else e[n]
  }

  function FindEntry(fs: Fs, d: nat, n: string): int {
    FindIn(EntriesOf(fs.dirs, d), n)
  }

  function LookupFs(fs: Fs, d: nat, n: string): (Fs, int) {
    var i := FindEntry(fs, d, n);
    if i < 0 then (fs, i) else (GetVnode(fs, i), 0)
  }

  /** s5fs_create; err is the error with which the entry could not be written, or 0. */
  function CreateFs(fs: Fs, d: nat, n: string, kind: Kind, err: int): (Fs, int) {
    if fs.free == [] then (fs, -ENOSPC)
    else if err < 0 then (PutVnode(Fresh(fs, kind), Top(fs), false), err)
    else (LinkTo(Fresh(fs, kind), d, n, Top(fs)), 0)
  }

  function MknodFs(fs: Fs, d: nat, n: string, kind: Kind, err: int, paged: bool): (Fs, int) {
    var (made, ret) := CreateFs(fs, d, n, kind, err);
    if ret < 0 then (made, ret) else (PutVnode(made, Top(fs), paged), 0)
  }

  function MkdirFs(fs: Fs, d: nat, n: string, err: int, paged: bool): (Fs, int) {
    if fs.free == [] then (fs, -ENOSPC)
    else if err < 0 then (PutVnode(Fresh(fs, Dir), Top(fs), false), -1)
    else (PutVnode(LinkDir(Fresh(fs, Dir), d, n, Top(fs)), Top(fs), paged), 0)
  }

  function UnlinkFs(fs: Fs, d: nat, n: string, paged: bool): (Fs, int) {
    if n !in EntriesOf(fs.dirs, d) then (fs, -ENOENT)
    else
      var c := Target(fs, d, n);
      (PutVnode(Drop(GetVnode(fs, c), d, n, c), c, paged), 0)
  }

  /** The size of an entry in a directory, and the size s5fs_rmdir compares with. */
  const RECORD := 32
  const DIRENT := 40

  function RmdirFs(fs: Fs, d: nat, n: string, paged: bool): (Fs, int) {
    var i := FindEntry(fs, d, n);
    if i < 0 then (fs, i)
    else
      var c: nat := i;
      var got := GetVnode(fs, c);
      if KindOf(fs, c) != Dir then (PutVnode(got, c, paged), -ENOTDIR)
      else if RECORD * |EntriesOf(fs.dirs, c)| > DIRENT * 2 then (PutVnode(got, c, paged), -ENOTEMPTY)
      else if n !in EntriesOf(fs.dirs, d) then (PutVnode(got, c, paged), -ENOENT)
      else (PutVnode(DropDir(got, d, n, c), c, paged), 0)
  }

  // ---------------------------------------------------------------- runs

  datatype Op =
    | Lookup(d: nat, n: string)
    | Create(d: nat, n: string, err: int)
    | Mknod(d: nat, n: string, kind: Kind, err: int, paged: bool)
    | Mkdir(d: nat, n: string, err: int, paged: bool)
    | Link(d: nat, n: string, src: nat)
    | Unlink(d: nat, n: string, paged: bool)
    | Rmdir(d: nat, n: string, paged: bool)
    | Put(i: nat, paged: bool)
    | Evict(i: nat)

  function Apply(fs: Fs, op: Op): Fs {
    match op
    case Lookup(d, n) => LookupFs(fs, d, n).0
    case Create(d, n, err) => CreateFs(fs, d, n, Data, err).0
    case Mknod(d, n, kind, err, paged) => MknodFs(fs, d, n, kind, err, paged).0
    case Mkdir(d, n, err, paged) => MkdirFs(fs, d, n, err, paged).0
    case Link(d, n, src) => LinkTo(fs, d, n, src)
    case Unlink(d, n, paged) => UnlinkFs(fs, d, n, paged).0
    case Rmdir(d, n, paged) => RmdirFs(fs, d, n, paged).0
    case Put(i, paged) => PutVnode(fs, i, paged)
    case Evict(i) => DeleteVnode(fs, i)
  }

  ghost function NextTree(fs: Fs, t: Tree, op: Op): Tree {
    match op
    case Mkdir(d, n, err, _) => if fs.free == [] || err < 0 then t else Grown(t, d, n, Top(fs))
    case Rmdir(d, n, paged) => if RmdirFs(fs, d, n, paged).1 == 0 then Shrunk(t, Target(fs, d, n)) else t
    case _ => t
  }

  /** A reference the caller may give back; the mount keeps one on the root. */
  ghost predicate Spare(fs: Fs, i: nat) {
    RefsOf(fs, i) > if i == fs.root then 1 else 0
  }

  /** The empty name leads to inode 0, which has to be in use, as it is where the root is inode 0. */
  ghost predicate Findable(fs: Fs, n: string) {
    n == "" ==> 0 in fs.inodes
  }

  /** What the callers of the operations see to. */
  ghost predicate Enabled(fs: Fs, t: Tree, op: Op) {
    match op
    case Lookup(d, n) => Usable(fs, t, d) && Findable(fs, n)
    case Create(d, n, _) => Linkable(fs, t, d, n)
    case Mknod(d, n, kind, _, _) => Linkable(fs, t, d, n) && (kind == Chr || kind == Blk)
    case Mkdir(d, n, _, _) => Linkable(fs, t, d, n)
    case Link(d, n, src) => Linkable(fs, t, d, n) && RefsOf(fs, src) > 0 && KindOf(fs, src) != Dir
    case Unlink(d, n, _) => Usable(fs, t, d) && Proper(n) && (n in fs.dirs[d] ==> KindOf(fs, fs.dirs[d][n]) != Dir)
    case Rmdir(d, n, _) => Usable(fs, t, d) && Proper(n) && Findable(fs, n)
    case Put(i, _) => Spare(fs, i)
    case Evict(i) => i in fs.vnodes && fs.vnodes[i] == 0
  }

  lemma CreateDone(fs: Fs, t: Tree, d: nat, n: string, kind: Kind)
    requires Inv(fs, t) && Linkable(fs, t, d, n) && kind != Dir && fs.free != []
    ensures Inv(LinkTo(Fresh(fs, kind), d, n, Top(fs)), t)
    ensures Top(fs) != fs.root
  {
    assert Top(fs) in fs.free;
    FreshKeeps(fs, t, kind);
    LinkToKeeps(Fresh(fs, kind), t, d, n, Top(fs));
  }

  /** An operation that makes an inode keeps the invariant, and one that fails changes nothing at all. */
  lemma CreateKeeps(fs: Fs, t: Tree, d: nat, n: string, kind: Kind, err: int)
    requires Inv(fs, t) && Linkable(fs, t, d, n) && kind != Dir
    ensures Inv(CreateFs(fs, d, n, kind, err).0, t)
    ensures CreateFs(fs, d, n, kind, err).1 < 0 ==> CreateFs(fs, d, n, kind, err).0 == fs
    ensures CreateFs(fs, d, n, kind, err).1 >= 0 ==> RefsOf(CreateFs(fs, d, n, kind, err).0, Top(fs)) == 1 && Top(fs) != fs.root
  {
    if fs.free != [] {
      FreshUndone(fs, t, kind);
      CreateDone(fs, t, d, n, kind);
    }
  }

  lemma MknodKeeps(fs: Fs, t: Tree, d: nat, n: string, kind: Kind, err: int, paged: bool)
    requires Inv(fs, t) && Linkable(fs, t, d, n) && kind != Dir
    ensures Inv(MknodFs(fs, d, n, kind, err, paged).0, t)
    ensures MknodFs(fs, d, n, kind, err, paged).1 < 0 ==> MknodFs(fs, d, n, kind, err, paged).0 == fs
  {
    CreateKeeps(fs, t, d, n, kind, err);
    if fs.free != [] && err >= 0 { MknodDone(fs, t, d, n, kind, paged); }
  }

  lemma MknodDone(fs: Fs, t: Tree, d: nat, n: string, kind: Kind, paged: bool)
    requires Inv(fs, t) && Linkable(fs, t, d, n) && kind != Dir && fs.free != []
    ensures Inv(PutVnode(LinkTo(Fresh(fs, kind), d, n, Top(fs)), Top(fs), paged), t)
  {
    CreateDone(fs, t, d, n, kind);
    PutKeeps(LinkTo(Fresh(fs, kind), d, n, Top(fs)), t, Top(fs), paged);
  }

  lemma MkdirDone(fs: Fs, t: Tree, d: nat, n: string, paged: bool)
    requires Inv(fs, t) && Linkable(fs, t, d, n) && fs.free != []
    ensures Inv(PutVnode(LinkDir(Fresh(fs, Dir), d, n, Top(fs)), Top(fs), paged), Grown(t, d, n, Top(fs)))
  {
    var c, f1 := Top(fs), Fresh(fs, Dir);
    assert c in fs.free;
    FreshKeeps(fs, t, Dir);
    RemovedUnnamed(f1, t, c);
    LinkDirKeeps(f1, t, d, n, c);
    PutKeeps(LinkDir(f1, d, n, c), Grown(t, d, n, c), c, paged);
  }

  lemma MkdirKeeps(fs: Fs, t: Tree, d: nat, n: string, err: int, paged: bool)
    requires Inv(fs, t) && Linkable(fs, t, d, n)
    ensures Inv(MkdirFs(fs, d, n, err, paged).0, NextTree(fs, t, Mkdir(d, n, err, paged)))
    ensures MkdirFs(fs, d, n, err, paged).1 < 0 ==> MkdirFs(fs, d, n, err, paged).0 == fs
  {
    if fs.free != [] {
      FreshUndone(fs, t, Dir);
      MkdirDone(fs, t, d, n, paged);
    }
  }

  /** The vnode an operation has just read in. */
  ghost predicate Held(fs: Fs, c: nat) {
    c in fs.vnodes && fs.vnodes[c] > 0 && c in fs.inodes && c != fs.root
  }

  lemma DropPutKeeps(fs: Fs, t: Tree, d: nat, n: string, c: nat, paged: bool)
    requires Inv(fs, t) && Dropping(fs, t, d, n, c) && c !in fs.dirs && Held(fs, c)
    ensures Inv(PutVnode(Drop(fs, d, n, c), c, paged), t)
  {
    DropKeeps(fs, t, d, n, c);
    PutKeeps(Drop(fs, d, n, c), t, c, paged);
  }

  lemma GotDropping(fs: Fs, t: Tree, d: nat, n: string, c: nat)
    requires Dropping(fs, t, d, n, c) && c in fs.inodes && c != fs.root
    ensures Dropping(GetVnode(fs, c), t, d, n, c) && Held(GetVnode(fs, c), c) && GetVnode(fs, c).dirs == fs.dirs
  {
  }

  lemma UnlinkDone(fs: Fs, t: Tree, d: nat, n: string, c: nat, paged: bool)
    requires Inv(fs, t) && Dropping(fs, t, d, n, c) && c !in fs.dirs
    ensures Inv(PutVnode(Drop(GetVnode(fs, c), d, n, c), c, paged), t)
  {
    EntryNamesInode(fs, t, d, n);
    GotDropping(fs, t, d, n, c);
    GetKeeps(fs, t, c);
    DropPutKeeps(GetVnode(fs, c), t, d, n, c, paged);
  }

  lemma UnlinkKeeps(fs: Fs, t: Tree, d: nat, n: string, paged: bool)
    requires Inv(fs, t) && Enabled(fs, t, Unlink(d, n, paged))
    ensures Inv(UnlinkFs(fs, d, n, paged).0, t)
  {
    if n in fs.dirs[d] { UnlinkDone(fs, t, d, n, fs.dirs[d][n], paged); }
  }

  lemma DropDirPutKeeps(fs: Fs, t: Tree, d: nat, n: string, c: nat, paged: bool)
    requires Inv(fs, t) && Dropping(fs, t, d, n, c) && c in fs.dirs && |fs.dirs[c]| <= 2 && Held(fs, c)
    ensures Inv(PutVnode(DropDir(fs, d, n, c), c, paged), Shrunk(t, c))
  {
    DropDirKeeps(fs, t, d, n, c);
    PutKeeps(DropDir(fs, d, n, c), Shrunk(t, c), c, paged);
  }

  lemma RmdirDone(fs: Fs, t: Tree, d: nat, n: string, c: nat, paged: bool)
    requires Inv(fs, t) && Dropping(fs, t, d, n, c) && c in fs.dirs && |fs.dirs[c]| <= 2
    ensures Inv(PutVnode(DropDir(GetVnode(fs, c), d, n, c), c, paged), Shrunk(t, c))
  {
    EntryNamesInode(fs, t, d, n);
    GotDropping(fs, t, d, n, c);
    GetKeeps(fs, t, c);
    DropDirPutKeeps(GetVnode(fs, c), t, d, n, c, paged);
  }

  lemma GetPutKeeps(fs: Fs, t: Tree, c: nat, paged: bool)
    requires Inv(fs, t) && c in fs.inodes
    ensures Inv(PutVnode(GetVnode(fs, c), c, paged), t)
  {
    GetKeeps(fs, t, c);
    PutKeeps(GetVnode(fs, c), t, c, paged);
  }

  /** What a name leads to in a live directory is an inode in use. */
  lemma Found(fs: Fs, t: Tree, d: nat, n: string)
    requires Inv(fs, t) && Usable(fs, t, d) && Findable(fs, n) && FindEntry(fs, d, n) >= 0
    ensures FindEntry(fs, d, n) in fs.inodes
    ensures n in fs.dirs[d] ==> FindEntry(fs, d, n) == fs.dirs[d][n]
  {
    assert LiveDirOk(fs, t, d);
    if n in fs.dirs[d] { EntryNamesInode(fs, t, d, n); }
  }

  lemma LookupKeeps(fs: Fs, t: Tree, d: nat, n: string)
    requires Inv(fs, t) && Enabled(fs, t, Lookup(d, n))
    ensures Inv(LookupFs(fs, d, n).0, t)
  {
    if FindEntry(fs, d, n) >= 0 {
      Found(fs, t, d, n);
      GetKeeps(fs, t, FindEntry(fs, d, n));
    }
  }

  /** Entry n of d is a directory in which nothing but "." and ".." is left. */
  predicate EmptyAt(fs: Fs, d: nat, n: string) {
    n in EntriesOf(fs.dirs, d) && Target(fs, d, n) in fs.dirs && fs.dirs[Target(fs, d, n)] == NewDir(Target(fs, d, n), d)
  }

  /** The size test of s5fs_rmdir lets exactly the directories with nothing but "." and ".." through. */
  lemma SizeTest(fs: Fs, t: Tree, d: nat, n: string, c: nat)
    requires TreeOk(fs, t) && Dropping(fs, t, d, n, c) && c in fs.dirs
    ensures RECORD * |fs.dirs[c]| <= DIRENT * 2 <==> fs.dirs[c] == NewDir(c, d)
  {
    assert |NewDir(c, d)| == 2;
    if |fs.dirs[c]| <= 2 { DropDirFacts(fs, t, d, n, c); }
  }

  /** s5fs_rmdir keeps the invariant, and removes what it finds exactly if that is an empty directory. */
  lemma RmdirKeeps(fs: Fs, t: Tree, d: nat, n: string, paged: bool)
    requires Inv(fs, t) && Enabled(fs, t, Rmdir(d, n, paged))
    ensures Inv(RmdirFs(fs, d, n, paged).0, NextTree(fs, t, Rmdir(d, n, paged)))
    ensures RmdirFs(fs, d, n, paged).1 == 0 <==> EmptyAt(fs, d, n)
  {
    if FindEntry(fs, d, n) >= 0 {
      var c: nat := FindEntry(fs, d, n);
      Found(fs, t, d, n);
      if n in fs.dirs[d] && c in fs.dirs { SizeTest(fs, t, d, n, c); }
      if RmdirFs(fs, d, n, paged).1 == 0 {
        RmdirDone(fs, t, d, n, c, paged);
      } else {
        GetPutKeeps(fs, t, c, paged);
      }
    } else {
      assert LiveDirOk(fs, t, d);
    }
  }

  lemma StepKeeps(fs: Fs, t: Tree, op: Op)
    requires Inv(fs, t) && Enabled(fs, t, op)
    ensures Inv(Apply(fs, op), NextTree(fs, t, op))
  {
    match op
    case Lookup(d, n) => LookupKeeps(fs, t, d, n);
    case Create(d, n, err) => CreateKeeps(fs, t, d, n, Data, err);
    case Mknod(d, n, kind, err, paged) => MknodKeeps(fs, t, d, n, kind, err, paged);
    case Mkdir(d, n, err, paged) => MkdirKeeps(fs, t, d, n, err, paged);
    case Link(d, n, src) => LinkToKeeps(fs, t, d, n, src);
    case Unlink(d, n, paged) => UnlinkKeeps(fs, t, d, n, paged);
    case Rmdir(d, n, paged) => RmdirKeeps(fs, t, d, n, paged);
    case Put(i, paged) => PutKeeps(fs, t, i, paged);
    case Evict(i) => DeleteKeeps(fs, t, i);
  }

  function Run(fs: Fs, ops: seq<Op>): Fs
    decreases ops
  {
    if ops == [] then fs else Run(Apply(fs, ops[0]), ops[1..])
  }

  ghost function RunTree(fs: Fs, t: Tree, ops: seq<Op>): Tree
    decreases ops
  {
    if ops == [] then t else RunTree(Apply(fs, ops[0]), NextTree(fs, t, ops[0]), ops[1..])
  }

  ghost predicate AllEnabled(fs: Fs, t: Tree, ops: seq<Op>)
    decreases ops
  {
    ops == [] || (Enabled(fs, t, ops[0]) && AllEnabled(Apply(fs, ops[0]), NextTree(fs, t, ops[0]), ops[1..]))
  }

  /** A volume as it is made and mounted: a root whose "." and ".." name it, and free inodes. */
  ghost predicate Mounted(fs: Fs) {
    && fs.inodes == map[fs.root := Inode(Dir, 2)] && fs.dirs == map[fs.root := NewDir(fs.root, fs.root)]
    && fs.vnodes == map[fs.root := 1] && fs.root !in fs.free
    && forall j, k :: 0 <= j < k < |fs.free| ==> fs.free[j] != fs.free[k]
  }

  lemma MountedInv(fs: Fs)
    requires Mounted(fs)
    ensures Inv(fs, Tree({fs.root}, map[], map[]))
  {
    var t := Tree({fs.root}, map[], map[]);
    forall j: nat ensures Names(fs.dirs, t.live, j) == if j == fs.root then 1 else 0 {
      NamesNewDir(map[], {}, fs.root, fs.root, j);
      assert Naming(map[], {}, j) == {};
      assert {} + {fs.root} == t.live;
      assert (map[])[fs.root := NewDir(fs.root, fs.root)] == fs.dirs;
    }
    assert LiveDirOk(fs, t, fs.root);
  }

  /** Over every run from a mounted volume: link counts are right, an inode is allocated exactly while it is
      named or in memory, and no entry names a free inode. */
  lemma {:induction false} RunKeeps(fs: Fs, t: Tree, ops: seq<Op>)
    requires Inv(fs, t) && AllEnabled(fs, t, ops)
    ensures Inv(Run(fs, ops), RunTree(fs, t, ops))
    decreases ops
  {
    if ops != [] {
      StepKeeps(fs, t, ops[0]);
      RunKeeps(Apply(fs, ops[0]), NextTree(fs, t, ops[0]), ops[1..]);
    }
  }

  lemma LinkCountsOverRuns(fs: Fs, ops: seq<Op>, i: nat)
    requires Mounted(fs) && AllEnabled(fs, Tree({fs.root}, map[], map[]), ops)
    ensures var fs', t' := Run(fs, ops), RunTree(fs, Tree({fs.root}, map[], map[]), ops);
      && (i in fs'.inodes ==> fs'.inodes[i].links == Names(fs'.dirs, t'.live, i) + (if i in fs'.vnodes then 1 else 0))
      && (i in fs'.inodes <==> Names(fs'.dirs, t'.live, i) > 0 || i in fs'.vnodes)
      && (i in fs'.free ==> forall d, n :: d in t'.live && d in fs'.dirs && n in fs'.dirs[d] ==> fs'.dirs[d][n] != i)
  {
    MountedInv(fs);
    var t := Tree({fs.root}, map[], map[]);
    RunKeeps(fs, t, ops);
    AllocatedIff(Run(fs, ops), RunTree(fs, t, ops), i);
  }

  // ---------------------------------------------------------------- making and removing

  ghost predicate Unused(fs: Fs, c: nat) {
    c !in fs.inodes && c !in fs.dirs && c !in fs.vnodes
  }

  /** The volume with a new empty directory, or another new node, that nobody holds. */
  function Made(fs: Fs, d: nat, n: string, kind: Kind): Fs
    requires fs.free != []
  {
    var c := Top(fs);
    var dirs := AddEntry(fs.dirs, d, n, c);
    Fs(fs.root,
       (if kind == Dir then AddLinks(fs.inodes, d, 1) else fs.inodes)[c := Inode(kind, 1)],
       if kind == Dir then dirs[c := NewDir(c, d)] else dirs,
       fs.free[..|fs.free| - 1], fs.vnodes)
  }

  lemma LinksMade(inodes: map<nat, Inode>, d: nat, c: nat)
    requires c !in inodes && c != d
    ensures var full := AddLinks(AddLinks(inodes[c := Inode(Dir, 1)], c, 1), d, 1);
      && c in full && full[c].links == 2
      && full == AddLinks(AddLinks(inodes, d, 1)[c := Inode(Dir, 1)], c, 1)
  {
  }

  /** The same while the vnode of c stays in memory for its cached pages. */
  function Cached(made: Fs, c: nat): Fs {
    made.(vnodes := made.vnodes[c := 0], inodes := AddLinks(made.inodes, c, 1))
  }

  function Left(made: Fs, c: nat, paged: bool): Fs {
    if paged then Cached(made, c) else made
  }

  /** Reading a vnode in makes up for the difference. */
  lemma GetLeft(made: Fs, c: nat, paged: bool)
    requires c !in made.vnodes
    ensures GetVnode(Left(made, c, paged), c) == GetVnode(made, c)
  {
    assert made.vnodes[c := 0][c := 1] == made.vnodes[c := 1];
  }

  /** Giving up the only reference to something that is linked leaves the links it has on disk. */
  lemma PutLinked(full: Fs, made: Fs, c: nat, paged: bool)
    requires RefsOf(full, c) == 1 && LinksOf(full, c) == 2 && c !in made.vnodes
    requires full.inodes == AddLinks(made.inodes, c, 1) && full.vnodes == made.vnodes[c := 1]
    requires full.root == made.root && full.dirs == made.dirs && full.free == made.free
    ensures PutVnode(full, c, paged) == Left(made, c, paged)
  {
    if paged {
      assert made.vnodes[c := 1][c := 0] == made.vnodes[c := 0];
    } else {
      assert AddLinks(AddLinks(made.inodes, c, 1), c, -1) == made.inodes;
      assert made.vnodes[c := 1] - {c} == made.vnodes;
    }
  }

  lemma MkdirMakes(fs: Fs, d: nat, n: string, paged: bool)
    requires fs.free != [] && Unused(fs, Top(fs)) && d != Top(fs)
    ensures MkdirFs(fs, d, n, 0, paged) == (Left(Made(fs, d, n, Dir), Top(fs), paged), 0)
  {
    LinksMade(fs.inodes, d, Top(fs));
    DirsMade(fs.dirs, d, n, Top(fs));
    PutLinked(LinkDir(Fresh(fs, Dir), d, n, Top(fs)), Made(fs, d, n, Dir), Top(fs), paged);
  }

  lemma DirsMade(dirs: map<nat, Entries>, d: nat, n: string, c: nat)
    requires c != d
    ensures AddEntry(dirs[c := map[]], d, n, c)[c := NewDir(c, d)] == AddEntry(dirs, d, n, c)[c := NewDir(c, d)]
  {
  }

  lemma MknodMakes(fs: Fs, d: nat, n: string, kind: Kind, paged: bool)
    requires fs.free != [] && Unused(fs, Top(fs)) && d != Top(fs) && kind != Dir
    ensures MknodFs(fs, d, n, kind, 0, paged) == (Left(Made(fs, d, n, kind), Top(fs), paged), 0)
  {
    var c := Top(fs);
    assert AddLinks(fs.inodes[c := Inode(kind, 1)], c, 1) == fs.inodes[c := Inode(kind, 2)];
    assert AddLinks(fs.inodes[c := Inode(kind, 1)], c, 1) == AddLinks(Made(fs, d, n, kind).inodes, c, 1);
    PutLinked(LinkTo(Fresh(fs, kind), d, n, c), Made(fs, d, n, kind), c, paged);
  }

  /** Dropping the entry made last gives back the directories there were. */
  lemma DropMade(dirs: map<nat, Entries>, d: nat, n: string, c: nat)
    requires d in dirs && n !in dirs[d] && c !in dirs && c != d
    ensures DropEntry(AddEntry(dirs, d, n, c), d, n) == dirs
    ensures DropEntry(AddEntry(dirs, d, n, c)[c := NewDir(c, d)], d, n) - {c} == dirs
  {
    var e: Entries := dirs[d][n := c];
    assert e - {n} == dirs[d];
  }

  lemma LinksBack(inodes: map<nat, Inode>, d: nat, c: nat, kind: Kind)
    requires c !in inodes && c != d
    ensures var got := AddLinks(AddLinks(inodes, d, 1)[c := Inode(kind, 1)], c, 1);
      var left := AddLinks(AddLinks(got, c, -1), d, -1);
      c in left && left[c].links == 1 && left - {c} == inodes
  {
  }

  lemma RmdirTaken(fs: Fs, d: nat, n: string, kept: bool, paged: bool)
    requires fs.free != [] && Unused(fs, Top(fs)) && d != Top(fs) && d in fs.dirs && n != ""
    ensures var c, made := Top(fs), Made(fs, d, n, Dir);
      RmdirFs(Left(made, c, kept), d, n, paged) == (PutVnode(DropDir(GetVnode(made, c), d, n, c), c, paged), 0)
  {
    var c, made := Top(fs), Made(fs, d, n, Dir);
    assert |NewDir(c, d)| == 2;
    assert Target(made, d, n) == c && EntriesOf(made.dirs, c) == NewDir(c, d);
    GetLeft(made, c, kept);
  }

  /** Giving up the only reference to what has no name left frees its inode, whatever is cached. */
  lemma PutUnnamed(fs: Fs, last: Fs, c: nat, paged: bool)
    requires fs.free != [] && c == Top(fs) && Unused(fs, c)
    requires RefsOf(last, c) == 1 && LinksOf(last, c) == 1
    requires last.root == fs.root && last.inodes - {c} == fs.inodes && last.dirs - {c} == fs.dirs
    requires last.vnodes == fs.vnodes[c := 1] && last.free == fs.free[..|fs.free| - 1]
    ensures PutVnode(last, c, paged) == fs
  {
    assert last.vnodes - {c} == fs.vnodes;
    assert fs.free[..|fs.free| - 1] + [c] == fs.free;
  }

  lemma RmdirMade(fs: Fs, d: nat, n: string, kept: bool, paged: bool)
    requires fs.free != [] && Unused(fs, Top(fs)) && d != Top(fs) && d in fs.dirs && n !in fs.dirs[d] && n != ""
    ensures RmdirFs(Left(Made(fs, d, n, Dir), Top(fs), kept), d, n, paged) == (fs, 0)
  {
    var c := Top(fs);
    RmdirTaken(fs, d, n, kept, paged);
    DropMade(fs.dirs, d, n, c);
    LinksBack(fs.inodes, d, c, Dir);
    PutUnnamed(fs, DropDir(GetVnode(Made(fs, d, n, Dir), c), d, n, c), c, paged);
  }

  lemma UnlinkTaken(fs: Fs, d: nat, n: string, kind: Kind, kept: bool, paged: bool)
    requires fs.free != [] && Unused(fs, Top(fs)) && d != Top(fs) && kind != Dir
    ensures var c, made := Top(fs), Made(fs, d, n, kind);
      UnlinkFs(Left(made, c, kept), d, n, paged) == (PutVnode(Drop(GetVnode(made, c), d, n, c), c, paged), 0)
  {
    var c, made := Top(fs), Made(fs, d, n, kind);
    assert Target(made, d, n) == c;
    GetLeft(made, c, kept);
  }

  lemma LinkBack(inodes: map<nat, Inode>, c: nat, kind: Kind)
    requires c !in inodes
    ensures var left := AddLinks(AddLinks(inodes[c := Inode(kind, 1)], c, 1), c, -1);
      c in left && left[c].links == 1 && left - {c} == inodes
  {
  }

  lemma UnlinkMade(fs: Fs, d: nat, n: string, kind: Kind, kept: bool, paged: bool)
    requires fs.free != [] && Unused(fs, Top(fs)) && d != Top(fs) && d in fs.dirs && n !in fs.dirs[d] && kind != Dir
    ensures UnlinkFs(Left(Made(fs, d, n, kind), Top(fs), kept), d, n, paged) == (fs, 0)
  {
    var c := Top(fs);
    UnlinkTaken(fs, d, n, kind, kept, paged);
    DropMade(fs.dirs, d, n, c);
    LinkBack(fs.inodes, c, kind);
    assert fs.dirs - {c} == fs.dirs;
    PutUnnamed(fs, Drop(GetVnode(Made(fs, d, n, kind), c), d, n, c), c, paged);
  }

  lemma TopUnused(fs: Fs, t: Tree)
    requires Inv(fs, t) && fs.free != []
    ensures Unused(fs, Top(fs))
  {
    assert Top(fs) in fs.free;
  }

  /** s5fs_rmdir undoes s5fs_mkdir, and s5fs_unlink undoes s5fs_mknod, whether or not pages are cached in
      between: the free list, the link counts, the directories and the vnodes are what they were. */
  lemma RemovingUndoesMaking(fs: Fs, t: Tree, d: nat, n: string, kind: Kind, kept: bool, paged: bool)
    requires Inv(fs, t) && Linkable(fs, t, d, n) && fs.free != []
    ensures kind == Dir ==> var made := MkdirFs(fs, d, n, 0, kept);
      made.1 == 0 && RmdirFs(made.0, d, n, paged) == (fs, 0)
    ensures kind != Dir ==> var made := MknodFs(fs, d, n, kind, 0, kept);
      made.1 == 0 && UnlinkFs(made.0, d, n, paged) == (fs, 0)
  {
    TopUnused(fs, t);
    if kind == Dir {
      MkdirMakes(fs, d, n, kept);
      RmdirMade(fs, d, n, kept, paged);
    } else {
      MknodMakes(fs, d, n, kind, kept);
      UnlinkMade(fs, d, n, kind, kept, paged);
    }
  }
}
