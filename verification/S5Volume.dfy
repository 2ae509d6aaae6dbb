/**
  The volume as s5fs_subr.c keeps it: the superblock's slot array, the chain of blocks holding further
  slot arrays, the inode table with its intrusive free list, and indirect blocks stored in pages.
  Each method is proved to do to View() what S5Blocks says.
 */
module S5VolumeImpl {
  import opened Errno
  import opened S5Blocks

  /** An on-disk inode.  un is the union of s5_next_free and s5_size. */
  datatype Inode = Inode(kind: Kind, direct: seq<int>, indirect: int, un: int)

  function NodeOf(ino: Inode, pages: seq<seq<int>>): Node {
    var mapped := (ino.kind == Data || ino.kind == Dir) && ino.indirect != 0;
    Node(ino.kind, ino.direct, ino.indirect,
         if mapped && 0 <= ino.indirect < |pages| then pages[ino.indirect] else [])
  }

  /** Where the block number of file block fb is kept: in the inode itself, or in the page of its indirect block. */
  lemma BlockOnDisk(g: Geometry, ino: Inode, pages: seq<seq<int>>, fb: nat)
    requires NodeOf(ino, pages).Shaped(g) && fb < g.direct + g.words && (ino.kind == Data || ino.kind == Dir)
    requires ino.indirect == 0 || 0 <= ino.indirect < |pages|
    ensures fb < g.direct ==> fb < |ino.direct| && BlockOf(g, NodeOf(ino, pages), fb) == ino.direct[fb]
    ensures fb >= g.direct && ino.indirect == 0 ==> BlockOf(g, NodeOf(ino, pages), fb) == 0
    ensures fb >= g.direct && ino.indirect != 0 ==>
      fb - g.direct < |pages[ino.indirect]| && BlockOf(g, NodeOf(ino, pages), fb) == pages[ino.indirect][fb - g.direct]
  {
  }

  /** Pages other than those in blocks are as they were. */
  ghost predicate Kept(before: seq<seq<int>>, after: seq<seq<int>>, blocks: seq<int>) {
    |after| == |before| && forall x {:trigger after[x]} :: 0 <= x < |before| && x !in blocks ==> after[x] == before[x]
  }

  lemma KeptOne(before: seq<seq<int>>, mid: seq<seq<int>>, after: seq<seq<int>>, blocks: seq<int>, b: int)
    requires Kept(before, mid, blocks) && b in blocks && |after| == |mid|
    requires forall x :: 0 <= x < |mid| && x != b ==> after[x] == mid[x]
    ensures Kept(before, after, blocks)
  {
  }

  lemma KeptMore(before: seq<seq<int>>, mid: seq<seq<int>>, after: seq<seq<int>>, a: seq<int>, b: seq<int>)
    requires Kept(before, mid, a) && Kept(mid, after, b)
    ensures Kept(before, after, a + b)
  {
  }

  ghost predicate PagesOk(g: Geometry, pages: seq<seq<int>>) {
    |pages| == g.limit && forall p :: 0 <= p < |pages| ==> |pages[p]| == g.words
  }

  /** The chain blocks, first freed first; link is what the superblock's last slot holds, and the last
      slot of each chain block's own array names the one before it, or no readable block. */
  ghost predicate Linked(g: Geometry, pages: seq<seq<int>>, chain: seq<int>, link: int)
    requires g.Valid() && PagesOk(g, pages)
  {
    && (if chain == [] then !(0 <= link < |pages|) else link == chain[|chain| - 1])
    && (forall k :: 0 <= k < |chain| ==> g.InData(chain[k]))
    && (forall k {:trigger pages[chain[k]]} :: 0 < k < |chain| ==> pages[chain[k]][g.slots - 1] == chain[k - 1])
    && (chain != [] ==> !(0 <= pages[chain[0]][g.slots - 1] < |pages|))
  }

  /** All block numbers reachable through the first n chain blocks, in the order they were freed. */
  ghost function ChainBlocks(g: Geometry, pages: seq<seq<int>>, chain: seq<int>, n: nat): seq<int>
    requires g.Valid() && PagesOk(g, pages) && n <= |chain|
  {
    if n == 0 then []
    else
      var top := chain[n - 1];
      ChainBlocks(g, pages, chain, n - 1) + (if g.InData(top) then pages[top][..g.slots - 1] else []) + [top]
  }

  lemma {:induction false} ChainFrame(g: Geometry, p: seq<seq<int>>, p': seq<seq<int>>, c: seq<int>, c': seq<int>, n: nat)
    requires g.Valid() && PagesOk(g, p) && PagesOk(g, p')
    requires n <= |c| && n <= |c'|
    requires forall k :: 0 <= k < n ==> c[k] == c'[k] && (g.InData(c[k]) ==> p'[c[k]] == p[c[k]])
    ensures ChainBlocks(g, p', c', n) == ChainBlocks(g, p, c, n)
  {
    if n != 0 { ChainFrame(g, p, p', c, c', n - 1); }
  }

  lemma {:induction false} ChainIn(g: Geometry, p: seq<seq<int>>, chain: seq<int>, n: nat, k: nat)
    requires g.Valid() && PagesOk(g, p) && k < n <= |chain|
    ensures chain[k] in ChainBlocks(g, p, chain, n)
  {
    if k < n - 1 { ChainIn(g, p, chain, n - 1, k); }
  }

  /** The free inodes threaded through s5_next_free, the list head last. */
  ghost predicate InodeList(inodes: seq<Inode>, list: seq<nat>, head: int) {
    && head == (if list == [] then -1 else list[|list| - 1])
    && (forall k :: 0 <= k < |list| ==> list[k] < |inodes|)
    && (forall k {:trigger inodes[list[k]]} :: 0 <= k < |list| ==> inodes[list[k]].un == if k == 0 then -1 else list[k - 1])
  }

  ghost predicate NodesMatch(inodes: seq<Inode>, pages: seq<seq<int>>, nodes: seq<Node>) {
    |nodes| == |inodes| && forall i :: 0 <= i < |nodes| ==> nodes[i] == NodeOf(inodes[i], pages)
  }

  /** A page that is no inode's indirect block may change freely. */
  lemma TablesNotFree(g: Geometry, v: Volume, b: int)
    requires Conserved(g, v) && b in v.free
    ensures forall j :: 0 <= j < |v.nodes| && v.nodes[j].Mapped() ==> v.nodes[j].indirect != b
  {
    forall j | 0 <= j < |v.nodes| && v.nodes[j].Mapped() ensures v.nodes[j].indirect != b {
      FreeIsNotOwned(g, v, j, b);
      assert v.nodes[j].indirect in Owned(v.nodes[j]);
    }
  }

  /** What s5_alloc_block did to the pages disturbs no inode. */
  lemma AllocKeepsNodes(g: Geometry, v: Volume, inodes: seq<Inode>, p: seq<seq<int>>, q: seq<seq<int>>)
    requires Conserved(g, v) && v.free != [] && NodesMatch(inodes, p, v.nodes) && |q| == |p|
    requires forall x :: 0 <= x < |p| && x != Top(v) ==> q[x] == p[x]
    ensures NodesMatch(inodes, q, v.nodes)
  {
    TablesNotFree(g, v, Top(v));
  }

  lemma TopIsFree(g: Geometry, v: Volume)
    requires g.Valid() && Conserved(g, v)
    ensures v.free != [] ==> g.InData(Top(v)) && Top(v) > 0
  {
    if v.free != [] { TopIsData(g, v); }
  }

  /** Only free blocks and the indirect block of inode i may differ. */
  ghost predicate Spared(before: seq<seq<int>>, after: seq<seq<int>>, v: Volume, i: nat)
    requires i < |v.nodes|
  {
    && |after| == |before|
    && forall x {:trigger after[x]} :: 0 <= x < |before| && x !in v.free && !(v.nodes[i].Mapped() && x == v.nodes[i].indirect)
         ==> after[x] == before[x]
  }

  /** Getting an indirect block and then an entry of it. */
  lemma SparedTwice(g: Geometry, before: seq<seq<int>>, mid: seq<seq<int>>, after: seq<seq<int>>, v: Volume, i: nat)
    requires i < |v.nodes| && v.free != [] && Spared(before, mid, v, i) && Spared(mid, after, AttachTable(g, v, i), i)
    requires !v.nodes[i].Mapped()
    ensures Spared(before, after, v, i)
  {
    assert v.free == AttachTable(g, v, i).free + [Top(v)];
  }

  /** Everything but the free list, as values. */
  ghost predicate TableOk(g: Geometry, inodes: seq<Inode>, head: int, pages: seq<seq<int>>, v: Volume) {
    InodeList(inodes, v.freeInodes, head) && NodesMatch(inodes, pages, v.nodes) && Conserved(g, v)
  }

  /** Only a file block past the end of the file is answered with -1. */
  lemma NotMinusOne(g: Geometry, v: Volume, i: nat, fb: nat, alloc: bool)
    requires g.Valid() && Conserved(g, v) && i < |v.nodes| && v.nodes[i].HasBlocks()
    ensures S5Blocks.SeekToBlock(g, v, i, fb, alloc).1 == -1 <==> fb >= g.direct + g.words
  {
    if fb < g.FileBlocks() { SeekOutcome(g, v, i, fb, alloc); }
  }

  /** What a search answers where no indirect block has to be found first. */
  lemma SeekIsFill(g: Geometry, v: Volume, i: nat, fb: nat, alloc: bool)
    requires i < |v.nodes| && fb < g.FileBlocks() && (fb < g.direct || v.nodes[i].Mapped())
    ensures S5Blocks.SeekToBlock(g, v, i, fb, alloc) == FillHole(g, v, i, fb, alloc)
  {
  }

  lemma SeekIsTable(g: Geometry, v: Volume, i: nat, fb: nat, alloc: bool)
    requires i < |v.nodes| && g.direct <= fb < g.FileBlocks() && !v.nodes[i].Mapped()
    ensures S5Blocks.SeekToBlock(g, v, i, fb, alloc)
      == if v.free == [] then (v, -ENOSPC) else FillHole(g, AttachTable(g, v, i), i, fb, alloc)
  {
  }

  lemma DirectTaken(g: Geometry, v: Volume, a: seq<Inode>, head: int, p: seq<seq<int>>, q: seq<seq<int>>, i: nat, fb: nat)
    requires g.Valid() && TableOk(g, a, head, p, v) && v.free != [] && |q| == |p|
    requires forall x :: 0 <= x < |p| && x != Top(v) ==> q[x] == p[x]
    requires i < |a| && v.nodes[i].HasBlocks() && fb < g.direct && fb < |a[i].direct| && a[i].direct[fb] == 0
    ensures var (v', r) := FillHole(g, v, i, fb, true);
      && r == Top(v) && v'.free == v.free[..|v.free| - 1] && v'.freeInodes == v.freeInodes
      && TableOk(g, a[i := a[i].(direct := a[i].direct[fb := r])], head, q, v')
  {
    AllocKeepsNodes(g, v, a, p, q);
    FillHoleConserves(g, v, i, fb, true);
  }

  lemma TopOnce(g: Geometry, v: Volume)
    requires g.Valid() && Conserved(g, v) && v.free != []
    ensures g.InData(Top(v)) && Top(v) > 0 && Top(v) !in v.free[..|v.free| - 1]
  {
    TopIsData(g, v);
    assert v.free == v.free[..|v.free| - 1] + [Top(v)];
    Once(g, v, Top(v));
    TimesSnoc(v.free[..|v.free| - 1], Top(v), Top(v));
    TimesIn(v.free[..|v.free| - 1], Top(v));
  }

  /** A new indirect block: the top free block zeroed and hung on inode i. */
  lemma TableTaken(g: Geometry, v: Volume, a: seq<Inode>, head: int, p: seq<seq<int>>, q: seq<seq<int>>, i: nat)
    requires g.Valid() && TableOk(g, a, head, p, v) && v.free != [] && |q| == |p| == g.limit
    requires forall x :: 0 <= x < |p| && x != Top(v) ==> q[x] == p[x]
    requires 0 <= Top(v) < |q| && q[Top(v)] == Zeros(g.words)
    requires i < |a| && v.nodes[i].HasBlocks() && !v.nodes[i].Mapped()
    ensures TableOk(g, a[i := a[i].(indirect := Top(v))], head, q, AttachTable(g, v, i))
  {
    TopOnce(g, v);
    AllocKeepsNodes(g, v, a, p, q);
    AttachTableConserves(g, v, i);
    assert v.nodes[i] == NodeOf(a[i], p);
    assert AttachTable(g, v, i).nodes[i] == NodeOf(a[i].(indirect := Top(v)), q);
  }

  /** The top free block entered at position k of inode i's table. */
  lemma EntryTaken(g: Geometry, v: Volume, a: seq<Inode>, head: int, p: seq<seq<int>>, q: seq<seq<int>>, i: nat, k: nat)
    requires g.Valid() && TableOk(g, a, head, p, v) && v.free != [] && |q| == |p| == g.limit
    requires i < |a| && v.nodes[i].Mapped() && k < g.words && v.nodes[i].table[k] == 0
    requires 0 <= a[i].indirect < |q| && |p[a[i].indirect]| == g.words
    requires q[a[i].indirect] == p[a[i].indirect][k := Top(v)]
    requires forall x :: 0 <= x < |p| && x != Top(v) && x != a[i].indirect ==> q[x] == p[x]
    ensures var (v', r) := FillHole(g, v, i, g.direct + k, true);
      && r == Top(v) && v'.free == v.free[..|v.free| - 1] && v'.freeInodes == v.freeInodes
      && TableOk(g, a, head, q, v')
  {
    var t := a[i].indirect;
    MappedIsData(g, v, i);
    TopIsData(g, v);
    AllocKeepsNodes(g, v, a, p, q[t := p[t]]);
    FillHoleConserves(g, v, i, g.direct + k, true);
    forall j | 0 <= j < |v.nodes| && j != i && v.nodes[j].Mapped() ensures v.nodes[j].indirect != t {
      if v.nodes[j].indirect == t { IndirectOnce(g, v, i, j); }
    }
  }

  lemma MappedIsData(g: Geometry, v: Volume, i: nat)
    requires Conserved(g, v) && i < |v.nodes| && v.nodes[i].Mapped()
    ensures g.InData(v.nodes[i].indirect) && v.nodes[i].indirect !in v.free
  {
    var t := v.nodes[i].indirect;
    assert t in Owned(v.nodes[i]);
    OwnedOnce(g, v, i, i, t);
    if t in v.free { FreeIsNotOwned(g, v, i, t); }
  }

  lemma IndirectOnce(g: Geometry, v: Volume, i: nat, j: nat)
    requires Conserved(g, v) && i < |v.nodes| && j < |v.nodes| && v.nodes[i].Mapped() && v.nodes[j].Mapped()
    requires v.nodes[i].indirect == v.nodes[j].indirect
    ensures i == j
  {
    var t := v.nodes[i].indirect;
    assert t in Owned(v.nodes[i]) && t in Owned(v.nodes[j]);
    OwnedOnce(g, v, i, j, t);
  }

  lemma InodeTaken(g: Geometry, v: Volume, a: seq<Inode>, head: int, p: seq<seq<int>>, kind: Kind, dev: int)
    requires TableOk(g, a, head, p, v) && head != -1 && kind != Free
    ensures var (v', r) := S5Blocks.AllocInode(g, v, kind, dev);
      var indirect := if kind == Chr || kind == Blk then dev else 0;
      && r == head && 0 <= head < |a| && v'.free == v.free
      && TableOk(g, a[head := Inode(kind, Zeros(g.direct), indirect, 0)], a[head].un, p, v')
  {
    AllocInodeConserves(g, v, kind, dev);
  }

  lemma InodeDropped(g: Geometry, v: Volume, a: seq<Inode>, head: int, p: seq<seq<int>>, q: seq<seq<int>>, i: nat)
    requires TableOk(g, a, head, p, v) && i < |a| && a[i].kind != Free && Kept(p, q, Owned(v.nodes[i]))
    ensures TableOk(g, a[i := Inode(Free, Zeros(g.direct), 0, head)], i, q, S5Blocks.FreeInode(g, v, i))
  {
    assert v.nodes[i] == NodeOf(a[i], p);
    FreeInodeConserves(g, v, i);
    forall j | 0 <= j < |v.nodes| && j != i && v.nodes[j].Mapped()
      ensures v.nodes[j].indirect !in Owned(v.nodes[i])
    {
      assert v.nodes[j].indirect in Owned(v.nodes[j]);
      if v.nodes[j].indirect in Owned(v.nodes[i]) { OwnedOnce(g, v, i, j, v.nodes[j].indirect); }
    }
    var b := a[i := Inode(Free, Zeros(g.direct), 0, head)];
    forall j | 0 <= j < |v.nodes| && j != i ensures v.nodes[j] == NodeOf(b[j], q) {
      assert v.nodes[j] == NodeOf(a[j], p);
    }
  }

  lemma {:induction false} NonZeroAppend(s: seq<int>, t: seq<int>)
    ensures NonZero(s + t) == NonZero(s) + NonZero(t)
  {
    if s == [] {
      assert s + t == t;
    } else {
      assert (s + t)[1..] == s[1..] + t;
      NonZeroAppend(s[1..], t);
    }
  }

  lemma NonZeroSnoc(s: seq<int>, x: int)
    ensures NonZero(s + [x]) == NonZero(s) + if x == 0 then [] else [x]
  {
    NonZeroAppend(s, [x]);
    assert NonZero([x]) == if x == 0 then [] else [x];
  }

  lemma NonZeroNext(s: seq<int>, k: nat)
    requires k < |s|
    ensures NonZero(s[..k + 1]) == NonZero(s[..k]) + if s[k] == 0 then [] else [s[k]]
  {
    NonZeroSnoc(s[..k], s[k]);
    assert s[..k + 1] == s[..k] + [s[k]];
  }

  /** The nonzero entries are distinct data blocks, none of them in free. */
  ghost predicate Freeable(g: Geometry, free: seq<int>, entries: seq<int>) {
    Distinct(free + NonZero(entries)) && forall b :: b in NonZero(entries) ==> g.InData(b)
  }

  lemma NonZeroHas(s: seq<int>, k: nat)
    requires k < |s| && s[k] != 0
    ensures s[k] in NonZero(s)
  {
    NonZeroTimes(s, s[k]);
    TimesIn(s, s[k]);
    TimesIn(NonZero(s), s[k]);
  }

  lemma NonZeroSplit(s: seq<int>, k: nat)
    requires k < |s| && s[k] != 0
    ensures NonZero(s) == NonZero(s[..k]) + [s[k]] + NonZero(s[k + 1..])
  {
    NonZeroNext(s, k);
    NonZeroAppend(s[..k + 1], s[k + 1..]);
    assert s == s[..k + 1] + s[k + 1..];
  }

  /** So each entry in turn may be freed. */
  lemma NextFreed(g: Geometry, free: seq<int>, s: seq<int>, k: nat)
    requires Freeable(g, free, s) && k < |s|
    ensures NonZero(s[..k + 1]) == NonZero(s[..k]) + if s[k] == 0 then [] else [s[k]]
    ensures s[k] != 0 ==> g.InData(s[k]) && s[k] in NonZero(s) && s[k] !in free + NonZero(s[..k])
  {
    NonZeroNext(s, k);
    if s[k] != 0 {
      NonZeroSplit(s, k);
      NextDistinct(free, NonZero(s[..k]), s[k], NonZero(s[k + 1..]), NonZero(s));
    }
  }

  lemma NextDistinct(free: seq<int>, a: seq<int>, b: int, c: seq<int>, whole: seq<int>)
    requires whole == a + [b] + c && Distinct(free + whole)
    ensures b in whole && b !in free + a
  {
    var t := free + whole;
    assert whole[|a|] == b;
    forall i | 0 <= i < |free + a| ensures (free + a)[i] != b {
      assert At(t, i) == (free + a)[i] && At(t, |free + a|) == b;
    }
  }

  lemma DistinctByTimes(s: seq<int>)
    requires forall x :: Times(s, x) <= 1
    ensures Distinct(s)
  {
    forall i, j | 0 <= i < j < |s| ensures At(s, i) != At(s, j) {
      if s[i] == s[j] { TwiceInSeq(s, i, j); }
    }
  }

  /** An inode's blocks may be freed in the order s5_free_inode walks them. */
  lemma OwnedFreeable(g: Geometry, v: Volume, i: nat)
    requires Conserved(g, v) && i < |v.nodes|
    ensures var n := v.nodes[i];
      && Freeable(g, v.free, n.direct)
      && (n.Mapped() ==> Freeable(g, v.free + NonZero(n.direct), n.table + [n.indirect]))
  {
    var n := v.nodes[i];
    var direct, tail := NonZero(n.direct), NonZero(n.table + [n.indirect]);
    NonZeroSnoc(n.table, n.indirect);
    forall x ensures Times(v.free + direct, x) <= 1 && (n.Mapped() ==> Times(v.free + direct + tail, x) <= 1) {
      Once(g, v, x);
      HeldContains(v.nodes, i, x);
      TimesAppend(v.free, direct, x);
      TimesAppend(v.free + direct, tail, x);
      TimesAppend(direct, tail, x);
      TimesAppend(direct, [], x);
    }
    DistinctByTimes(v.free + direct);
    forall b | b in Owned(n) ensures g.InData(b) { OwnedOnce(g, v, i, i, b); }
    assert forall b :: b in direct ==> b in Owned(n);
    if n.Mapped() {
      DistinctByTimes(v.free + direct + tail);
      assert forall b :: b in tail ==> b in Owned(n);
    }
  }

  /** An inode's blocks may be freed in the order s5_free_inode walks them, its indirect block last
      and not overwritten before that. */
  ghost predicate WalkOk(g: Geometry, free: seq<int>, n: Node) {
    && Freeable(g, free, n.direct)
    && (n.Mapped() ==>
          && Freeable(g, free + NonZero(n.direct), n.table + [n.indirect])
          && NonZero(n.table + [n.indirect]) == NonZero(n.table) + [n.indirect]
          && g.InData(n.indirect) && n.indirect !in NonZero(n.direct) && n.indirect !in NonZero(n.table))
  }

  lemma WalkIsOk(g: Geometry, v: Volume, i: nat)
    requires Conserved(g, v) && i < |v.nodes|
    ensures WalkOk(g, v.free, v.nodes[i])
  {
    var n := v.nodes[i];
    OwnedFreeable(g, v, i);
    if n.Mapped() {
      var t := n.indirect;
      MappedIsData(g, v, i);
      NonZeroSnoc(n.table, t);
      assert t in Owned(n);
      OwnedOnce(g, v, i, i, t);
      TimesAppend(NonZero(n.direct), NonZero(n.table) + [t], t);
      TimesSnoc(NonZero(n.table), t, t);
      TimesIn(NonZero(n.direct), t);
      TimesIn(NonZero(n.table), t);
    }
  }

  ghost function At(s: seq<int>, i: nat): int
    requires i < |s|
  {
    s[i]
  }

  ghost predicate Distinct(s: seq<int>) {
    forall i, j {:trigger At(s, i), At(s, j)} :: 0 <= i < j < |s| ==> At(s, i) != At(s, j)
  }

  lemma DistinctSnoc(s: seq<int>, x: int)
    ensures Distinct(s + [x]) <==> Distinct(s) && x !in s
  {
    var t := s + [x];
    forall i | 0 <= i < |s| ensures At(t, i) == At(s, i) {}
    if Distinct(t) {
      forall i, j | 0 <= i < j < |s| ensures At(s, i) != At(s, j) { assert At(t, i) != At(t, j); }
      forall i | 0 <= i < |s| ensures s[i] != x { assert At(t, i) != At(t, |s|); }
    }
  }

  /** The superblock's slots hold arr, n of them in use, and the chain behind them is c. */
  ghost predicate FreeListIs(g: Geometry, pages: seq<seq<int>>, arr: seq<int>, n: nat, c: seq<int>, free: seq<int>) {
    && g.Valid() && |arr| == g.slots && PagesOk(g, pages) && n < g.slots
    && Linked(g, pages, c, arr[g.slots - 1])
    && free == ChainBlocks(g, pages, c, |c|) + arr[..n]
    && Distinct(free)
    && (forall b :: b in free ==> g.InData(b))
  }

  /** The block that emptied slots link to: it is the last of the chain and the last that was freed. */
  lemma RefillTop(g: Geometry, p: seq<seq<int>>, arr: seq<int>, c: seq<int>, free: seq<int>)
    requires FreeListIs(g, p, arr, 0, c, free) && 0 <= arr[g.slots - 1] < |p|
    ensures c != [] && arr[g.slots - 1] == c[|c| - 1] && g.InData(c[|c| - 1])
    ensures var b, below := c[|c| - 1], ChainBlocks(g, p, c, |c| - 1) + p[c[|c| - 1]][..g.slots - 1];
      free == below + [b] && Distinct(below) && b !in below && forall x :: x in below ==> g.InData(x)
  {
    TopOfChain(g, p, c, arr[g.slots - 1]);
    var b, below := c[|c| - 1], ChainBlocks(g, p, c, |c| - 1) + p[c[|c| - 1]][..g.slots - 1];
    assert arr[..0] == [] && free == below + [b];
    DistinctSnoc(below, b);
    SnocInData(g, below, b, free);
  }

  lemma SnocInData(g: Geometry, below: seq<int>, b: int, free: seq<int>)
    requires free == below + [b] && forall x :: x in free ==> g.InData(x)
    ensures forall x :: x in below ==> g.InData(x)
  {
    assert forall x :: x in below ==> x in free;
  }

  /** A block that is not reached through the chain is no block of the chain. */
  lemma ChainWithout(g: Geometry, p: seq<seq<int>>, chain: seq<int>, n: nat, b: int)
    requires g.Valid() && PagesOk(g, p) && n <= |chain| && b !in ChainBlocks(g, p, chain, n)
    ensures forall k :: 0 <= k < n ==> chain[k] != b
  {
    forall k | 0 <= k < n ensures chain[k] != b {
      ChainIn(g, p, chain, n, k);
    }
  }

  lemma TopOfChain(g: Geometry, p: seq<seq<int>>, c: seq<int>, link: int)
    requires g.Valid() && PagesOk(g, p) && Linked(g, p, c, link) && 0 <= link < |p|
    ensures c != [] && link == c[|c| - 1] && g.InData(link)
    ensures ChainBlocks(g, p, c, |c|) == ChainBlocks(g, p, c, |c| - 1) + p[link][..g.slots - 1] + [link]
  {
  }


  /** Emptied slots are refilled from the block they link to, which is handed out zeroed. */
  lemma Refilled(g: Geometry, p: seq<seq<int>>, arr: seq<int>, c: seq<int>, free: seq<int>)
    requires FreeListIs(g, p, arr, 0, c, free) && 0 <= arr[g.slots - 1] < |p|
    ensures var b := arr[g.slots - 1];
      && c != [] && free != [] && b == free[|free| - 1] && g.InData(b)
      && FreeListIs(g, p[b := Zeros(g.words)], p[b][..g.slots], g.slots - 1, c[..|c| - 1], free[..|free| - 1])
  {
    RefillTop(g, p, arr, c, free);
    var b, c' := arr[g.slots - 1], c[..|c| - 1];
    ChainWithout(g, p, c, |c| - 1, b);
    ChainFrame(g, p, p[b := Zeros(g.words)], c, c', |c| - 1);
    assert p[b][..g.slots][..g.slots - 1] == p[b][..g.slots - 1];
    assert free[..|free| - 1] == ChainBlocks(g, p, c, |c| - 1) + p[b][..g.slots - 1];
  }

  /** Full slots are spilled into the freed block, which becomes the new link. */
  lemma Spilled(g: Geometry, p: seq<seq<int>>, arr: seq<int>, c: seq<int>, free: seq<int>, b: int)
    requires g.Valid() && FreeListIs(g, p, arr, g.slots - 1, c, free) && g.InData(b) && b !in free
    ensures FreeListIs(g, p[b := arr + p[b][g.slots..]], arr[g.slots - 1 := b], 0, c + [b], free + [b])
  {
    var q := p[b := arr + p[b][g.slots..]];
    ChainWithout(g, p, c, |c|, b);
    ChainFrame(g, p, q, c, c + [b], |c|);
    assert q[b][..g.slots - 1] == arr[..g.slots - 1];
    DistinctSnoc(free, b);
  }

  lemma PushedOrPopped(g: Geometry, p: seq<seq<int>>, arr: seq<int>, n: nat, c: seq<int>, free: seq<int>, b: int)
    requires n + 1 < g.slots
    requires |arr| == g.slots && arr[n] == b
    ensures FreeListIs(g, p, arr, n + 1, c, free + [b]) <==> FreeListIs(g, p, arr, n, c, free) && g.InData(b) && b !in free
  {
    DistinctSnoc(free, b);
    assert arr[..n + 1] == arr[..n] + [b];
    if FreeListIs(g, p, arr, n + 1, c, free + [b]) {
      assert free + [b] == ChainBlocks(g, p, c, |c|) + arr[..n] + [b];
      assert (free + [b])[..|free|] == free;
      assert forall x :: x in free ==> x in free + [b];
      assert b in free + [b];
    }
  }

  /** The contents of a block that is not free are no part of the free list. */
  lemma FreeListFrame(g: Geometry, p: seq<seq<int>>, arr: seq<int>, n: nat, c: seq<int>, free: seq<int>, b: int, page: seq<int>)
    requires FreeListIs(g, p, arr, n, c, free) && b !in free && 0 <= b < |p| && |page| == g.words
    ensures FreeListIs(g, p[b := page], arr, n, c, free)
  {
    ChainWithout(g, p, c, |c|, b);
    ChainFrame(g, p, p[b := page], c, c, |c|);
  }

  /** The superblock's free-block array and the block device's pages. */
  class BlockStore {
    const g: Geometry
    var nfree: nat
    const freeBlocks: array<int>
    var pages: seq<seq<int>>
    ghost var chain: seq<int>
    /** The free blocks in the order AllocBlock hands them out, last first. */
    ghost var free: seq<int>

    ghost predicate Valid()
      reads this, freeBlocks
    {
      FreeListIs(g, pages, freeBlocks[..], nfree, chain, free)
    }

    /** A device with no free block: an empty slot array whose last slot names no block. */
    constructor (g: Geometry)
      requires g.Valid()
      ensures Valid() && this.g == g && free == [] && fresh(freeBlocks)
    {
      this.g := g;
      freeBlocks := new int[g.slots](_ => -1);
      nfree := 0;
      pages := seq(g.limit, _ => Zeros(g.words));
      chain := [];
      free := [];
    }

    /** Copies the chain block's own array into the slots and zeroes the block. */
    method Refill(block: int)
      requires Valid() && nfree == 0 && block == freeBlocks[g.slots - 1] && 0 <= block < |pages|
      modifies this, freeBlocks
      ensures Valid() && old(free) != [] && block == old(free)[|old(free)| - 1]
      ensures free == old(free)[..|old(free)| - 1] && pages == old(pages)[block := Zeros(g.words)]
    {
      Refilled(g, pages, freeBlocks[..], chain, free);
      var next := pages[block];
      forall k | 0 <= k < g.slots { freeBlocks[k] := next[k]; }
      assert freeBlocks[..] == next[..g.slots];
      pages := pages[block := Zeros(g.words)];
      nfree := g.slots - 1;
      chain := chain[..|chain| - 1];
      free := free[..|free| - 1];
    }

    method AllocBlock() returns (block: int)
      requires Valid()
      modifies this, freeBlocks
      ensures Valid()
      ensures old(free) == [] ==> block == -ENOSPC && free == [] && pages == old(pages)
      ensures old(free) != [] ==> block == old(free)[|old(free)| - 1] && free == old(free)[..|old(free)| - 1]
      ensures |pages| == |old(pages)| && forall p :: 0 <= p < |pages| && p != block ==> pages[p] == old(pages)[p]
    {
      if nfree == 0 {
        block := freeBlocks[g.slots - 1];
        if !(0 <= block < |pages|) {
          return -ENOSPC;
        }
        Refill(block);
      } else {
        nfree := nfree - 1;
        block := freeBlocks[nfree];
        assert freeBlocks[..nfree + 1] == freeBlocks[..nfree] + [block];
        free := free[..|free| - 1];
        assert old(free) == free + [block];
        PushedOrPopped(g, pages, freeBlocks[..], nfree, chain, free, block);
      }
    }

    method FreeBlock(block: int)
      requires Valid()
      requires g.InData(block) && block !in free
      modifies this, freeBlocks
      ensures Valid() && free == old(free) + [block]
      ensures |pages| == |old(pages)| && forall p :: 0 <= p < |pages| && p != block ==> pages[p] == old(pages)[p]
    {
      if nfree == g.slots - 1 {
        Spilled(g, pages, freeBlocks[..], chain, free, block);
        pages := pages[block := freeBlocks[..] + pages[block][g.slots..]];
        nfree := 0;
        freeBlocks[g.slots - 1] := block;
        chain := chain + [block];
        assert freeBlocks[..] == old(freeBlocks[..])[g.slots - 1 := block];
      } else {
        freeBlocks[nfree] := block;
        assert freeBlocks[..nfree] == old(freeBlocks[..nfree]);
        PushedOrPopped(g, pages, freeBlocks[..], nfree, chain, free, block);
        nfree := nfree + 1;
      }
      free := free + [block];
    }

    /** Freeing a block and allocating again gives the block back and restores the whole free
        sequence, also when the first call spills the slots to disk and the second refills them. */
    method FreeThenAlloc(block: int) returns (r: int)
      requires Valid()
      requires g.InData(block) && block !in free
      modifies this, freeBlocks
      ensures Valid() && r == block && free == old(free)
    {
      FreeBlock(block);
      r := AllocBlock();
      assert free == old(free);
    }

    /** The walk of s5_free_inode over an indirect block, then the block itself.  The table being walked
        is read from a page that none of the frees before the last touches. */
    method FreeTable(ind: int)
      requires Valid() && 0 <= ind < |pages|
      requires Freeable(g, free, pages[ind] + [ind]) && ind !in NonZero(pages[ind])
      modifies this, freeBlocks
      ensures Valid() && free == old(free) + NonZero(old(pages)[ind] + [ind])
      ensures Kept(old(pages), pages, NonZero(old(pages)[ind] + [ind]))
    {
      ghost var entries, before := pages[ind] + [ind], pages;
      NextFreed(g, free, entries, g.words);
      assert entries[..g.words + 1] == entries;
      FreeEntries(ind);
      if ind != 0 {
        ghost var mid := pages;
        FreeBlock(ind);
        KeptOne(before, mid, pages, NonZero(entries), ind);
      }
    }

    method FreeEntries(ind: int)
      requires Valid() && 0 <= ind < |pages|
      requires Freeable(g, free, pages[ind] + [ind]) && ind !in NonZero(pages[ind])
      modifies this, freeBlocks
      ensures Valid() && free == old(free) + NonZero((old(pages)[ind] + [ind])[..g.words])
      ensures Kept(old(pages), pages, NonZero(old(pages)[ind] + [ind]))
    {
      ghost var before, table, entries := pages, pages[ind], pages[ind] + [ind];
      for i := 0 to g.words
        invariant Valid() && free == old(free) + NonZero(entries[..i])
        invariant Kept(before, pages, NonZero(entries)) && pages[ind] == table
      {
        ghost var mid := pages;
        var b := pages[ind][i];
        NextFreed(g, old(free), entries, i);
        if b != 0 {
          NonZeroHas(table, i);
          FreeBlock(b);
          KeptOne(before, mid, pages, NonZero(entries), b);
        }
      }
    }

    /** Allocates a block and zeroes its page. */
    method AllocZeroed() returns (block: int)
      requires Valid() && (free != [] ==> g.InData(free[|free| - 1]) && free[|free| - 1] !in free[..|free| - 1])
      modifies this, freeBlocks
      ensures Valid() && |pages| == |old(pages)|
      ensures old(free) == [] ==> block == -ENOSPC && free == [] && pages == old(pages)
      ensures old(free) != [] ==>
        && block == old(free)[|old(free)| - 1] && free == old(free)[..|old(free)| - 1]
        && 0 <= block < |pages| && pages[block] == Zeros(g.words)
        && forall p :: 0 <= p < |pages| && p != block ==> pages[p] == old(pages)[p]
    {
      block := AllocBlock();
      if block >= 0 {
        SetPage(block, Zeros(g.words));
      }
    }

    /** Allocates a block and enters it at word k of a page that is not free. */
    method AllocEntry(page: int, k: nat) returns (block: int)
      requires Valid() && (free != [] ==> free[|free| - 1] > 0)
      requires 0 <= page < |pages| && page !in free && k < g.words
      modifies this, freeBlocks
      ensures Valid() && |pages| == |old(pages)|
      ensures old(free) == [] ==> block == -ENOSPC && free == [] && pages == old(pages)
      ensures old(free) != [] ==>
        && block == old(free)[|old(free)| - 1] && free == old(free)[..|old(free)| - 1]
        && |old(pages)[page]| == g.words && pages[page] == old(pages)[page][k := block]
        && forall p :: 0 <= p < |pages| && p != block && p != page ==> pages[p] == old(pages)[p]
    {
      block := AllocBlock();
      if block >= 0 {
        SetPage(page, pages[page][k := block]);
      }
    }

    /** Writes into a page that is not free. */
    method SetPage(block: int, page: seq<int>)
      requires Valid() && block !in free && 0 <= block < |pages| && |page| == g.words
      modifies this`pages
      ensures Valid() && pages == old(pages)[block := page]
    {
      FreeListFrame(g, pages, freeBlocks[..], nfree, chain, free, block, page);
      pages := pages[block := page];
    }
  }

  /** The table is not disturbed by freeing the direct blocks. */
  lemma TableStands(g: Geometry, before: seq<seq<int>>, mid: seq<seq<int>>, free: seq<int>, n: Node, i: Inode)
    requires n == NodeOf(i, before) && n.Mapped() && WalkOk(g, free, n) && |before| == g.limit
    requires Kept(before, mid, NonZero(n.direct))
    ensures n.indirect == i.indirect && 0 <= n.indirect < |mid| && mid[n.indirect] == n.table
    ensures n.indirect !in NonZero(n.table) && Freeable(g, free + NonZero(n.direct), n.table + [n.indirect])
  {
  }

  /** The first i slots are cleared. */
  ghost predicate Cleared(direct: seq<int>, now: seq<int>, i: nat) {
    |now| == |direct| && forall k {:trigger now[k]} :: 0 <= k < |direct| ==> now[k] == if k < i then 0 else direct[k]
  }

  class S5Volume {
    const store: BlockStore
    var inodes: seq<Inode>
    var freeInode: int
    /** What the fields amount to. */
    ghost var vol: Volume

    ghost predicate Valid()
      reads this, store, store.freeBlocks
    {
      store.Valid() && vol.free == store.free && TableOk(store.g, inodes, freeInode, store.pages, vol)
    }

    constructor (store: BlockStore, inodes: seq<Inode>, freeInode: int, ghost v: Volume)
      requires store.Valid() && v.free == store.free && TableOk(store.g, inodes, freeInode, store.pages, v)
      ensures Valid() && this.store == store && vol == v
    {
      this.store := store;
      this.inodes := inodes;
      this.freeInode := freeInode;
      vol := v;
    }

    /** The direct-block case of s5_seek_to_block that allocates. */
    method TakeDirect(ino: nat, fb: nat) returns (r: int)
      requires Valid() && ino < |inodes| && vol.nodes[ino].HasBlocks()
      requires fb < store.g.direct && inodes[ino].direct[fb] == 0
      modifies this, store, store.freeBlocks
      ensures Valid() && Spared(old(store.pages), store.pages, old(vol), ino)
      ensures (vol, r) == FillHole(store.g, old(vol), ino, fb, true)
    {
      TopIsFree(store.g, vol);
      r := store.AllocBlock();
      if r >= 0 {
        DirectTaken(store.g, vol, inodes, freeInode, old(store.pages), store.pages, ino, fb);
        inodes := inodes[ino := inodes[ino].(direct := inodes[ino].direct[fb := r])];
        vol := FillHole(store.g, vol, ino, fb, true).0;
      }
    }

    /** Getting an indirect block for an inode that has none. */
    method TakeTable(ino: nat) returns (r: int)
      requires Valid() && ino < |inodes| && vol.nodes[ino].HasBlocks() && inodes[ino].indirect == 0
      modifies this, store, store.freeBlocks
      ensures Valid() && Spared(old(store.pages), store.pages, old(vol), ino)
      ensures old(vol).free == [] ==> r == -ENOSPC && vol == old(vol) && store.pages == old(store.pages)
      ensures old(vol).free != [] ==> r > 0 && vol == AttachTable(store.g, old(vol), ino)
    {
      if vol.free != [] { TopOnce(store.g, vol); }
      r := store.AllocZeroed();
      if r >= 0 {
        HangTable(ino, r, old(store.pages));
      }
    }

    /** The new indirect block is entered in the inode. */
    method HangTable(ino: nat, block: int, ghost before: seq<seq<int>>)
      requires store.Valid() && TableOk(store.g, inodes, freeInode, before, vol) && vol.free != [] && block == Top(vol)
      requires store.free == vol.free[..|vol.free| - 1] && |before| == |store.pages|
      requires ino < |inodes| && vol.nodes[ino].HasBlocks() && !vol.nodes[ino].Mapped()
      requires 0 <= block < |store.pages| && store.pages[block] == Zeros(store.g.words)
      requires forall x :: 0 <= x < |before| && x != block ==> store.pages[x] == before[x]
      modifies this
      ensures Valid() && vol == AttachTable(store.g, old(vol), ino)
    {
      TableTaken(store.g, vol, inodes, freeInode, before, store.pages, ino);
      inodes := inodes[ino := inodes[ino].(indirect := block)];
      vol := AttachTable(store.g, vol, ino);
    }

    /** Filling a hole in an inode's indirect block. */
    method TakeEntry(ino: nat, k: nat) returns (r: int)
      requires Valid() && ino < |inodes| && vol.nodes[ino].Mapped()
      requires k < store.g.words && vol.nodes[ino].table[k] == 0
      modifies this, store, store.freeBlocks
      ensures Valid() && Spared(old(store.pages), store.pages, old(vol), ino)
      ensures (vol, r) == FillHole(store.g, old(vol), ino, store.g.direct + k, true)
    {
      TopIsFree(store.g, vol);
      MappedIsData(store.g, vol, ino);
      r := store.AllocEntry(inodes[ino].indirect, k);
      if r >= 0 {
        EntryTaken(store.g, vol, inodes, freeInode, old(store.pages), store.pages, ino, k);
        vol := FillHole(store.g, vol, ino, store.g.direct + k, true).0;
      }
    }

    /** The part of s5_seek_to_block for direct blocks. */
    method SeekDirect(ino: nat, fb: nat, alloc: bool) returns (r: int)
      requires Valid() && ino < |inodes| && vol.nodes[ino].HasBlocks() && fb < store.g.direct
      modifies this, store, store.freeBlocks
      ensures Valid() && Spared(old(store.pages), store.pages, old(vol), ino)
      ensures (vol, r) == FillHole(store.g, old(vol), ino, fb, alloc)
    {
      assert vol.nodes[ino] == NodeOf(inodes[ino], store.pages) && vol.nodes[ino].Shaped(store.g);
      if inodes[ino].direct[fb] == 0 {
        if !alloc {
          return 0;
        }
        r := TakeDirect(ino, fb);
        return;
      }
      return inodes[ino].direct[fb];
    }

    /** The part of s5_seek_to_block for entries of the indirect block. */
    method SeekIndirect(ino: nat, off: nat, alloc: bool) returns (r: int)
      requires Valid() && ino < |inodes| && vol.nodes[ino].Mapped() && off < store.g.words
      modifies this, store, store.freeBlocks
      ensures Valid() && Spared(old(store.pages), store.pages, old(vol), ino)
      ensures (vol, r) == FillHole(store.g, old(vol), ino, store.g.direct + off, alloc)
    {
      assert vol.nodes[ino] == NodeOf(inodes[ino], store.pages) && vol.nodes[ino].Shaped(store.g);
      MappedIsData(store.g, vol, ino);
      var entry := store.pages[inodes[ino].indirect][off];
      if entry == 0 {
        if !alloc {
          return 0;
        }
        r := TakeEntry(ino, off);
        return;
      }
      return entry;
    }

    /** The same where the indirect block may be missing. */
    method SeekTable(ino: nat, off: nat, alloc: bool) returns (r: int)
      requires Valid() && ino < |inodes| && vol.nodes[ino].HasBlocks() && off < store.g.words
      modifies this, store, store.freeBlocks
      ensures Valid() && Spared(old(store.pages), store.pages, old(vol), ino)
      ensures (vol, r) ==
        if old(vol).nodes[ino].Mapped() then FillHole(store.g, old(vol), ino, store.g.direct + off, alloc)
        else if old(vol).free == [] then (old(vol), -ENOSPC)
        else FillHole(store.g, AttachTable(store.g, old(vol), ino), ino, store.g.direct + off, alloc)
    {
      assert vol.nodes[ino] == NodeOf(inodes[ino], store.pages);
      if inodes[ino].indirect == 0 {
        var b := TakeTable(ino);
        if b < 0 {
          return b;
        }
        ghost var mid := store.pages;
        r := SeekIndirect(ino, off, alloc);
        SparedTwice(store.g, old(store.pages), mid, store.pages, old(vol), ino);
        return;
      }
      r := SeekIndirect(ino, off, alloc);
    }

    /** s5_seek_to_block. */
    method SeekToBlock(ino: nat, seekptr: nat, alloc: bool) returns (r: int)
      requires Valid() && ino < |inodes| && vol.nodes[ino].HasBlocks()
      modifies this, store, store.freeBlocks
      ensures Valid() && Spared(old(store.pages), store.pages, old(vol), ino)
      ensures forall fb: nat {:trigger store.g.InBlock(seekptr, fb)} :: store.g.InBlock(seekptr, fb) ==>
                (vol, r) == S5Blocks.SeekToBlock(store.g, old(vol), ino, fb, alloc)
      ensures r == -1 <==> seekptr >= (store.g.direct + store.g.words) * (4 * store.g.words)
    {
      r := SeekFileBlock(ino, store.g.DataBlock(seekptr), alloc);
      ghost var g, fb := store.g, store.g.DataBlock(seekptr);
      BlocksBelow(g, seekptr, fb, g.direct + g.words);
      NotMinusOne(g, old(vol), ino, fb, alloc);
      forall fc: nat | g.InBlock(seekptr, fc) ensures fc == fb { OneBlock(g, seekptr, fb, fc); }
    }

    /** s5_seek_to_block from the point where the file block is known.  A block that is there is found in the inode or
        in the page of its indirect block. */
    method SeekFileBlock(ino: nat, blockNumber: nat, alloc: bool) returns (r: int)
      requires Valid() && ino < |inodes| && vol.nodes[ino].HasBlocks()
      modifies this, store, store.freeBlocks
      ensures Valid() && Spared(old(store.pages), store.pages, old(vol), ino)
      ensures (vol, r) == S5Blocks.SeekToBlock(store.g, old(vol), ino, blockNumber, alloc)
    {
      var g := store.g;
      if blockNumber >= g.words + g.direct {
        return -1;
      }
      ghost var v := vol;
      if blockNumber < g.direct {
        r := SeekDirect(ino, blockNumber, alloc);
        SeekIsFill(g, v, ino, blockNumber, alloc);
      } else {
        r := SeekTable(ino, blockNumber - g.direct, alloc);
        if v.nodes[ino].Mapped() { SeekIsFill(g, v, ino, blockNumber, alloc); }
        else { SeekIsTable(g, v, ino, blockNumber, alloc); }
      }
    }

    /** s5_alloc_inode. */
    method AllocInode(kind: Kind, dev: int) returns (r: int)
      requires Valid() && kind != Free
      modifies this
      ensures Valid()
      ensures (vol, r) == S5Blocks.AllocInode(store.g, old(vol), kind, dev)
    {
      if freeInode == -1 {
        return -ENOSPC;
      }
      InodeTaken(store.g, vol, inodes, freeInode, store.pages, kind, dev);
      r := freeInode;
      freeInode := inodes[r].un;
      var indirect := if kind == Chr || kind == Blk then dev else 0;
      inodes := inodes[r := Inode(kind, Zeros(store.g.direct), indirect, 0)];
      vol := S5Blocks.AllocInode(store.g, vol, kind, dev).0;
    }

    /** The first loop of s5_free_inode: direct blocks are freed and their slots cleared. */
    method FreeDirect(ino: nat)
      requires store.Valid() && ino < |inodes| && |inodes[ino].direct| == store.g.direct
      requires Freeable(store.g, store.free, inodes[ino].direct)
      modifies this`inodes, store, store.freeBlocks
      ensures store.Valid() && store.free == old(store.free) + NonZero(old(inodes)[ino].direct)
      ensures inodes == old(inodes)[ino := old(inodes)[ino].(direct := Zeros(store.g.direct))]
      ensures Kept(old(store.pages), store.pages, NonZero(old(inodes)[ino].direct))
    {
      ghost var direct, before, table := inodes[ino].direct, store.pages, inodes;
      ghost var now := direct;
      for i := 0 to store.g.direct
        invariant store.Valid() && store.free == old(store.free) + NonZero(direct[..i])
        invariant Kept(before, store.pages, NonZero(direct))
        invariant inodes == table[ino := table[ino].(direct := now)] && Cleared(direct, now, i)
      {
        FreeTurn(ino, i, before, old(store.free), direct);
        now := now[i := 0];
      }
      assert direct[..store.g.direct] == direct;
      assert now == Zeros(store.g.direct);
    }

    /** One turn of that loop: the block in slot i, if any, is freed and the slot cleared. */
    method FreeTurn(ino: nat, i: nat, ghost before: seq<seq<int>>, ghost free: seq<int>, ghost direct: seq<int>)
      requires store.Valid() && ino < |inodes| && i < |inodes[ino].direct| && i < |direct| && inodes[ino].direct[i] == direct[i]
      requires Freeable(store.g, free, direct) && store.free == free + NonZero(direct[..i])
      requires Kept(before, store.pages, NonZero(direct))
      modifies this`inodes, store, store.freeBlocks
      ensures store.Valid() && store.free == free + NonZero(direct[..i + 1])
      ensures inodes == old(inodes)[ino := old(inodes)[ino].(direct := old(inodes)[ino].direct[i := 0])]
      ensures Kept(before, store.pages, NonZero(direct))
    {
      NextFreed(store.g, free, direct, i);
      if inodes[ino].direct[i] != 0 {
        ghost var mid := store.pages;
        FreeSlot(ino, i);
        KeptOne(before, mid, store.pages, NonZero(direct), direct[i]);
      } else {
        assert inodes[ino].direct[i := 0] == inodes[ino].direct;
      }
    }

    method FreeSlot(ino: nat, i: nat)
      requires store.Valid() && ino < |inodes| && i < |inodes[ino].direct|
      requires store.g.InData(inodes[ino].direct[i]) && inodes[ino].direct[i] !in store.free
      modifies this`inodes, store, store.freeBlocks
      ensures store.Valid() && store.free == old(store.free) + [old(inodes)[ino].direct[i]]
      ensures inodes == old(inodes)[ino := old(inodes)[ino].(direct := old(inodes)[ino].direct[i := 0])]
      ensures |store.pages| == |old(store.pages)|
      ensures forall p :: 0 <= p < |store.pages| && p != old(inodes)[ino].direct[i] ==> store.pages[p] == old(store.pages)[p]
    {
      var b := inodes[ino].direct[i];
      inodes := inodes[ino := inodes[ino].(direct := inodes[ino].direct[i := 0])];
      store.FreeBlock(b);
    }

    /** The part of s5_free_inode that gives blocks back. */
    method FreeBlocks(ino: nat, ghost n: Node)
      requires store.Valid() && ino < |inodes| && n == NodeOf(inodes[ino], store.pages) && n.Shaped(store.g)
      requires WalkOk(store.g, store.free, n)
      modifies this`inodes, store, store.freeBlocks
      ensures store.Valid() && store.free == old(store.free) + Owned(n)
      ensures inodes == old(inodes)[ino := old(inodes)[ino].(direct := Zeros(store.g.direct))]
      ensures Kept(old(store.pages), store.pages, Owned(n))
    {
      ghost var before, free, i := store.pages, store.free, inodes[ino];
      FreeDirect(ino);
      if (inodes[ino].kind == Data || inodes[ino].kind == Dir) && inodes[ino].indirect != 0 {
        ghost var mid := store.pages;
        TableStands(store.g, before, mid, free, n, i);
        store.FreeTable(inodes[ino].indirect);
        KeptMore(before, mid, store.pages, NonZero(n.direct), NonZero(n.table + [n.indirect]));
        assert free + NonZero(n.direct) + NonZero(n.table + [n.indirect]) == free + Owned(n);
      } else {
        assert Owned(n) == NonZero(n.direct);
      }
    }

    /** s5_free_inode. */
    method FreeInode(ino: nat)
      requires Valid() && ino < |inodes| && inodes[ino].kind != Free
      modifies this, store, store.freeBlocks
      ensures Valid() && vol == S5Blocks.FreeInode(store.g, old(vol), ino)
      ensures Kept(old(store.pages), store.pages, Owned(old(vol).nodes[ino]))
    {
      ghost var n := vol.nodes[ino];
      assert n == NodeOf(inodes[ino], store.pages) && n.Shaped(store.g);
      WalkIsOk(store.g, vol, ino);
      FreeBlocks(ino, n);
      InodeDropped(store.g, vol, old(inodes), freeInode, old(store.pages), store.pages, ino);
      inodes := inodes[ino := Inode(Free, Zeros(store.g.direct), 0, freeInode)];
      freeInode := ino;
      assert inodes == old(inodes)[ino := Inode(Free, Zeros(store.g.direct), 0, old(freeInode))];
      vol := S5Blocks.FreeInode(store.g, vol, ino);
    }
  }
}
