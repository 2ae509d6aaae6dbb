/**
  The pages of files on the device: reading a page in, making room for a dirty page and writing it back, with the
  blocks s5_seek_to_block finds.  Whatever is done to one page of one file, every other page of every file stays.
 */
module S5Pages {
  import opened Errno
  import opened S5Blocks
  import opened S5VolumeImpl

  /** Page fb of inode i: what its block holds, and zeros where it has none. */
  ghost function PageOf(g: Geometry, v: Volume, pages: seq<seq<int>>, i: nat, fb: nat): seq<int>
    requires i < |v.nodes|
  {
    var b := BlockOf(g, v.nodes[i], fb);
    if 0 < b < |pages| then pages[b] else Zeros(g.words)
  }

  /** Every page of every inode is the same, but perhaps page fb of inode i. */
  ghost predicate OtherPages(g: Geometry, v: Volume, p: seq<seq<int>>, v': Volume, p': seq<seq<int>>, i: nat, fb: nat) {
    && |v'.nodes| == |v.nodes|
    && forall j: nat, fc: nat {:trigger PageOf(g, v', p', j, fc)} :: j < |v.nodes| && fc < g.FileBlocks() && (j, fc) != (i, fb)
         ==> PageOf(g, v', p', j, fc) == PageOf(g, v, p, j, fc)
  }

  ghost predicate SamePages(g: Geometry, v: Volume, p: seq<seq<int>>, v': Volume, p': seq<seq<int>>) {
    && |v'.nodes| == |v.nodes|
    && forall j: nat, fc: nat {:trigger PageOf(g, v', p', j, fc)} :: j < |v.nodes| && fc < g.FileBlocks()
         ==> PageOf(g, v', p', j, fc) == PageOf(g, v, p, j, fc)
  }

  /** A block of a file is neither free nor anybody's indirect block. */
  lemma FileBlockIs(g: Geometry, v: Volume, j: nat, fc: nat, i: nat)
    requires g.Valid() && Conserved(g, v) && j < |v.nodes| && i < |v.nodes| && fc < g.FileBlocks()
    requires BlockOf(g, v.nodes[j], fc) != 0
    ensures var b := BlockOf(g, v.nodes[j], fc);
      g.InData(b) && b !in v.free && !(v.nodes[i].Mapped() && v.nodes[i].indirect == b)
  {
    var b := BlockOf(g, v.nodes[j], fc);
    BlockIsData(g, v, j, fc);
    BlockIsOwned(g, v.nodes[j], fc);
    if b in v.free { FreeIsNotOwned(g, v, j, b); }
    if v.nodes[i].Mapped() && v.nodes[i].indirect == b {
      assert b in Owned(v.nodes[i]);
      OwnedOnce(g, v, i, j, b);
      TableIsNoPage(g, v.nodes[i], fc);
    }
  }

  lemma TableIsNoPage(g: Geometry, n: Node, fc: nat)
    requires n.Shaped(g) && fc < g.FileBlocks() && n.Mapped() && BlockOf(g, n, fc) == n.indirect
    ensures Times(Owned(n), n.indirect) >= 2
  {
    OwnedTimes(n, n.indirect);
    TimesIn(n.direct, n.indirect);
    TimesIn(n.table, n.indirect);
  }

  /** A search that answers no block leaves its file block a hole. */
  lemma SeekKeepsHole(g: Geometry, v: Volume, i: nat, fb: nat, alloc: bool)
    requires g.Valid() && Conserved(g, v) && i < |v.nodes| && v.nodes[i].HasBlocks() && fb < g.FileBlocks()
    requires SeekToBlock(g, v, i, fb, alloc).1 <= 0
    ensures BlockOf(g, v.nodes[i], fb) == 0
    ensures var v' := SeekToBlock(g, v, i, fb, alloc).0; i < |v'.nodes| && BlockOf(g, v'.nodes[i], fb) == 0
  {
    SeekOutcome(g, v, i, fb, alloc);
    if BlockOf(g, v.nodes[i], fb) != 0 { BlockIsData(g, v, i, fb); }
  }

  /** A block that was there is answered, and nothing changes. */
  lemma SeekFinds(g: Geometry, v: Volume, i: nat, fb: nat, alloc: bool)
    requires g.Valid() && Conserved(g, v) && i < |v.nodes| && v.nodes[i].HasBlocks() && fb < g.FileBlocks()
    requires BlockOf(g, v.nodes[i], fb) != 0
    ensures SeekToBlock(g, v, i, fb, alloc) == (v, BlockOf(g, v.nodes[i], fb)) && g.InData(BlockOf(g, v.nodes[i], fb))
  {
    BlockIsData(g, v, i, fb);
  }

  /** What a search does to the device is no page of a file, but for a block it hands out. */
  lemma SeekPages(g: Geometry, v: Volume, p: seq<seq<int>>, p': seq<seq<int>>, i: nat, fb: nat, alloc: bool)
    requires g.Valid() && Conserved(g, v) && i < |v.nodes| && v.nodes[i].HasBlocks() && Spared(p, p', v, i) && |p| == g.limit
    ensures OtherPages(g, v, p, SeekToBlock(g, v, i, fb, alloc).0, p', i, fb)
  {
    var v' := SeekToBlock(g, v, i, fb, alloc).0;
    SeekKeepsOthers(g, v, i, fb, alloc);
    forall j: nat, fc: nat | j < |v.nodes| && fc < g.FileBlocks() && (j, fc) != (i, fb)
      ensures PageOf(g, v', p', j, fc) == PageOf(g, v, p, j, fc)
    {
      if BlockOf(g, v.nodes[j], fc) != 0 { FileBlockIs(g, v, j, fc, i); }
    }
  }

  /** Without a new block nothing changes for any file. */
  lemma SeekSame(g: Geometry, v: Volume, p: seq<seq<int>>, p': seq<seq<int>>, i: nat, fb: nat, alloc: bool)
    requires g.Valid() && Conserved(g, v) && i < |v.nodes| && v.nodes[i].HasBlocks() && Spared(p, p', v, i) && |p| == g.limit
    requires SeekToBlock(g, v, i, fb, alloc).1 <= 0 || BlockOf(g, v.nodes[i], fb) != 0 || fb >= g.FileBlocks()
    ensures SamePages(g, v, p, SeekToBlock(g, v, i, fb, alloc).0, p')
  {
    SeekPages(g, v, p, p', i, fb, alloc);
    if fb < g.FileBlocks() {
      if BlockOf(g, v.nodes[i], fb) != 0 {
        SeekFinds(g, v, i, fb, alloc);
        FileBlockIs(g, v, i, fb, i);
      } else {
        SeekKeepsHole(g, v, i, fb, alloc);
      }
    }
  }

  /** Writing to block b of the device changes the page it stores, if any, and no other. */
  lemma WrittenPages(g: Geometry, v: Volume, p: seq<seq<int>>, b: nat, page: seq<int>, i: nat, fb: nat)
    requires g.Valid() && Conserved(g, v) && i < |v.nodes| && fb < g.FileBlocks() && b < |p| == g.limit
    requires BlockOf(g, v.nodes[i], fb) == b
    ensures OtherPages(g, v, p, v, p[b := page], i, fb)
    ensures b == 0 ==> SamePages(g, v, p, v, p[b := page])
    ensures b != 0 ==> PageOf(g, v, p[b := page], i, fb) == page
  {
    forall j: nat, fc: nat | j < |v.nodes| && fc < g.FileBlocks() && (j, fc) != (i, fb) && b != 0
      ensures PageOf(g, v, p[b := page], j, fc) == PageOf(g, v, p, j, fc)
    {
      FileBlocksDisjoint(g, v, i, fb, j, fc);
    }
  }

  /** Writing to a block that is no indirect block disturbs no inode. */
  lemma WrittenNodes(inodes: seq<Inode>, p: seq<seq<int>>, nodes: seq<Node>, b: nat, page: seq<int>)
    requires NodesMatch(inodes, p, nodes) && b < |p|
    requires forall j {:trigger nodes[j]} :: 0 <= j < |nodes| && nodes[j].Mapped() ==> nodes[j].indirect != b
    ensures NodesMatch(inodes, p[b := page], nodes)
  {
    forall j | 0 <= j < |nodes| ensures nodes[j] == NodeOf(inodes[j], p[b := page]) {
      assert nodes[j] == NodeOf(inodes[j], p);
    }
  }

  /** write_block, on block 0 or on a block that stores page fb of inode i. */
  method WriteBlock(vol: S5Volume, b: nat, page: seq<int>, ghost i: nat, ghost fb: nat)
    requires vol.Valid() && |page| == vol.store.g.words && i < |vol.vol.nodes| && fb < vol.store.g.FileBlocks()
    requires BlockOf(vol.store.g, vol.vol.nodes[i], fb) == b && vol.store.g.Valid() && b < vol.store.g.limit
    modifies vol.store`pages
    ensures vol.Valid() && |old(vol.store.pages)| == vol.store.g.limit && vol.store.pages == old(vol.store.pages)[b := page]
  {
    var g := vol.store.g;
    FreeIsData(g, vol.vol);
    forall j | 0 <= j < |vol.vol.nodes| && vol.vol.nodes[j].Mapped() ensures vol.vol.nodes[j].indirect != b {
      MappedIsData(g, vol.vol, j);
      if b != 0 { FileBlockIs(g, vol.vol, i, fb, j); }
    }
    if b != 0 { FileBlockIs(g, vol.vol, i, fb, i); }
    WrittenNodes(vol.inodes, vol.store.pages, vol.vol.nodes, b, page);
    vol.store.SetPage(b, page);
  }

  /** One after the other. */
  lemma SameThenOther(g: Geometry, v: Volume, p: seq<seq<int>>, v1: Volume, p1: seq<seq<int>>, v2: Volume, p2: seq<seq<int>>,
                      i: nat, fb: nat)
    requires SamePages(g, v, p, v1, p1) && OtherPages(g, v1, p1, v2, p2, i, fb)
    ensures OtherPages(g, v, p, v2, p2, i, fb) && (SamePages(g, v1, p1, v2, p2) ==> SamePages(g, v, p, v2, p2))
  {
  }

  lemma OtherThenOther(g: Geometry, v: Volume, p: seq<seq<int>>, v1: Volume, p1: seq<seq<int>>, v2: Volume,
                       p2: seq<seq<int>>, i: nat, fb: nat)
    requires OtherPages(g, v, p, v1, p1, i, fb) && OtherPages(g, v1, p1, v2, p2, i, fb)
    ensures OtherPages(g, v, p, v2, p2, i, fb)
  {
  }

  lemma SuperSpared(g: Geometry, v: Volume, p: seq<seq<int>>, p': seq<seq<int>>, i: nat)
    requires g.Valid() && Conserved(g, v) && i < |v.nodes| && Spared(p, p', v, i) && |p| == g.limit
    ensures |p'| == g.limit && p'[0] == p[0]
  {
    FreeIsData(g, v);
    if v.nodes[i].Mapped() { MappedIsData(g, v, i); }
  }

  /** What a search leaves: every other page, and page fb too unless it got a new block; the superblock; and a block
      for page fb where one is answered. */
  ghost predicate Sought(g: Geometry, v: Volume, p: seq<seq<int>>, v': Volume, p': seq<seq<int>>, i: nat, fb: nat, r: int)
    requires i < |v.nodes|
  {
    && |p| == |p'| == g.limit && g.limit > 0 && p'[0] == p[0]
    && |v'.nodes| == |v.nodes| && v'.nodes[i].HasBlocks()
    && OtherPages(g, v, p, v', p', i, fb)
    && (r <= 0 || BlockOf(g, v.nodes[i], fb) != 0 ==> SamePages(g, v, p, v', p'))
    && (r >= 0 ==> fb < g.FileBlocks() && r < g.limit && r == BlockOf(g, v'.nodes[i], fb))
    && (r >= 0 && BlockOf(g, v.nodes[i], fb) != 0 ==> v' == v)
  }

  lemma SeekIsSought(g: Geometry, v: Volume, p: seq<seq<int>>, p': seq<seq<int>>, i: nat, fb: nat, alloc: bool)
    requires g.Valid() && Conserved(g, v) && i < |v.nodes| && v.nodes[i].HasBlocks() && Spared(p, p', v, i) && |p| == g.limit
    ensures var (v', r) := SeekToBlock(g, v, i, fb, alloc);
      && Sought(g, v, p, v', p', i, fb, r)
      && (r < 0 <==> fb >= g.FileBlocks() || |v.free| < Needed(g, v.nodes[i], fb, alloc))
      && (r == 0 ==> !alloc && BlockOf(g, v.nodes[i], fb) == 0)
      && (r > 0 && !alloc ==> BlockOf(g, v.nodes[i], fb) == r)
      && (r >= 0 ==> |v'.free| == |v.free| - Needed(g, v.nodes[i], fb, alloc))
      && (r == 0 ==> Needed(g, v'.nodes[i], fb, true) == 1 && Needed(g, v.nodes[i], fb, true) == Needed(g, v.nodes[i], fb, false) + 1)
  {
    var (v', r) := SeekToBlock(g, v, i, fb, alloc);
    SuperSpared(g, v, p, p', i);
    SeekOutcome(g, v, i, fb, alloc);
    SeekKeepsOthers(g, v, i, fb, alloc);
    SeekPages(g, v, p, p', i, fb, alloc);
    if r <= 0 || BlockOf(g, v.nodes[i], fb) != 0 { SeekSame(g, v, p, p', i, fb, alloc); }
    if fb < g.FileBlocks() && BlockOf(g, v.nodes[i], fb) != 0 { SeekFinds(g, v, i, fb, alloc); }
    FreeIsData(g, v);
  }

  /** s5_seek_to_block, as far as the pages of files are concerned. */
  method Seek(vol: S5Volume, ino: nat, offset: nat, alloc: bool) returns (r: int)
    requires vol.Valid() && ino < |vol.inodes| && vol.vol.nodes[ino].HasBlocks()
    modifies vol, vol.store, vol.store.freeBlocks
    ensures vol.Valid() && ino < |vol.inodes| && ino < |old(vol.vol).nodes|
    ensures var g := vol.store.g; var fb := g.DataBlock(offset); var n := old(vol.vol).nodes[ino];
      && Sought(g, old(vol.vol), old(vol.store.pages), vol.vol, vol.store.pages, ino, fb, r)
      && (r < 0 <==> fb >= g.FileBlocks() || |old(vol.vol).free| < Needed(g, n, fb, alloc))
      && (r == 0 ==> !alloc && BlockOf(g, n, fb) == 0) && (r > 0 && !alloc ==> BlockOf(g, n, fb) == r)
      && (r >= 0 ==> |vol.vol.free| == |old(vol.vol).free| - Needed(g, n, fb, alloc))
      && (r == 0 ==> Needed(g, vol.vol.nodes[ino], fb, true) == 1 && Needed(g, n, fb, true) == Needed(g, n, fb, false) + 1)
  {
    ghost var v, p := vol.vol, vol.store.pages;
    r := vol.SeekToBlock(ino, offset, alloc);
    SeekIsSought(vol.store.g, v, p, vol.store.pages, ino, vol.store.g.DataBlock(offset), alloc);
  }

  /** s5fs_fillpage: the page, or an error exactly where the offset is too large or an indirect block is missing and
      cannot be had.  Though it may take a block for that, reading changes no page of any file. */
  method FillPage(vol: S5Volume, ino: nat, offset: nat) returns (ret: int, page: seq<int>)
    requires vol.Valid() && ino < |vol.inodes| && vol.vol.nodes[ino].HasBlocks()
    modifies vol, vol.store, vol.store.freeBlocks
    ensures vol.Valid() && SamePages(vol.store.g, old(vol.vol), old(vol.store.pages), vol.vol, vol.store.pages)
    ensures ino < |vol.inodes| && vol.vol.nodes[ino].HasBlocks()
    ensures var g := vol.store.g; var fb := g.DataBlock(offset);
      && (ret < 0 <==> fb >= g.FileBlocks() || |old(vol.vol).free| < Needed(g, old(vol.vol).nodes[ino], fb, false))
      && (ret >= 0 ==> ret == 0 && page == PageOf(g, old(vol.vol), old(vol.store.pages), ino, fb))
      && (ret >= 0 ==> |vol.vol.free| == |old(vol.vol).free| - Needed(g, old(vol.vol).nodes[ino], fb, false))
  {
    page := [];
    ret := Seek(vol, ino, offset, false);
    if ret == 0 {
      page := Zeros(vol.store.g.words);
    } else if ret > 0 {
      page := vol.store.pages[ret];
      assert page == PageOf(vol.store.g, vol.vol, vol.store.pages, ino, vol.store.g.DataBlock(offset));
      ret := 0;
    }
  }

  /** s5fs_dirtypage: afterwards the page has a block, unless there is no room.  Only a page that was a hole may read
      differently, until it is written back. */
  method DirtyPage(vol: S5Volume, ino: nat, offset: nat) returns (ret: int)
    requires vol.Valid() && ino < |vol.inodes| && vol.vol.nodes[ino].HasBlocks()
    modifies vol, vol.store, vol.store.freeBlocks
    ensures vol.Valid() && ino < |vol.inodes| && ino < |old(vol.vol).nodes|
    ensures var g := vol.store.g; var fb := g.DataBlock(offset); var n := old(vol.vol).nodes[ino];
      && Dirtied(g, old(vol.vol), old(vol.store.pages), vol.vol, vol.store.pages, ino, fb, ret)
      && (ret < 0 <==> fb >= g.FileBlocks() || |old(vol.vol).free| < Needed(g, n, fb, true))
      && (ret >= 0 ==> |vol.vol.free| == |old(vol.vol).free| - Needed(g, n, fb, true))
  {
    ghost var v, p := vol.vol, vol.store.pages;
    ret := Seek(vol, ino, offset, false);
    if ret < 0 { return; }
    if ret > 0 { return 0; }
    ghost var v1, p1 := vol.vol, vol.store.pages;
    ret := Seek(vol, ino, offset, true);
    SameThenOther(vol.store.g, v, p, v1, p1, vol.vol, vol.store.pages, ino, vol.store.g.DataBlock(offset));
    if ret > 0 { ret := 0; }
  }

  ghost predicate Dirtied(g: Geometry, v: Volume, p: seq<seq<int>>, v': Volume, p': seq<seq<int>>, i: nat, fb: nat, ret: int)
    requires i < |v.nodes|
  {
    && |p| == |p'| == g.limit && g.limit > 0 && p'[0] == p[0]
    && |v'.nodes| == |v.nodes| && v'.nodes[i].HasBlocks()
    && OtherPages(g, v, p, v', p', i, fb)
    && (ret < 0 || BlockOf(g, v.nodes[i], fb) != 0 ==> SamePages(g, v, p, v', p'))
    && (ret >= 0 ==> ret == 0 && fb < g.FileBlocks() && BlockOf(g, v'.nodes[i], fb) != 0)
  }

  /** What writing page fb of inode i back does: it is stored if it has a block; where it is a hole no page of any file
      changes, and the superblock, block 0, is overwritten. */
  ghost predicate Cleaned(g: Geometry, v: Volume, p: seq<seq<int>>, v': Volume, p': seq<seq<int>>, i: nat, fb: nat,
                          page: seq<int>)
    requires i < |v.nodes|
  {
    && |p| == |p'| == g.limit && g.limit > 0 && |v'.nodes| == |v.nodes| && v'.nodes[i].HasBlocks()
    && OtherPages(g, v, p, v', p', i, fb)
    && if BlockOf(g, v.nodes[i], fb) == 0 then SamePages(g, v, p, v', p') && p'[0] == page
       else PageOf(g, v', p', i, fb) == page && p'[0] == p[0]
  }

  lemma WrittenCleaned(g: Geometry, v: Volume, p: seq<seq<int>>, v1: Volume, p1: seq<seq<int>>, r: int, page: seq<int>,
                       i: nat, fb: nat)
    requires g.Valid() && Conserved(g, v1) && i < |v.nodes| && Sought(g, v, p, v1, p1, i, fb, r)
    requires r >= 0 && BlockOf(g, v.nodes[i], fb) == r
    ensures Cleaned(g, v, p, v1, p1[r := page], i, fb, page)
  {
    WrittenPages(g, v1, p1, r, page, i, fb);
    SameThenOther(g, v, p, v1, p1, v1, p1[r := page], i, fb);
  }

  /** s5fs_cleanpage. */
  method CleanPage(vol: S5Volume, ino: nat, offset: nat, page: seq<int>) returns (ret: int)
    requires vol.Valid() && ino < |vol.inodes| && vol.vol.nodes[ino].HasBlocks() && |page| == vol.store.g.words
    modifies vol, vol.store, vol.store.freeBlocks
    ensures vol.Valid() && ino < |old(vol.vol).nodes|
    ensures var g := vol.store.g; var fb := g.DataBlock(offset); var n := old(vol.vol).nodes[ino];
      && (ret < 0 <==> fb >= g.FileBlocks() || |old(vol.vol).free| < Needed(g, n, fb, false))
      && (ret < 0 ==> SamePages(g, old(vol.vol), old(vol.store.pages), vol.vol, vol.store.pages))
      && (ret >= 0 ==> |vol.vol.free| == |old(vol.vol).free| - Needed(g, n, fb, false))
      && (ret >= 0 ==> ret == 0 && Cleaned(g, old(vol.vol), old(vol.store.pages), vol.vol, vol.store.pages, ino, fb, page))
  {
    ghost var v, p := vol.vol, vol.store.pages;
    ret := Seek(vol, ino, offset, false);
    if ret < 0 { return; }
    ghost var fb, v1, p1 := vol.store.g.DataBlock(offset), vol.vol, vol.store.pages;
    WriteBlock(vol, ret, page, ino, fb);
    WrittenCleaned(vol.store.g, v, p, v1, p1, ret, page, ino, fb);
    ret := 0;
  }

  /** A page made dirty and written back: it is stored, and every other page of every file, and the superblock, are as
      they were; or there is no room, and all pages are. */
  method WritePage(vol: S5Volume, ino: nat, offset: nat, page: seq<int>) returns (ret: int)
    requires vol.Valid() && ino < |vol.inodes| && vol.vol.nodes[ino].HasBlocks() && |page| == vol.store.g.words
    modifies vol, vol.store, vol.store.freeBlocks
    ensures vol.Valid() && ino < |old(vol.vol).nodes| && |vol.vol.nodes| == |old(vol.vol).nodes|
    ensures var g := vol.store.g; var fb := g.DataBlock(offset); var n := old(vol.vol).nodes[ino];
      && (ret < 0 <==> fb >= g.FileBlocks() || |old(vol.vol).free| < Needed(g, n, fb, true))
      && (ret < 0 ==> SamePages(g, old(vol.vol), old(vol.store.pages), vol.vol, vol.store.pages))
      && (ret >= 0 ==>
            && OtherPages(g, old(vol.vol), old(vol.store.pages), vol.vol, vol.store.pages, ino, fb)
            && PageOf(g, vol.vol, vol.store.pages, ino, fb) == page && vol.vol.nodes[ino].HasBlocks()
            && |vol.vol.free| == |old(vol.vol).free| - Needed(g, n, fb, true)
            && |vol.store.pages| == |old(vol.store.pages)| > 0 && vol.store.pages[0] == old(vol.store.pages)[0])
  {
    ghost var v, p, fb := vol.vol, vol.store.pages, vol.store.g.DataBlock(offset);
    ret := DirtyPage(vol, ino, offset);
    if ret < 0 { return; }
    ghost var v1, p1 := vol.vol, vol.store.pages;
    ret := CleanPage(vol, ino, offset, page);
    OtherThenOther(vol.store.g, v, p, v1, p1, vol.vol, vol.store.pages, ino, fb);
  }

  /** Bytes a and b of a file are in one block of 4 * words bytes. */
  ghost predicate Together(g: Geometry, a: nat, b: nat) {
    exists k: nat :: k * (4 * g.words) <= a < (k + 1) * (4 * g.words) && k * (4 * g.words) <= b < (k + 1) * (4 * g.words)
  }

  lemma TogetherIs(g: Geometry, a: nat, b: nat)
    requires g.words > 0
    ensures Together(g, a, b) <==> g.DataBlock(a) == g.DataBlock(b)
  {
    if Together(g, a, b) {
      var k: nat :| k * (4 * g.words) <= a < (k + 1) * (4 * g.words) && k * (4 * g.words) <= b < (k + 1) * (4 * g.words);
      assert g.InBlock(a, k) && g.InBlock(b, k);
      OneBlock(g, a, g.DataBlock(a), k);
      OneBlock(g, b, g.DataBlock(b), k);
    } else {
      assert g.InBlock(a, g.DataBlock(a)) && g.InBlock(b, g.DataBlock(b));
    }
  }

  ghost function Size(g: Geometry): nat {
    (g.direct + g.words) * (4 * g.words)
  }

  lemma SizeIs(g: Geometry, a: nat)
    requires g.words > 0
    ensures a < Size(g) <==> g.DataBlock(a) < g.FileBlocks()
  {
    BlocksBelow(g, a, g.DataBlock(a), g.direct + g.words);
  }

  /** The page at byte a of a file written, and the page at byte b, which was before, read. */
  method WriteThenRead(vol: S5Volume, ino: nat, a: nat, page: seq<int>, b: nat, ghost before: seq<int>)
      returns (ok: bool, after: seq<int>)
    requires vol.Valid() && ino < |vol.inodes| && vol.vol.nodes[ino].HasBlocks() && |page| == vol.store.g.words
    requires before == PageOf(vol.store.g, vol.vol, vol.store.pages, ino, vol.store.g.DataBlock(b)) && b < Size(vol.store.g)
    modifies vol, vol.store, vol.store.freeBlocks
    ensures vol.Valid() && (ok ==> a < Size(vol.store.g) && after == if Together(vol.store.g, a, b) then page else before)
    ensures a < Size(vol.store.g) && |old(vol.vol).free| >= 3 ==> ok
  {
    after := [];
    TogetherIs(vol.store.g, a, b);
    SizeIs(vol.store.g, a);
    SizeIs(vol.store.g, b);
    var ret := WritePage(vol, ino, a, page);
    if ret < 0 { return false, after; }
    ret, after := FillPage(vol, ino, b);
    ok := ret >= 0;
  }

  /** The page at byte b read, the page at byte a of the same file written, and the page at b read again: it is what was
      written if a and b are in one block, and what it was before if they are not.  Four free blocks are always enough. */
  method WriteBetweenReads(vol: S5Volume, ino: nat, a: nat, page: seq<int>, b: nat)
      returns (ok: bool, before: seq<int>, after: seq<int>)
    requires vol.Valid() && ino < |vol.inodes| && vol.vol.nodes[ino].HasBlocks() && |page| == vol.store.g.words
    modifies vol, vol.store, vol.store.freeBlocks
    ensures vol.Valid() && (ok ==> after == if Together(vol.store.g, a, b) then page else before)
    ensures ok ==> a < Size(vol.store.g) && b < Size(vol.store.g)
    ensures a < Size(vol.store.g) && b < Size(vol.store.g) && |old(vol.vol).free| >= 4 ==> ok
  {
    after := [];
    var ret: int;
    SizeIs(vol.store.g, b);
    ret, before := FillPage(vol, ino, b);
    if ret < 0 { return false, before, after; }
    assert before == PageOf(vol.store.g, vol.vol, vol.store.pages, ino, vol.store.g.DataBlock(b));
    ok, after := WriteThenRead(vol, ino, a, page, b, before);
  }

  lemma FreedPages(g: Geometry, v: Volume, p: seq<seq<int>>, p': seq<seq<int>>, i: nat, j: nat, fc: nat)
    requires g.Valid() && Conserved(g, v) && i < |v.nodes| && v.nodes[i].kind != Free && j < |v.nodes| && j != i
    requires |p| == g.limit && Kept(p, p', Owned(v.nodes[i])) && fc < g.FileBlocks()
    ensures PageOf(g, FreeInode(g, v, i), p', j, fc) == PageOf(g, v, p, j, fc)
  {
    var b := BlockOf(g, v.nodes[j], fc);
    if b != 0 {
      BlockIsData(g, v, j, fc);
      BlockIsOwned(g, v.nodes[j], fc);
      if b in Owned(v.nodes[i]) { OwnedOnce(g, v, i, j, b); }
    }
  }

  /** s5_free_inode: the blocks go back to the free list, which may be threaded through them, and no page of another
      inode changes. */
  method FreeFile(vol: S5Volume, ino: nat)
    requires vol.Valid() && ino < |vol.inodes| && vol.inodes[ino].kind != Free
    modifies vol, vol.store, vol.store.freeBlocks
    ensures vol.Valid() && |vol.vol.nodes| == |old(vol.vol).nodes|
    ensures forall j: nat, fc: nat {:trigger PageOf(vol.store.g, vol.vol, vol.store.pages, j, fc)} ::
              j < |vol.vol.nodes| && fc < vol.store.g.FileBlocks() && j != ino ==>
                PageOf(vol.store.g, vol.vol, vol.store.pages, j, fc)
                == PageOf(vol.store.g, old(vol.vol), old(vol.store.pages), j, fc)
  {
    ghost var v, p := vol.vol, vol.store.pages;
    assert v.nodes[ino] == NodeOf(vol.inodes[ino], p);
    vol.FreeInode(ino);
    forall j: nat, fc: nat | j < |v.nodes| && fc < vol.store.g.FileBlocks() && j != ino
      ensures PageOf(vol.store.g, vol.vol, vol.store.pages, j, fc) == PageOf(vol.store.g, v, p, j, fc)
    {
      FreedPages(vol.store.g, v, p, vol.store.pages, ino, j, fc);
    }
  }

  lemma NewPages(g: Geometry, v: Volume, p: seq<seq<int>>, kind: Kind, dev: int)
    requires Conserved(g, v) && kind != Free
    ensures var (v', i) := AllocInode(g, v, kind, dev);
      && SamePages(g, v, p, v', p)
      && (i >= 0 ==> i < |v'.nodes| && forall fb: nat :: fb < g.FileBlocks() ==> PageOf(g, v', p, i, fb) == Zeros(g.words))
  {
    AllocInodeConserves(g, v, kind, dev);
    var (v', i) := AllocInode(g, v, kind, dev);
    if i >= 0 {
      forall fb: nat | fb < g.FileBlocks() ensures BlockOf(g, v.nodes[i], fb) == 0 {
        assert Owned(v.nodes[i]) == [];
        if BlockOf(g, v.nodes[i], fb) != 0 { BlockIsOwned(g, v.nodes[i], fb); }
      }
    }
  }

  /** s5_alloc_inode: a new file reads as zeros, and no page of any inode changes. */
  method NewFile(vol: S5Volume, kind: Kind, dev: int) returns (r: int)
    requires vol.Valid() && kind != Free
    modifies vol
    ensures vol.Valid() && SamePages(vol.store.g, old(vol.vol), vol.store.pages, vol.vol, vol.store.pages)
    ensures r >= 0 ==> r < |vol.vol.nodes| && forall fb: nat :: fb < vol.store.g.FileBlocks() ==>
              PageOf(vol.store.g, vol.vol, vol.store.pages, r, fb) == Zeros(vol.store.g.words)
  {
    NewPages(vol.store.g, vol.vol, vol.store.pages, kind, dev);
    r := vol.AllocInode(kind, dev);
  }
}
