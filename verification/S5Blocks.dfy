/**
  The S5 volume as block bookkeeping: a stack of free blocks, a stack of free
  inodes, and for each inode the blocks it maps.  Class S5Volume (S5Volume.dfy)
  implements these operations on the superblock slots and the device pages.
 */
module S5Blocks {
  import opened Errno

  datatype Kind = Free | Data | Dir | Chr | Blk

  /** slots: S5_NBLKS_PER_FNODE; direct: S5_NDIRECT_BLOCKS; words: words in a block, which is also
      S5_NIDIRECT_BLOCKS.  Data blocks are numbered first .. limit-1. */
  datatype Geometry = Geometry(slots: nat, direct: nat, words: nat, first: nat, limit: nat) {
    ghost predicate Valid() {
      1 <= slots <= words && 1 <= first <= limit
    }

    predicate InData(b: int) {
      first <= b < limit
    }

    /** S5_DATA_BLOCK: the file block a byte position falls into, a word being four bytes. */
    function DataBlock(seekptr: nat): (fb: nat)
      requires words > 0
      ensures InBlock(seekptr, fb)
    {
      var r := seekptr / (4 * words);
      assert r >= 0 && InBlock(seekptr, r) by { DivBounds(seekptr, 4 * words); }
      r
    }

    /** Byte seekptr is one of the 4 * words bytes of file block fb. */
    ghost predicate InBlock(seekptr: nat, fb: nat) {
      fb * (4 * words) <= seekptr < (fb + 1) * (4 * words)
    }

    function FileBlocks(): nat {
      direct + words
    }
  }

  lemma DivBounds(a: nat, b: nat)
    requires b > 0
    ensures a / b >= 0 && (a / b) * b <= a < (a / b + 1) * b
  {
    assert a == (a / b) * b + a % b;
    assert (a / b + 1) * b == (a / b) * b + b;
  }

  lemma MulOrder(a: nat, b: nat, k: nat)
    requires a < b
    ensures (a + 1) * k <= b * k
  {
    assert b * k == (a + 1) * k + (b - a - 1) * k;
  }

  /** A byte is in one file block only. */
  lemma OneBlock(g: Geometry, seekptr: nat, a: nat, b: nat)
    requires g.InBlock(seekptr, a) && g.InBlock(seekptr, b)
    ensures a == b
  {
    if a < b { MulOrder(a, b, 4 * g.words); }
    if b < a { MulOrder(b, a, 4 * g.words); }
  }

  /** The bytes of the first n file blocks are the first n blocks of bytes. */
  lemma BlocksBelow(g: Geometry, seekptr: nat, fb: nat, n: nat)
    requires g.InBlock(seekptr, fb)
    ensures fb < n <==> seekptr < n * (4 * g.words)
  {
    if fb < n { MulOrder(fb, n, 4 * g.words); }
    if n < fb { MulOrder(n, fb, 4 * g.words); }
  }

  /** An inode and, when it has one, the contents of its indirect block. */
  datatype Node = Node(kind: Kind, direct: seq<int>, indirect: int, table: seq<int>) {
    predicate HasBlocks() {
      kind == Data || kind == Dir
    }

    predicate Mapped() {
      HasBlocks() && indirect != 0
    }

    ghost predicate Shaped(g: Geometry) {
      |direct| == g.direct && |table| == if Mapped() then g.words else 0
    }
  }

  /** free and freeInodes are stacks with the top at the end. */
  datatype Volume = Volume(free: seq<int>, freeInodes: seq<nat>, nodes: seq<Node>)

  // ---------------------------------------------------------------- conservation

  /** How often x occurs in s. */
  ghost function Times(s: seq<int>, x: int): nat {
    if s == [] then 0 else (if s[0] == x then 1 else 0) + Times(s[1..], x)
  }

  function NonZero(s: seq<int>): seq<int> {
    if s == [] then []
    else if s[0] == 0 then NonZero(s[1..])
    else [s[0]] + NonZero(s[1..])
  }

  /** Every block an inode holds, in the order s5_free_inode gives them back. */
  function Owned(n: Node): seq<int> {
    NonZero(n.direct) + if n.Mapped() then NonZero(n.table) + [n.indirect] else []
  }

  /** How many times inodes hold block x. */
  ghost function Held(nodes: seq<Node>, x: int): nat {
    if nodes == [] then 0 else Times(Owned(nodes[0]), x) + Held(nodes[1..], x)
  }

  ghost predicate FreeInodesExact(v: Volume) {
    && (forall i, j :: 0 <= i < j < |v.freeInodes| ==> v.freeInodes[i] != v.freeInodes[j])
    && (forall k :: 0 <= k < |v.freeInodes| ==> v.freeInodes[k] < |v.nodes|)
    && (forall i {:trigger v.nodes[i]} :: 0 <= i < |v.nodes| ==> (v.nodes[i].kind == Free <==> i in v.freeInodes))
  }

  /** The data blocks are exactly, and once each, the free blocks and the blocks the inodes hold. */
  ghost predicate Conserved(g: Geometry, v: Volume) {
    && (forall i :: 0 <= i < |v.nodes| ==> v.nodes[i].Shaped(g))
    && (forall i :: 0 <= i < |v.nodes| && v.nodes[i].kind == Free ==> Owned(v.nodes[i]) == [])
    && FreeInodesExact(v)
    && (forall x {:trigger Held(v.nodes, x)} :: Times(v.free, x) + Held(v.nodes, x) == if g.InData(x) then 1 else 0)
  }

  // ---------------------------------------------------------------- operations

  function Zeros(n: nat): seq<int> {
    seq(n, _ => 0)
  }

  /** The disk block holding file block fb of an inode, 0 for a hole. */
  function BlockOf(g: Geometry, n: Node, fb: nat): int {
    if fb < g.direct then if fb < |n.direct| then n.direct[fb] else 0
    else if fb - g.direct < |n.table| then n.table[fb - g.direct]
    else 0
  }

  function Fill(g: Geometry, n: Node, fb: nat, b: int): Node {
    if fb < g.direct then if fb < |n.direct| then n.(direct := n.direct[fb := b]) else n
    else if fb - g.direct < |n.table| then n.(table := n.table[fb - g.direct := b])
    else n
  }

  function Top(v: Volume): int {
    if v.free == [] then 0 else v.free[|v.free| - 1]
  }

  /** Hand the top free block to inode i, which becomes n. */
  function GiveTop(v: Volume, i: nat, n: Node): Volume
    requires i < |v.nodes|
  {
    v.(free := if v.free == [] then [] else v.free[..|v.free| - 1], nodes := v.nodes[i := n])
  }

  /** Fill the hole at fb from the top of the free stack, when asked to and when there is a block. */
  function FillHole(g: Geometry, v: Volume, i: nat, fb: nat, alloc: bool): (r: (Volume, int))
    requires i < |v.nodes|
  {
    var b := BlockOf(g, v.nodes[i], fb);
    if b != 0 then (v, b)
    else if !alloc then (v, 0)
    else if v.free == [] then (v, -ENOSPC)
    else (GiveTop(v, i, Fill(g, v.nodes[i], fb, Top(v))), Top(v))
  }

  /** Give the inode a zeroed indirect block from the top of the free stack. */
  function AttachTable(g: Geometry, v: Volume, i: nat): Volume
    requires i < |v.nodes|
  {
    GiveTop(v, i, v.nodes[i].(indirect := Top(v), table := Zeros(g.words)))
  }

  /** s5_seek_to_block for file block fb of inode i. */
  function SeekToBlock(g: Geometry, v: Volume, i: nat, fb: nat, alloc: bool): (r: (Volume, int))
    requires i < |v.nodes|
  {
    if fb >= g.FileBlocks() then (v, -1)
    else if fb < g.direct || v.nodes[i].Mapped() then FillHole(g, v, i, fb, alloc)
    else if v.free == [] then (v, -ENOSPC)
    else FillHole(g, AttachTable(g, v, i), i, fb, alloc)
  }

  function AllocInode(g: Geometry, v: Volume, kind: Kind, dev: int): (r: (Volume, int))
    requires forall k :: 0 <= k < |v.freeInodes| ==> v.freeInodes[k] < |v.nodes|
  {
    if v.freeInodes == [] then (v, -ENOSPC)
    else
      var i := v.freeInodes[|v.freeInodes| - 1];
      var indirect := if kind == Chr || kind == Blk then dev else 0;
      (v.(freeInodes := v.freeInodes[..|v.freeInodes| - 1],
          nodes := v.nodes[i := Node(kind, Zeros(g.direct), indirect, [])]), i)
  }

  function FreeInode(g: Geometry, v: Volume, i: nat): Volume
    requires i < |v.nodes|
  {
    Volume(v.free + Owned(v.nodes[i]), v.freeInodes + [i], v.nodes[i := Node(Free, Zeros(g.direct), 0, [])])
  }

  // ---------------------------------------------------------------- counting

  lemma {:induction false} TimesAppend(s: seq<int>, t: seq<int>, x: int)
    ensures Times(s + t, x) == Times(s, x) + Times(t, x)
  {
    if s == [] {
      assert s + t == t;
    } else {
      assert (s + t)[1..] == s[1..] + t;
      TimesAppend(s[1..], t, x);
    }
  }

  lemma {:induction false} TimesIn(s: seq<int>, x: int)
    ensures Times(s, x) > 0 <==> x in s
  {
    if s != [] { TimesIn(s[1..], x); }
  }

  lemma {:induction false} TimesUpdate(s: seq<int>, k: nat, b: int, x: int)
    requires k < |s|
    ensures Times(s[k := b], x) + (if s[k] == x then 1 else 0) == Times(s, x) + if b == x then 1 else 0
  {
    if k == 0 {
      assert s[k := b][1..] == s[1..];
    } else {
      assert s[k := b][1..] == s[1..][k - 1 := b];
      TimesUpdate(s[1..], k - 1, b, x);
    }
  }

  lemma TimesSnoc(s: seq<int>, b: int, x: int)
    ensures Times(s + [b], x) == Times(s, x) + if b == x then 1 else 0
  {
    TimesAppend(s, [b], x);
  }

  lemma TwiceInSeq(s: seq<int>, p: nat, q: nat)
    requires p < q < |s| && s[p] == s[q]
    ensures Times(s, s[p]) >= 2
  {
    assert s == s[..q] + s[q..];
    TimesAppend(s[..q], s[q..], s[p]);
    TimesIn(s[..q], s[..q][p]);
    TimesIn(s[q..], s[q..][0]);
  }

  lemma {:induction false} NonZeroTimes(s: seq<int>, x: int)
    ensures Times(NonZero(s), x) == if x == 0 then 0 else Times(s, x)
  {
    if s != [] {
      NonZeroTimes(s[1..], x);
      if s[0] != 0 { assert NonZero(s)[1..] == NonZero(s[1..]); }
    }
  }

  lemma OwnedTimes(n: Node, x: int)
    ensures Times(Owned(n), x) == if x == 0 then 0 else
      Times(n.direct, x) + if n.Mapped() then Times(n.table, x) + (if x == n.indirect then 1 else 0) else 0
  {
    NonZeroTimes(n.direct, x);
    NonZeroTimes(n.table, x);
    if n.Mapped() {
      TimesSnoc(NonZero(n.table), n.indirect, x);
      TimesAppend(NonZero(n.direct), NonZero(n.table) + [n.indirect], x);
    } else {
      TimesAppend(NonZero(n.direct), [], x);
    }
  }

  lemma {:induction false} NonZeroZeros(n: nat)
    ensures NonZero(Zeros(n)) == []
  {
    if n > 0 {
      assert Zeros(n)[1..] == Zeros(n - 1);
      NonZeroZeros(n - 1);
    }
  }

  lemma {:induction false} HeldUpdate(nodes: seq<Node>, i: nat, n: Node, x: int)
    requires i < |nodes|
    ensures Held(nodes[i := n], x) + Times(Owned(nodes[i]), x) == Held(nodes, x) + Times(Owned(n), x)
  {
    if i == 0 {
      assert nodes[i := n][1..] == nodes[1..];
    } else {
      assert nodes[i := n][1..] == nodes[1..][i - 1 := n];
      HeldUpdate(nodes[1..], i - 1, n, x);
    }
  }

  lemma {:induction false} HeldContains(nodes: seq<Node>, i: nat, x: int)
    requires i < |nodes|
    ensures Times(Owned(nodes[i]), x) <= Held(nodes, x)
  {
    if i != 0 { HeldContains(nodes[1..], i - 1, x); }
  }

  lemma HeldContainsTwo(nodes: seq<Node>, i: nat, j: nat, x: int)
    requires i < |nodes| && j < |nodes| && i != j
    ensures Times(Owned(nodes[i]), x) + Times(Owned(nodes[j]), x) <= Held(nodes, x)
  {
    var none := Node(Free, [], 0, []);
    HeldUpdate(nodes, i, none, x);
    HeldContains(nodes[i := none], j, x);
  }

  lemma Once(g: Geometry, v: Volume, b: int)
    requires Conserved(g, v)
    ensures Times(v.free, b) + Held(v.nodes, b) == if g.InData(b) then 1 else 0
    ensures b in v.free <==> Times(v.free, b) > 0
  {
    TimesIn(v.free, b);
  }

  lemma TopIsData(g: Geometry, v: Volume)
    requires g.Valid() && Conserved(g, v) && v.free != []
    ensures g.InData(Top(v))
  {
    Once(g, v, Top(v));
  }

  lemma PopFree(v: Volume, i: nat, n: Node, x: int)
    requires v.free != [] && i < |v.nodes|
    ensures Times(v.free, x) == Times(GiveTop(v, i, n).free, x) + if x == Top(v) then 1 else 0
  {
    assert v.free == GiveTop(v, i, n).free + [Top(v)];
    TimesSnoc(GiveTop(v, i, n).free, Top(v), x);
  }

  // ---------------------------------------------------------------- conservation of every operation

  /** Changing one inode keeps conservation when what it gains is what the free stack loses. */
  lemma MoveConserves(g: Geometry, v: Volume, v': Volume, i: nat, n: Node)
    requires Conserved(g, v) && i < |v.nodes| && n.Shaped(g)
    requires v'.nodes == v.nodes[i := n] && FreeInodesExact(v')
    requires n.kind == Free ==> Owned(n) == []
    requires forall x :: Times(v'.free, x) + Times(Owned(n), x) == Times(v.free, x) + Times(Owned(v.nodes[i]), x)
    ensures Conserved(g, v')
  {
    forall x ensures Times(v'.free, x) + Held(v'.nodes, x) == if g.InData(x) then 1 else 0 {
      HeldUpdate(v.nodes, i, n, x);
      Once(g, v, x);
    }
  }

  /** n' holds block b on top of what n holds. */
  ghost predicate Gains(n: Node, n': Node, b: int) {
    forall x :: Times(Owned(n'), x) == Times(Owned(n), x) + if x == b then 1 else 0
  }

  lemma GiveTopConserves(g: Geometry, v: Volume, i: nat, n: Node)
    requires Conserved(g, v) && v.free != [] && i < |v.nodes| && v.nodes[i].kind != Free
    requires n.Shaped(g) && n.kind == v.nodes[i].kind
    requires Gains(v.nodes[i], n, Top(v))
    ensures Conserved(g, GiveTop(v, i, n))
  {
    var v' := GiveTop(v, i, n);
    forall x ensures Times(v'.free, x) + Times(Owned(n), x) == Times(v.free, x) + Times(Owned(v.nodes[i]), x) {
      PopFree(v, i, n, x);
    }
    MoveConserves(g, v, v', i, n);
  }

  lemma FillOwned(g: Geometry, n: Node, fb: nat, b: int)
    requires n.Shaped(g) && fb < g.FileBlocks() && (fb < g.direct || n.Mapped())
    requires BlockOf(g, n, fb) == 0 && b != 0
    ensures Fill(g, n, fb, b).Shaped(g) && Fill(g, n, fb, b).kind == n.kind
    ensures Gains(n, Fill(g, n, fb, b), b)
  {
    var n' := Fill(g, n, fb, b);
    forall x ensures Times(Owned(n'), x) == Times(Owned(n), x) + if x == b then 1 else 0 {
      OwnedTimes(n, x);
      OwnedTimes(n', x);
      if fb < g.direct {
        TimesUpdate(n.direct, fb, b, x);
      } else {
        TimesUpdate(n.table, fb - g.direct, b, x);
      }
    }
  }

  lemma FillHoleConserves(g: Geometry, v: Volume, i: nat, fb: nat, alloc: bool)
    requires g.Valid() && Conserved(g, v) && i < |v.nodes| && v.nodes[i].HasBlocks() && fb < g.FileBlocks()
    requires fb < g.direct || v.nodes[i].Mapped()
    ensures Conserved(g, FillHole(g, v, i, fb, alloc).0)
  {
    var n := v.nodes[i];
    if BlockOf(g, n, fb) == 0 && alloc && v.free != [] {
      TopIsData(g, v);
      FillOwned(g, n, fb, Top(v));
      GiveTopConserves(g, v, i, Fill(g, n, fb, Top(v)));
    }
  }

  lemma AttachTableConserves(g: Geometry, v: Volume, i: nat)
    requires g.Valid() && Conserved(g, v) && v.free != []
    requires i < |v.nodes| && v.nodes[i].HasBlocks() && !v.nodes[i].Mapped()
    ensures Conserved(g, AttachTable(g, v, i))
  {
    TopIsData(g, v);
    var n, n' := v.nodes[i], AttachTable(g, v, i).nodes[i];
    forall x ensures Times(Owned(n'), x) == Times(Owned(n), x) + if x == Top(v) then 1 else 0 {
      OwnedTimes(n, x);
      OwnedTimes(n', x);
      NonZeroZeros(g.words);
      NonZeroTimes(Zeros(g.words), x);
    }
    GiveTopConserves(g, v, i, n');
  }

  lemma ZeroNeverFree(g: Geometry, v: Volume)
    requires g.Valid() && Conserved(g, v)
    ensures 0 !in v.free
  {
    Once(g, v, 0);
  }

  /** Whatever the block asked for and however the search ends, s5_seek_to_block loses no block. */
  lemma SeekConserves(g: Geometry, v: Volume, i: nat, fb: nat, alloc: bool)
    requires g.Valid() && Conserved(g, v) && i < |v.nodes| && v.nodes[i].HasBlocks()
    ensures Conserved(g, SeekToBlock(g, v, i, fb, alloc).0)
  {
    ZeroNeverFree(g, v);
    if fb < g.FileBlocks() {
      if fb < g.direct || v.nodes[i].Mapped() {
        FillHoleConserves(g, v, i, fb, alloc);
      } else if v.free != [] {
        TopIsData(g, v);
        AttachTableConserves(g, v, i);
        FillHoleConserves(g, AttachTable(g, v, i), i, fb, alloc);
      }
    }
  }

  /** All inodes but i are as they were. */
  ghost predicate OnlyNode(v: Volume, v': Volume, i: nat) {
    |v'.nodes| == |v.nodes| && forall j :: 0 <= j < |v.nodes| && j != i ==> v'.nodes[j] == v.nodes[j]
  }

  /** A new inode was free, holds no block and maps none; no block changes hands, and no other inode changes. */
  lemma AllocInodeConserves(g: Geometry, v: Volume, kind: Kind, dev: int)
    requires Conserved(g, v) && kind != Free
    ensures Conserved(g, AllocInode(g, v, kind, dev).0)
    ensures AllocInode(g, v, kind, dev).1 < 0 <==> forall i :: 0 <= i < |v.nodes| ==> v.nodes[i].kind != Free
    ensures AllocInode(g, v, kind, dev).1 >= 0 ==>
      var (v', i) := AllocInode(g, v, kind, dev);
      && i < |v.nodes| && v.nodes[i].kind == Free && |v'.nodes| == |v.nodes| && v'.nodes[i].kind == kind
      && Owned(v'.nodes[i]) == [] && (forall fb: nat :: BlockOf(g, v'.nodes[i], fb) == 0)
      && v'.free == v.free && OnlyNode(v, v', i)
  {
    forall i | 0 <= i < |v.nodes| && v.freeInodes == [] ensures v.nodes[i].kind != Free {
      assert v.nodes[i].kind == Free <==> i in v.freeInodes;
    }
    if v.freeInodes != [] {
      var v' := AllocInode(g, v, kind, dev).0;
      var i := v.freeInodes[|v.freeInodes| - 1];
      NonZeroZeros(g.direct);
      assert Owned(v'.nodes[i]) == Owned(v.nodes[i]) == [];
      assert forall k: nat :: k < |v.nodes| && k != i && k in v.freeInodes ==> k in v'.freeInodes;
      assert FreeInodesExact(v');
      MoveConserves(g, v, v', i, v'.nodes[i]);
    }
  }

  /** Freeing an inode returns each of its blocks to the free stack, and nothing else. */
  lemma FreeInodeConserves(g: Geometry, v: Volume, i: nat)
    requires Conserved(g, v) && i < |v.nodes| && v.nodes[i].kind != Free
    ensures Conserved(g, FreeInode(g, v, i))
    ensures forall x :: Times(FreeInode(g, v, i).free, x) == Times(v.free, x) + Times(Owned(v.nodes[i]), x)
    ensures v.nodes[i].Mapped() ==> v.nodes[i].indirect in FreeInode(g, v, i).free
    ensures |FreeInode(g, v, i).nodes| == |v.nodes| && FreeInode(g, v, i).nodes[i].kind == Free
    ensures Owned(FreeInode(g, v, i).nodes[i]) == [] && OnlyNode(v, FreeInode(g, v, i), i)
  {
    var v' := FreeInode(g, v, i);
    assert v.nodes[i].Mapped() ==> Owned(v.nodes[i])[|Owned(v.nodes[i])| - 1] == v.nodes[i].indirect;
    NonZeroZeros(g.direct);
    assert forall k :: 0 <= k < |v.freeInodes| ==> v'.freeInodes[k] == v.freeInodes[k];
    forall x ensures Times(v'.free, x) == Times(v.free, x) + Times(Owned(v.nodes[i]), x) {
      TimesAppend(v.free, Owned(v.nodes[i]), x);
    }
    MoveConserves(g, v, v', i, v'.nodes[i]);
  }

  /** The inode taken is the one that was freed last, and a special file keeps its device number in it. */
  lemma NewInodeIs(g: Geometry, v: Volume, kind: Kind, dev: int)
    requires forall k :: 0 <= k < |v.freeInodes| ==> v.freeInodes[k] < |v.nodes|
    ensures AllocInode(g, v, kind, dev).1 >= 0 ==>
      var (v', i) := AllocInode(g, v, kind, dev);
      && i < |v'.nodes| && v'.nodes[i].indirect == (if kind == Chr || kind == Blk then dev else 0)
      && v.freeInodes == v'.freeInodes + [i as nat]
    ensures AllocInode(g, v, kind, dev).1 < 0 ==> AllocInode(g, v, kind, dev) == (v, -ENOSPC) && v.freeInodes == []
  {
  }

  /** An inode just freed is the next one taken. */
  lemma OldInodeIs(g: Geometry, v: Volume, i: nat, kind: Kind, dev: int)
    requires i < |v.nodes| && forall k :: 0 <= k < |v.freeInodes| ==> v.freeInodes[k] < |v.nodes|
    ensures forall k :: 0 <= k < |FreeInode(g, v, i).freeInodes| ==> FreeInode(g, v, i).freeInodes[k] < |v.nodes|
    ensures AllocInode(g, FreeInode(g, v, i), kind, dev).1 == i
  {
  }

  // ---------------------------------------------------------------- what conservation means

  /** No block is free and used at once. */
  lemma FreeIsNotOwned(g: Geometry, v: Volume, i: nat, b: int)
    requires Conserved(g, v) && i < |v.nodes| && b in v.free
    ensures g.InData(b) && b !in Owned(v.nodes[i])
  {
    HeldContains(v.nodes, i, b);
    Once(g, v, b);
    TimesIn(Owned(v.nodes[i]), b);
  }

  /** No block belongs to two inodes, or to one inode in two roles. */
  lemma OwnedOnce(g: Geometry, v: Volume, i: nat, j: nat, b: int)
    requires Conserved(g, v) && i < |v.nodes| && j < |v.nodes|
    requires b in Owned(v.nodes[i]) && b in Owned(v.nodes[j])
    ensures i == j && g.InData(b) && Times(Owned(v.nodes[i]), b) == 1
  {
    Once(g, v, b);
    HeldContains(v.nodes, i, b);
    TimesIn(Owned(v.nodes[i]), b);
    TimesIn(Owned(v.nodes[j]), b);
    if i != j { HeldContainsTwo(v.nodes, i, j, b); }
  }

  /** No block is lost: a data block that is not free is held by some inode. */
  lemma NoneLost(g: Geometry, v: Volume, b: int) returns (i: nat)
    requires Conserved(g, v) && g.InData(b) && b !in v.free
    ensures i < |v.nodes| && b in Owned(v.nodes[i])
  {
    Once(g, v, b);
    i := Holder(v.nodes, b);
  }

  lemma {:induction false} Holder(nodes: seq<Node>, b: int) returns (i: nat)
    requires Held(nodes, b) > 0
    ensures i < |nodes| && b in Owned(nodes[i])
  {
    TimesIn(Owned(nodes[0]), b);
    if b in Owned(nodes[0]) {
      i := 0;
    } else {
      i := Holder(nodes[1..], b);
      i := i + 1;
    }
  }

  // ---------------------------------------------------------------- the file block map

  /** Blocks s5_seek_to_block must take: one for the hole if asked to fill it, and one for a missing
      indirect block whether or not it was asked to allocate. */
  function Needed(g: Geometry, n: Node, fb: nat, alloc: bool): nat
  {
    (if alloc && BlockOf(g, n, fb) == 0 then 1 else 0) + if fb >= g.direct && !n.Mapped() then 1 else 0
  }

  /** Same inodes, same types, and the same disk block for every file block but block fb of inode i. */
  ghost predicate OthersKept(g: Geometry, v: Volume, v': Volume, i: nat, fb: nat) {
    && |v'.nodes| == |v.nodes| && v'.freeInodes == v.freeInodes
    && (forall j :: 0 <= j < |v.nodes| ==> v.nodes[j].Shaped(g) && v'.nodes[j].Shaped(g))
    && (forall j :: 0 <= j < |v.nodes| ==> v'.nodes[j].kind == v.nodes[j].kind)
    && (forall j: nat, fc: nat :: j < |v.nodes| && fc < g.FileBlocks() && (j, fc) != (i, fb)
          ==> BlockOf(g, v'.nodes[j], fc) == BlockOf(g, v.nodes[j], fc))
  }

  lemma SeekKeepsOthers(g: Geometry, v: Volume, i: nat, fb: nat, alloc: bool)
    requires g.Valid() && Conserved(g, v) && i < |v.nodes| && v.nodes[i].HasBlocks()
    ensures OthersKept(g, v, SeekToBlock(g, v, i, fb, alloc).0, i, fb)
  {
    ZeroNeverFree(g, v);
  }

  /** The search answers -1 beyond the last file block.  Within the file it takes from the top of the
      free stack, reports "no space" exactly when that is too short, and otherwise answers the block
      that afterwards holds fb: the one already there, or one that was free. */
  lemma SeekOutcome(g: Geometry, v: Volume, i: nat, fb: nat, alloc: bool)
    requires g.Valid() && Conserved(g, v) && i < |v.nodes| && v.nodes[i].HasBlocks()
    ensures var (v', r) := SeekToBlock(g, v, i, fb, alloc);
      fb >= g.FileBlocks() ==> r == -1 && v' == v
    ensures fb < g.FileBlocks() ==>
      var (v', r) := SeekToBlock(g, v, i, fb, alloc);
      var need := Needed(g, v.nodes[i], fb, alloc);
      && v'.free == v.free[..if need <= |v.free| then |v.free| - need else 0]
      && (r == -ENOSPC <==> |v.free| < need)
      && (need <= |v.free| ==> i < |v'.nodes| && v'.nodes[i].Shaped(g) && r == BlockOf(g, v'.nodes[i], fb))
      && (need <= |v.free| && BlockOf(g, v.nodes[i], fb) != 0 ==> r == BlockOf(g, v.nodes[i], fb) > 0)
      && (need <= |v.free| && BlockOf(g, v.nodes[i], fb) == 0 ==> if alloc then r > 0 && r in v.free else r == 0)
  {
    ZeroNeverFree(g, v);
    FreeIsData(g, v);
    assert |v.free| >= 1 ==> g.InData(v.free[|v.free| - 1]);
    assert |v.free| >= 2 ==> g.InData(v.free[|v.free| - 2]);
    if fb < g.FileBlocks() && BlockOf(g, v.nodes[i], fb) != 0 {
      BlockIsData(g, v, i, fb);
    }
  }

  lemma FreeIsData(g: Geometry, v: Volume)
    requires Conserved(g, v)
    ensures forall b :: b in v.free ==> g.InData(b)
    ensures forall k :: 0 <= k < |v.free| ==> g.InData(v.free[k])
  {
    forall b | b in v.free ensures g.InData(b) {
      Once(g, v, b);
    }
  }

  lemma BlockIsData(g: Geometry, v: Volume, i: nat, fb: nat)
    requires Conserved(g, v) && i < |v.nodes| && fb < g.FileBlocks() && BlockOf(g, v.nodes[i], fb) != 0
    ensures g.InData(BlockOf(g, v.nodes[i], fb))
  {
    var b := BlockOf(g, v.nodes[i], fb);
    BlockIsOwned(g, v.nodes[i], fb);
    TimesIn(Owned(v.nodes[i]), b);
    HeldContains(v.nodes, i, b);
    Once(g, v, b);
  }

  lemma BlockIsOwned(g: Geometry, n: Node, fb: nat)
    requires n.Shaped(g) && fb < g.FileBlocks() && BlockOf(g, n, fb) != 0
    ensures BlockOf(g, n, fb) in Owned(n)
  {
    var b := BlockOf(g, n, fb);
    OwnedTimes(n, b);
    TimesIn(n.direct, b);
    TimesIn(n.table, b);
    TimesIn(Owned(n), b);
  }

  /** A search that found or made a block finds it again and changes nothing more. */
  lemma SeekAgain(g: Geometry, v: Volume, i: nat, fb: nat, alloc: bool, again: bool)
    requires g.Valid() && Conserved(g, v) && i < |v.nodes| && v.nodes[i].HasBlocks()
    requires SeekToBlock(g, v, i, fb, alloc).1 > 0
    ensures var (v', r) := SeekToBlock(g, v, i, fb, alloc);
      |v'.nodes| == |v.nodes| && SeekToBlock(g, v', i, fb, again) == (v', r)
  {
    SeekOutcome(g, v, i, fb, alloc);
    SeekConserves(g, v, i, fb, alloc);
    ZeroNeverFree(g, SeekToBlock(g, v, i, fb, alloc).0);
  }

  /** Two file blocks are never stored in one disk block. */
  lemma FileBlocksDisjoint(g: Geometry, v: Volume, i: nat, fb: nat, j: nat, fc: nat)
    requires g.Valid() && Conserved(g, v) && i < |v.nodes| && j < |v.nodes|
    requires fb < g.FileBlocks() && fc < g.FileBlocks() && (i, fb) != (j, fc)
    requires BlockOf(g, v.nodes[i], fb) != 0
    ensures BlockOf(g, v.nodes[i], fb) != BlockOf(g, v.nodes[j], fc)
  {
    var b := BlockOf(g, v.nodes[i], fb);
    if b == BlockOf(g, v.nodes[j], fc) {
      BlockIsOwned(g, v.nodes[i], fb);
      BlockIsOwned(g, v.nodes[j], fc);
      OwnedOnce(g, v, i, j, b);
      TwiceInNode(g, v.nodes[i], fb, fc);
    }
  }

  lemma TwiceInNode(g: Geometry, n: Node, fb: nat, fc: nat)
    requires n.Shaped(g) && fb < g.FileBlocks() && fc < g.FileBlocks() && fb != fc
    requires BlockOf(g, n, fb) == BlockOf(g, n, fc) != 0
    ensures Times(Owned(n), BlockOf(g, n, fb)) >= 2
  {
    var b := BlockOf(g, n, fb);
    OwnedTimes(n, b);
    var lo, hi := if fb < fc then fb else fc, if fb < fc then fc else fb;
    if hi < g.direct {
      TwiceInSeq(n.direct, lo, hi);
    } else if lo >= g.direct {
      TwiceInSeq(n.table, lo - g.direct, hi - g.direct);
    } else {
      TimesIn(n.direct, b);
      TimesIn(n.table, b);
    }
  }

  /** Asked not to allocate, s5_seek_to_block still takes a block for a missing indirect block:
      it leaves the volume alone exactly when it does not get as far as that. */
  lemma LookupIsReadOnlyIff(g: Geometry, v: Volume, i: nat, fb: nat)
    requires Conserved(g, v) && i < |v.nodes| && v.nodes[i].HasBlocks()
    ensures SeekToBlock(g, v, i, fb, false).0 == v
      <==> !(g.direct <= fb < g.FileBlocks() && !v.nodes[i].Mapped() && v.free != [])
  {
  }

  /** One data block, free, and an empty file: looking up the first indirect file block takes it. */
  lemma LookupMayTakeABlock()
    ensures var g := Geometry(1, 1, 1, 1, 2);
      var v := Volume([1], [], [Node(Data, [0], 0, [])]);
      Conserved(g, v) && SeekToBlock(g, v, 0, 1, false) == (Volume([], [], [Node(Data, [0], 1, [0])]), 0)
  {
    var g := Geometry(1, 1, 1, 1, 2);
    var n := Node(Data, [0], 0, []);
    var v := Volume([1], [], [n]);
    assert Owned(n) == [];
    forall x ensures Times(v.free, x) + Held(v.nodes, x) == if g.InData(x) then 1 else 0 {
      assert Times(v.free[1..], x) == 0 && Held(v.nodes[1..], x) == 0;
    }
    assert Zeros(1) == [0];
    assert AttachTable(g, v, 0) == Volume([], [], [Node(Data, [0], 1, [0])]) by {
      assert v.free[..0] == [];
    }
  }

  // ---------------------------------------------------------------- runs

  datatype Op = Seek(i: nat, fb: nat, alloc: bool) | NewInode(kind: Kind, dev: int) | DropInode(i: nat)

  /** Blocks are sought in files and directories only; an inode is created with a real type and freed once. */
  ghost predicate Enabled(g: Geometry, v: Volume, op: Op) {
    match op
    case Seek(i, _, _) => i < |v.nodes| && v.nodes[i].HasBlocks()
    case NewInode(kind, _) => kind != Free && forall k :: 0 <= k < |v.freeInodes| ==> v.freeInodes[k] < |v.nodes|
    case DropInode(i) => i < |v.nodes| && v.nodes[i].kind != Free
  }

  ghost function Apply(g: Geometry, v: Volume, op: Op): Volume
    requires Enabled(g, v, op)
  {
    match op
    case Seek(i, fb, alloc) => SeekToBlock(g, v, i, fb, alloc).0
    case NewInode(kind, dev) => AllocInode(g, v, kind, dev).0
    case DropInode(i) => FreeInode(g, v, i)
  }

  /** ops takes v to v', each operation being enabled where it starts. */
  ghost predicate Run(g: Geometry, v: Volume, ops: seq<Op>, v': Volume)
    decreases |ops|
  {
    if ops == [] then v' == v
    else Enabled(g, v, ops[0]) && Run(g, Apply(g, v, ops[0]), ops[1..], v')
  }

  /** Over every run the data blocks stay the disjoint union of the free and the held ones. */
  lemma {:induction false} RunConserves(g: Geometry, v: Volume, ops: seq<Op>, v': Volume)
    requires g.Valid() && Conserved(g, v) && Run(g, v, ops, v')
    ensures Conserved(g, v')
    decreases |ops|
  {
    if ops != [] {
      match ops[0] {
        case Seek(i, fb, alloc) => SeekConserves(g, v, i, fb, alloc);
        case NewInode(kind, dev) => AllocInodeConserves(g, v, kind, dev);
        case DropInode(i) => FreeInodeConserves(g, v, i);
      }
      RunConserves(g, Apply(g, v, ops[0]), ops[1..], v');
    }
  }

  /** After any run, a search reports "no space" only if afterwards every data block is held by an inode. */
  lemma NoSpaceMeansFull(g: Geometry, v: Volume, ops: seq<Op>, v': Volume, i: nat, fb: nat, b: int)
      returns (holder: nat)
    requires g.Valid() && Conserved(g, v) && Run(g, v, ops, v')
    requires i < |v'.nodes| && v'.nodes[i].HasBlocks()
    requires SeekToBlock(g, v', i, fb, true).1 == -ENOSPC && g.InData(b)
    ensures var full := SeekToBlock(g, v', i, fb, true).0;
      holder < |full.nodes| && b in Owned(full.nodes[holder])
  {
    RunConserves(g, v, ops, v');
    SeekConserves(g, v', i, fb, true);
    SeekOutcome(g, v', i, fb, true);
    holder := NoneLost(g, SeekToBlock(g, v', i, fb, true).0, b);
  }
}
