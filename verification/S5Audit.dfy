/**
  The audit of link counts at unmount: a depth-first walk from the root that counts, for every inode, the
  entries naming it.
 */
module S5Audit {
  import opened S5Links
  import opened S5FsImpl

  datatype Rec = Rec(name: string, ino: nat)

  /** The records of every directory, in the order they are stored in. */
  type Listing = map<nat, seq<Rec>>

  ghost predicate WellFormed(ls: Listing, n: nat) {
    forall d {:trigger d in ls} :: d in ls ==> d < n && forall j :: 0 <= j < |ls[d]| ==> ls[d][j].ino < n
  }

  /** How many records other than "." name i. */
  function Mult(es: seq<Rec>, i: nat): nat {
    if es == [] then 0
    else Mult(es[..|es| - 1], i) + if es[|es| - 1].name != "." && es[|es| - 1].ino == i then 1 else 0
  }

  // ---------------------------------------------------------------- what one walk adds to the counts

  /** d is a directory first seen between the counts a and b. */
  ghost predicate New(ls: Listing, a: seq<int>, b: seq<int>, d: nat) {
    d in ls && d < |a| && d < |b| && a[d] == 0 && b[d] != 0
  }

  /** What the directories below k that are new between a and b add to the count of i. */
  ghost function Owed(ls: Listing, k: nat, a: seq<int>, b: seq<int>, i: nat): nat {
    if k == 0 then 0 else Owed(ls, k - 1, a, b, i) + if New(ls, a, b, k - 1) then Mult(ls[k - 1], i) else 0
  }

  ghost predicate Counts(a: seq<int>, n: nat) {
    |a| == n && forall i :: 0 <= i < n ==> a[i] >= 0
  }

  /** A walk from v turned the counts a into b. */
  ghost predicate Walked(ls: Listing, a: seq<int>, b: seq<int>, v: nat) {
    |a| == |b| && forall i: nat {:trigger b[i]} :: i < |a| ==> b[i] == a[i] + (if i == v then 1 else 0) + Owed(ls, |a|, a, b, i)
  }

  /** Walks from all that the records es name did. */
  ghost predicate WalkedAll(ls: Listing, a: seq<int>, b: seq<int>, es: seq<Rec>) {
    |a| == |b| && forall i: nat {:trigger b[i]} :: i < |a| ==> b[i] == a[i] + Mult(es, i) + Owed(ls, |a|, a, b, i)
  }

  ghost predicate AllSeen(es: seq<Rec>, b: seq<int>) {
    forall j :: 0 <= j < |es| && es[j].name != "." ==> es[j].ino < |b| && b[es[j].ino] > 0
  }

  ghost predicate ChildrenSeen(ls: Listing, a: seq<int>, b: seq<int>) {
    forall d {:trigger New(ls, a, b, d)} :: New(ls, a, b, d) ==> AllSeen(ls[d], b)
  }

  ghost predicate Within(a: seq<int>, b: seq<int>, c: set<nat>) {
    |a| == |b| && forall i: nat {:trigger b[i]} :: i < |a| && a[i] == 0 && b[i] != 0 ==> i in c
  }

  /** c holds everything the directories in c name. */
  ghost predicate Closed(ls: Listing, c: set<nat>) {
    forall d, j {:trigger ls[d][j]} :: d in c && d in ls && 0 <= j < |ls[d]| && ls[d][j].name != "." ==> ls[d][j].ino in c
  }

  ghost function Unseen(a: seq<int>): set<nat> {
    set i: nat | i < |a| && a[i] == 0
  }

  lemma {:induction false} OwedSplit(ls: Listing, k: nat, a: seq<int>, b: seq<int>, c: seq<int>, i: nat)
    requires |a| == |b| == |c| && forall d: nat :: d < |a| && b[d] == 0 ==> a[d] == 0
    requires forall d: nat :: d < |a| && c[d] == 0 ==> b[d] == 0
    ensures Owed(ls, k, a, c, i) == Owed(ls, k, a, b, i) + Owed(ls, k, b, c, i)
  {
    if k != 0 { OwedSplit(ls, k - 1, a, b, c, i); }
  }

  lemma {:induction false} OwedNone(ls: Listing, k: nat, a: seq<int>, b: seq<int>, i: nat)
    requires forall d: nat {:trigger New(ls, a, b, d)} :: d < k ==> !New(ls, a, b, d)
    ensures Owed(ls, k, a, b, i) == 0
  {
    if k != 0 {
      OwedNone(ls, k - 1, a, b, i);
      assert !New(ls, a, b, k - 1);
    }
  }

  /** The directory v itself is new as well once its count is no longer 0. */
  lemma {:induction false} OwedFirst(ls: Listing, k: nat, a: seq<int>, b: seq<int>, v: nat, i: nat)
    requires |a| == |b| && v < |a| && a[v] == 0 && b[v] != 0 && v in ls
    ensures Owed(ls, k, a, b, i) == Owed(ls, k, a[v := 1], b, i) + if v < k then Mult(ls[v], i) else 0
  {
    if k != 0 { OwedFirst(ls, k - 1, a, b, v, i); }
  }

  lemma WalkedGrows(ls: Listing, a: seq<int>, b: seq<int>, v: nat)
    requires Walked(ls, a, b, v) && Counts(a, |a|)
    ensures Counts(b, |a|) && forall i: nat :: i < |a| ==> b[i] >= a[i]
  {
    forall i: nat | i < |a| ensures b[i] >= a[i] {
    }
  }

  /** One more record: the walks so far turned a into b, and the walk for record k turns b into c. */
  lemma NextRecord(ls: Listing, a: seq<int>, b: seq<int>, c: seq<int>, es: seq<Rec>, k: nat)
    requires k < |es| && es[k].name != "." && WalkedAll(ls, a, b, es[..k]) && Counts(a, |a|)
    requires Walked(ls, b, c, es[k].ino)
    ensures WalkedAll(ls, a, c, es[..k + 1])
    ensures Counts(c, |a|) && forall i: nat :: i < |a| ==> c[i] >= b[i] >= a[i]
  {
    assert es[..k + 1][..k] == es[..k];
    forall i: nat | i < |a| ensures b[i] >= a[i] {
    }
    WalkedGrows(ls, b, c, es[k].ino);
    forall i: nat | i < |a| ensures c[i] == a[i] + Mult(es[..k + 1], i) + Owed(ls, |a|, a, c, i) {
      OwedSplit(ls, |a|, a, b, c, i);
    }
  }

  lemma ChildrenNext(ls: Listing, a: seq<int>, b: seq<int>, c: seq<int>)
    requires |a| == |b| == |c| && (forall i: nat :: i < |a| ==> c[i] >= b[i] >= a[i] >= 0)
    requires ChildrenSeen(ls, a, b) && ChildrenSeen(ls, b, c)
    ensures ChildrenSeen(ls, a, c)
  {
    forall d | New(ls, a, c, d) ensures AllSeen(ls[d], c) {
      if New(ls, a, b, d) {
        assert AllSeen(ls[d], b);
      } else {
        assert New(ls, b, c, d);
      }
    }
  }

  lemma AllRecords(ls: Listing, a: seq<int>, b: seq<int>, v: nat)
    requires v < |a| && v in ls && a[v] == 0 && Counts(a, |a|)
    requires WalkedAll(ls, a[v := 1], b, ls[v])
    ensures Walked(ls, a, b, v)
  {
    forall i: nat | i < |a| ensures b[i] == a[i] + (if i == v then 1 else 0) + Owed(ls, |a|, a, b, i) {
      OwedFirst(ls, |a|, a, b, v, i);
    }
  }

  lemma NothingNew(ls: Listing, a: seq<int>, v: nat)
    requires v < |a| && Counts(a, |a|) && (a[v] > 0 || v !in ls)
    ensures Walked(ls, a, a[v := a[v] + 1], v) && ChildrenSeen(ls, a, a[v := a[v] + 1])
  {
    var b := a[v := a[v] + 1];
    forall i: nat | i < |a| ensures Owed(ls, |a|, a, b, i) == 0 {
      OwedNone(ls, |a|, a, b, i);
    }
  }

  /** The walks for the records es turned a into b; c is a closed set they stay in. */
  ghost predicate Progress(ls: Listing, a: seq<int>, b: seq<int>, es: seq<Rec>, c: set<nat>) {
    && WalkedAll(ls, a, b, es) && (forall i: nat :: i < |a| ==> b[i] >= a[i] >= 0)
    && ChildrenSeen(ls, a, b) && AllSeen(es, b) && Within(a, b, c)
  }

  lemma ProgressStart(ls: Listing, a: seq<int>, c: set<nat>)
    requires Counts(a, |a|)
    ensures Progress(ls, a, a, [], c)
  {
    forall i: nat | i < |a| ensures a[i] == a[i] + Mult([], i) + Owed(ls, |a|, a, a, i) {
      OwedNone(ls, |a|, a, a, i);
    }
  }

  lemma ProgressNext(ls: Listing, a: seq<int>, b: seq<int>, b': seq<int>, es: seq<Rec>, k: nat, c: set<nat>)
    requires k < |es| && Progress(ls, a, b, es[..k], c)
    requires if es[k].name == "." then b' == b
             else Walked(ls, b, b', es[k].ino) && ChildrenSeen(ls, b, b') && Within(b, b', c) && es[k].ino < |b|
    ensures Progress(ls, a, b', es[..k + 1], c)
  {
    assert es[..k + 1][..k] == es[..k];
    if es[k].name != "." {
      NextRecord(ls, a, b, b', es, k);
      ChildrenNext(ls, a, b, b');
      assert b'[es[k].ino] > 0;
    } else {
      assert forall i: nat :: Mult(es[..k + 1], i) == Mult(es[..k], i);
    }
  }

  lemma ProgressDone(ls: Listing, a: seq<int>, b: seq<int>, v: nat, c: set<nat>)
    requires v < |a| && v in ls && a[v] == 0 && Counts(a, |a|) && v in c
    requires Progress(ls, a[v := 1], b, ls[v], c)
    ensures Counts(b, |a|) && Walked(ls, a, b, v) && ChildrenSeen(ls, a, b) && Within(a, b, c)
  {
    AllRecords(ls, a, b, v);
    forall d | New(ls, a, b, d) ensures AllSeen(ls[d], b) {
      if d != v { assert New(ls, a[v := 1], b, d); }
    }
  }

  // ---------------------------------------------------------------- what the walk does to the file system

  /** Reading the vnode of i in and giving it up again does not free i. */
  ghost predicate Anchored(fs: Fs, i: nat) {
    i in fs.inodes && (Stored(fs, i) > 0 || RefsOf(fs, i) > 0)
  }

  ghost predicate SameInode(fs: Fs, fs': Fs, i: nat) {
    && (i in fs.inodes <==> i in fs'.inodes) && KindOf(fs', i) == KindOf(fs, i)
    && Stored(fs', i) == Stored(fs, i) && RefsOf(fs', i) == RefsOf(fs, i)
  }

  /** What becomes of i when the inodes in hit are visited: it is freed if nothing anchors it, and else as before. */
  ghost predicate Fate(fs: Fs, fs': Fs, hit: set<nat>, i: nat) {
    if i in hit && !Anchored(fs, i) then i !in fs'.inodes && i !in fs'.vnodes else SameInode(fs, fs', i)
  }

  /** Nothing changed but what the visits of the inodes in hit, all of them in c, do. */
  ghost predicate Left(fs: Fs, fs': Fs, c: set<nat>, hit: set<nat>) {
    && fs'.root == fs.root && hit <= c && hit <= fs.inodes.Keys
    && (forall i {:trigger Fate(fs, fs', hit, i)} :: Fate(fs, fs', hit, i))
    && (forall i: nat :: i !in c ==> (i in fs'.vnodes <==> i in fs.vnodes))
    && (AllAnchored(fs, hit) ==> fs'.dirs == fs.dirs && fs'.free == fs.free)
  }

  ghost predicate AllAnchored(fs: Fs, c: set<nat>) {
    forall i {:trigger i in c} :: i in c ==> Anchored(fs, i)
  }

  /** Vnodes in memory belong to allocated inodes, and the directories in c are those that are listed. */
  ghost predicate Readable(fs: Fs, ls: Listing, c: set<nat>) {
    && (forall i {:trigger i in fs.vnodes} :: i in fs.vnodes ==> i in fs.inodes)
    && (forall i {:trigger i in c} :: i in c && i in fs.inodes ==> (i in ls <==> fs.inodes[i].kind == Dir))
  }

  lemma LeftItself(fs: Fs, c: set<nat>)
    ensures Left(fs, fs, c, {})
  {
  }

  /** What somebody holds survives a visit. */
  lemma LeftHeld(fs: Fs, c: set<nat>, v: nat)
    requires v in c && v in fs.inodes && RefsOf(fs, v) > 0
    ensures Left(fs, fs, c, {v})
  {
  }

  lemma LeftTwice(fs: Fs, fs1: Fs, fs2: Fs, c: set<nat>, h1: set<nat>, h2: set<nat>)
    requires Left(fs, fs1, c, h1) && Left(fs1, fs2, c, h2)
    ensures Left(fs, fs2, c, h1 + h2)
  {
    forall i ensures Fate(fs, fs2, h1 + h2, i) {
      assert Fate(fs, fs1, h1, i) && Fate(fs1, fs2, h2, i);
    }
    forall i | i in h2 ensures i in fs.inodes {
      assert Fate(fs, fs1, h1, i);
    }
    if AllAnchored(fs, h1 + h2) {
      forall i | i in h2 ensures Anchored(fs1, i) {
        assert i in h1 + h2 && Fate(fs, fs1, h1, i);
      }
      assert AllAnchored(fs, h1);
    }
  }

  /** Visits of what is anchored only move vnodes into memory and out of it. */
  ghost predicate SameStored(fs: Fs, fs': Fs, c: set<nat>) {
    && fs'.root == fs.root && fs'.dirs == fs.dirs && fs'.free == fs.free
    && (forall i {:trigger SameInode(fs, fs', i)} :: SameInode(fs, fs', i))
    && (forall i: nat :: i !in c ==> (i in fs'.vnodes <==> i in fs.vnodes))
  }

  lemma SameStoredItself(fs: Fs, c: set<nat>)
    ensures SameStored(fs, fs, c)
  {
  }

  lemma SameStoredTwice(fs: Fs, fs1: Fs, fs2: Fs, c: set<nat>)
    requires SameStored(fs, fs1, c) && SameStored(fs1, fs2, c)
    ensures SameStored(fs, fs2, c)
  {
    forall i ensures SameInode(fs, fs2, i) {
      assert SameInode(fs, fs1, i) && SameInode(fs1, fs2, i);
    }
  }

  lemma LeftIsSame(fs: Fs, fs': Fs, c: set<nat>, hit: set<nat>)
    requires Left(fs, fs', c, hit) && AllAnchored(fs, hit)
    ensures SameStored(fs, fs', c)
  {
    forall i ensures SameInode(fs, fs', i) {
      assert Fate(fs, fs', hit, i);
      if i in hit { assert Anchored(fs, i); }
    }
  }

  lemma LeftReadable(fs: Fs, fs': Fs, ls: Listing, c: set<nat>, hit: set<nat>)
    requires Left(fs, fs', c, hit) && Readable(fs, ls, c)
    ensures Readable(fs', ls, c)
  {
    forall i | i in fs'.vnodes ensures i in fs'.inodes {
      assert Fate(fs, fs', hit, i);
    }
    forall i | i in c && i in fs'.inodes ensures i in ls <==> fs'.inodes[i].kind == Dir {
      assert Fate(fs, fs', hit, i);
    }
  }

  /** What is not anchored after some visits was not anchored before. */
  lemma AnchoredBefore(fs: Fs, fs': Fs, c: set<nat>, hit: set<nat>, i: nat)
    requires Left(fs, fs', c, hit) && Anchored(fs, i)
    ensures Anchored(fs', i)
  {
    assert Fate(fs, fs', hit, i);
  }

  lemma AllAnchoredBefore(fs: Fs, fs': Fs, c: set<nat>, hit: set<nat>)
    requires Left(fs, fs', c, hit) && AllAnchored(fs, c)
    ensures AllAnchored(fs', c)
  {
    forall i | i in c ensures Anchored(fs', i) { AnchoredBefore(fs, fs', c, hit, i); }
  }

  lemma GotIs(fs: Fs, i: nat, j: nat)
    requires i in fs.inodes
    ensures i in GetVnode(fs, i).inodes && RefsOf(GetVnode(fs, i), i) == RefsOf(fs, i) + 1
    ensures Stored(GetVnode(fs, i), j) == Stored(fs, j) && i in GetVnode(fs, i).vnodes
    ensures j != i ==> SameInode(fs, GetVnode(fs, i), j) && (j in GetVnode(fs, i).vnodes <==> j in fs.vnodes)
    ensures KindOf(GetVnode(fs, i), j) == KindOf(fs, j)
  {
  }

  lemma GotReadable(fs: Fs, ls: Listing, c: set<nat>, i: nat)
    requires Readable(fs, ls, c) && i in fs.inodes
    ensures Readable(GetVnode(fs, i), ls, c)
  {
  }

  /** Giving a vnode up without tripping the assertion that the link count does not become negative. */
  ghost predicate Puttable(fs: Fs, i: nat) {
    i in fs.inodes && RefsOf(fs, i) > 0 && (RefsOf(fs, i) == 1 ==> LinksOf(fs, i) > 0)
  }

  /** What becomes of i itself: fs1 is the state before it is given up. */
  lemma PutFate(fs: Fs, fs1: Fs, i: nat, paged: bool, hit: set<nat>)
    requires i in fs.inodes && SameInode(GetVnode(fs, i), fs1, i) && Puttable(fs1, i) && i in hit
    ensures Fate(fs, PutVnode(fs1, i, paged), hit, i)
  {
    GotIs(fs, i, i);
  }

  lemma PutOthers(fs1: Fs, i: nat, paged: bool, j: nat)
    requires i != j
    ensures SameInode(fs1, PutVnode(fs1, i, paged), j)
    ensures j in PutVnode(fs1, i, paged).vnodes <==> j in fs1.vnodes
  {
  }

  lemma PutHolder(fs: Fs, fs1: Fs, i: nat, paged: bool)
    requires Anchored(fs, i) && SameInode(GetVnode(fs, i), fs1, i)
    ensures PutVnode(fs1, i, paged).dirs == fs1.dirs && PutVnode(fs1, i, paged).free == fs1.free
  {
    GotIs(fs, i, i);
  }

  /** A whole visit of i: its vnode is read in, fs1 is the state the walk below leaves, and it is given up. */
  lemma VisitLeft(fs: Fs, fs1: Fs, c: set<nat>, hit: set<nat>, i: nat, paged: bool)
    requires i in fs.inodes && i in c && i in hit && Left(GetVnode(fs, i), fs1, c, hit) && Puttable(fs1, i)
    ensures Left(fs, PutVnode(fs1, i, paged), c, hit)
  {
    var g, fs' := GetVnode(fs, i), PutVnode(fs1, i, paged);
    GotIs(fs, i, i);
    assert Fate(g, fs1, hit, i);
    forall j ensures Fate(fs, fs', hit, j) {
      if j == i {
        PutFate(fs, fs1, i, paged, hit);
      } else {
        GotIs(fs, i, j);
        assert Fate(g, fs1, hit, j);
        PutOthers(fs1, i, paged, j);
      }
    }
    forall j: nat | j !in c ensures j in fs'.vnodes <==> j in fs.vnodes {
      GotIs(fs, i, j);
      PutOthers(fs1, i, paged, j);
    }
    if AllAnchored(fs, hit) {
      forall j | j in hit ensures Anchored(g, j) { GotIs(fs, i, j); }
      PutHolder(fs, fs1, i, paged);
    }
  }

  /** The assertion that a link count does not become negative holds for what is anchored. */
  lemma VisitEnds(fs: Fs, fs1: Fs, c: set<nat>, hit: set<nat>, i: nat)
    requires i in fs.inodes && Left(GetVnode(fs, i), fs1, c, hit) && Anchored(fs, i)
    ensures Puttable(fs1, i)
  {
    GotIs(fs, i, i);
    assert Fate(GetVnode(fs, i), fs1, hit, i);
  }

  lemma GotAnchored(fs: Fs, c: set<nat>, i: nat)
    requires i in fs.inodes && AllAnchored(fs, c)
    ensures AllAnchored(GetVnode(fs, i), c)
  {
    forall j | j in c ensures Anchored(GetVnode(fs, i), j) { GotIs(fs, i, j); }
  }

  /** The inodes counted between a and b. */
  ghost function Hit(a: seq<int>, b: seq<int>): set<nat> {
    set i: nat | i < |a| && i < |b| && b[i] > a[i]
  }

  lemma HitFirst(a: seq<int>, b: seq<int>, v: nat)
    requires |a| == |b| && v < |a| && a[v] == 0 && b[v] > 0 && forall i: nat :: i < |a| ==> b[i] >= a[v := 1][i]
    ensures Hit(a, b) == {v} + Hit(a[v := 1], b)
  {
  }

  lemma HitNext(a: seq<int>, b: seq<int>, b': seq<int>)
    requires |a| == |b| == |b'| && forall i: nat :: i < |a| ==> b'[i] >= b[i] >= a[i]
    ensures Hit(a, b') == Hit(a, b) + Hit(b, b')
  {
  }

  /** One more walk. */
  lemma WalkLeft(ls: Listing, fs: Fs, fs1: Fs, fs2: Fs, a: seq<int>, b: seq<int>, b': seq<int>, v: nat, c: set<nat>)
    requires Counts(b, |b|) && Walked(ls, b, b', v) && |a| == |b| && forall i: nat :: i < |a| ==> b[i] >= a[i]
    requires Left(fs, fs1, c, Hit(a, b)) && Left(fs1, fs2, c, Hit(b, b'))
    ensures Left(fs, fs2, c, Hit(a, b'))
  {
    WalkedGrows(ls, b, b', v);
    HitNext(a, b, b');
    LeftTwice(fs, fs1, fs2, c, Hit(a, b), Hit(b, b'));
  }

  /** calculate_refcounts.  c is any set that holds v and everything that its directories name.  ok says that the walk
      came to its end, without a panic on a free inode or a link count that became negative. */
  method CalculateRefcounts(s: S5Fs, counts: array<int>, ls: Listing, v: nat, ghost c: set<nat>) returns (ok: bool)
    requires WellFormed(ls, counts.Length) && v < counts.Length && Counts(counts[..], counts.Length)
    requires v in c && Closed(ls, c) && Readable(s.Abs(), ls, c) && v in s.inodes && RefsOf(s.Abs(), v) > 0
    modifies counts, s`inodes, s`vnodes, s`dirs, s`free
    ensures !ok ==> !AllAnchored(old(s.Abs()), c)
    ensures ok ==> Counts(counts[..], counts.Length) && Walked(ls, old(counts[..]), counts[..], v)
    ensures ok ==> ChildrenSeen(ls, old(counts[..]), counts[..]) && Within(old(counts[..]), counts[..], c)
    ensures ok ==> Left(old(s.Abs()), s.Abs(), c, Hit(old(counts[..]), counts[..]))
    decreases Unseen(counts[..]), 1
  {
    ghost var a, fs := counts[..], s.Abs();
    counts[v] := counts[v] + 1;
    LeftHeld(fs, c, v);
    ok := true;
    if counts[v] == 1 && s.inodes[v].kind == Dir {
      assert counts[..] == a[v := 1];
      assert v in Unseen(a) && v !in Unseen(counts[..]) && Unseen(counts[..]) < Unseen(a);
      ok := ReadEntries(s, counts, ls, v, c);
      if ok {
        ProgressDone(ls, a, counts[..], v, c);
        HitFirst(a, counts[..], v);
        LeftTwice(fs, fs, s.Abs(), c, {v}, Hit(a[v := 1], counts[..]));
      }
    } else {
      NothingNew(ls, a, v);
      assert counts[..] == a[v := a[v] + 1];
      assert Hit(a, counts[..]) == {v};
    }
  }

  /** The loop of calculate_refcounts over the records of the directory v. */
  method ReadEntries(s: S5Fs, counts: array<int>, ls: Listing, v: nat, ghost c: set<nat>) returns (ok: bool)
    requires WellFormed(ls, counts.Length) && v < counts.Length && Counts(counts[..], counts.Length)
    requires v in c && v in ls && Closed(ls, c) && Readable(s.Abs(), ls, c) && counts[v] > 0
    modifies counts, s`inodes, s`vnodes, s`dirs, s`free
    ensures !ok ==> !AllAnchored(old(s.Abs()), c)
    ensures ok ==> Progress(ls, old(counts[..]), counts[..], ls[v], c)
    ensures ok ==> Left(old(s.Abs()), s.Abs(), c, Hit(old(counts[..]), counts[..]))
    decreases Unseen(counts[..]), 3
  {
    ghost var a, fs := counts[..], s.Abs();
    var es := ls[v];
    ProgressStart(ls, a, c);
    LeftItself(fs, c);
    assert Hit(a, a) == {};
    var k := 0;
    assert es[..0] == [];
    while k < |es|
      invariant 0 <= k <= |es|
      invariant Progress(ls, a, counts[..], es[..k], c)
      invariant Left(fs, s.Abs(), c, Hit(a, counts[..]))
    {
      ghost var b, fs1 := counts[..], s.Abs();
      if es[k].name != "." {
        LeftReadable(fs, fs1, ls, c, Hit(a, b));
        assert Unseen(b) <= Unseen(a);
        ok := VisitChild(s, counts, ls, es[k].ino, c);
        if !ok {
          if AllAnchored(fs, c) { AllAnchoredBefore(fs, fs1, c, Hit(a, b)); }
          return;
        }
        WalkLeft(ls, fs, fs1, s.Abs(), a, b, counts[..], es[k].ino, c);
      }
      ProgressNext(ls, a, b, counts[..], es, k, c);
      k := k + 1;
    }
    assert es[..k] == ls[v];
    ok := true;
  }

  /** vget, the walk below, and vput; whether pages of the child stay cached is open.  Reading in a free inode panics,
      and giving one up whose link count would become negative trips an assertion. */
  method VisitChild(s: S5Fs, counts: array<int>, ls: Listing, v: nat, ghost c: set<nat>) returns (ok: bool)
    requires WellFormed(ls, counts.Length) && v < counts.Length && Counts(counts[..], counts.Length)
    requires v in c && Closed(ls, c) && Readable(s.Abs(), ls, c)
    modifies counts, s`inodes, s`vnodes, s`dirs, s`free
    ensures !ok ==> !AllAnchored(old(s.Abs()), c)
    ensures ok ==> Walked(ls, old(counts[..]), counts[..], v) && ChildrenSeen(ls, old(counts[..]), counts[..])
    ensures ok ==> Within(old(counts[..]), counts[..], c)
    ensures ok ==> Left(old(s.Abs()), s.Abs(), c, Hit(old(counts[..]), counts[..]))
    ensures ok ==> (v in s.inodes <==> Anchored(old(s.Abs()), v))
    decreases Unseen(counts[..]), 2
  {
    ghost var fs, a := s.Abs(), counts[..];
    var paged: bool := *;
    if v !in s.inodes { return false; }
    GotIs(fs, v, v);
    GotReadable(fs, ls, c, v);
    s.Vget(v);
    ok := CalculateRefcounts(s, counts, ls, v, c);
    if !ok {
      if AllAnchored(fs, c) { GotAnchored(fs, c, v); }
      return;
    }
    ghost var hit := Hit(a, counts[..]);
    WalkedGrows(ls, a, counts[..], v);
    assert v in hit && Fate(GetVnode(fs, v), s.Abs(), hit, v);
    if s.vnodes[v] == 1 && s.inodes[v].links <= 0 {
      assert !Anchored(fs, v);
      return false;
    }
    VisitLeft(fs, s.Abs(), c, hit, v, paged);
    s.Vput(v, paged);
    assert Fate(fs, s.Abs(), hit, v);
  }

  // ---------------------------------------------------------------- what is reachable

  ghost predicate Edge(ls: Listing, d: nat, i: nat) {
    d in ls && Mult(ls[d], i) > 0
  }

  ghost predicate Path(ls: Listing, p: seq<nat>) {
    p != [] && forall k {:trigger p[k]} :: 0 < k < |p| ==> Edge(ls, p[k - 1], p[k])
  }

  ghost predicate Reachable(ls: Listing, root: nat, i: nat) {
    exists p :: Path(ls, p) && p[0] == root && p[|p| - 1] == i
  }

  /** The entries other than "." that name i in the directories below k that the root reaches. */
  ghost function Refs(ls: Listing, k: nat, root: nat, i: nat): nat {
    if k == 0 then 0
    else Refs(ls, k - 1, root, i) + if k - 1 in ls && Reachable(ls, root, k - 1) then Mult(ls[k - 1], i) else 0
  }

  lemma {:induction false} MultOfRecord(es: seq<Rec>, j: nat)
    requires j < |es| && es[j].name != "."
    ensures Mult(es, es[j].ino) > 0
  {
    if j < |es| - 1 { MultOfRecord(es[..|es| - 1], j); }
  }

  lemma {:induction false} RecordOfMult(es: seq<Rec>, i: nat) returns (j: nat)
    requires Mult(es, i) > 0
    ensures j < |es| && es[j].name != "." && es[j].ino == i
  {
    if es[|es| - 1].name != "." && es[|es| - 1].ino == i {
      j := |es| - 1;
    } else {
      j := RecordOfMult(es[..|es| - 1], i);
    }
  }

  lemma ReachableStep(ls: Listing, root: nat, d: nat, i: nat)
    requires Reachable(ls, root, d) && Edge(ls, d, i)
    ensures Reachable(ls, root, i)
  {
    var p :| Path(ls, p) && p[0] == root && p[|p| - 1] == d;
    assert Path(ls, p + [i]);
    assert (p + [i])[0] == root && (p + [i])[|p + [i]| - 1] == i;
  }

  lemma ReachesItself(ls: Listing, root: nat)
    ensures Reachable(ls, root, root)
  {
    assert Path(ls, [root]) && [root][0] == root;
  }

  lemma ReachableClosed(ls: Listing, n: nat, root: nat, c: set<nat>)
    requires WellFormed(ls, n) && root < n && c == set i: nat | i < n && Reachable(ls, root, i)
    ensures root in c && Closed(ls, c)
  {
    ReachesItself(ls, root);
    forall d, j | d in c && d in ls && 0 <= j < |ls[d]| && ls[d][j].name != "." ensures ls[d][j].ino in c {
      MultOfRecord(ls[d], j);
      ReachableStep(ls, root, d, ls[d][j].ino);
    }
  }

  lemma PathSplit(ls: Listing, p: seq<nat>)
    requires Path(ls, p) && |p| > 1
    ensures Path(ls, p[..|p| - 1]) && Edge(ls, p[|p| - 2], p[|p| - 1])
  {
    assert Edge(ls, p[|p| - 2], p[|p| - 1]);
  }

  /** A path from a directory that was seen leads to what was seen. */
  lemma {:induction false} PathSeen(ls: Listing, a: seq<int>, b: seq<int>, p: seq<nat>)
    requires |a| == |b| && (forall i: nat :: i < |a| ==> a[i] == 0) && ChildrenSeen(ls, a, b)
    requires Path(ls, p) && p[0] < |b| && b[p[0]] > 0
    ensures p[|p| - 1] < |b| && b[p[|p| - 1]] > 0
  {
    if |p| > 1 {
      var d, i := p[|p| - 2], p[|p| - 1];
      PathSplit(ls, p);
      PathSeen(ls, a, b, p[..|p| - 1]);
      assert New(ls, a, b, d);
      var j := RecordOfMult(ls[d], i);
    }
  }

  lemma SeenIffReachable(ls: Listing, root: nat, a: seq<int>, b: seq<int>, c: set<nat>, i: nat)
    requires |a| == |b| && (forall i: nat :: i < |a| ==> a[i] == 0) && i < |a| && root < |a|
    requires c == set i: nat | i < |a| && Reachable(ls, root, i)
    requires Walked(ls, a, b, root) && ChildrenSeen(ls, a, b) && Within(a, b, c)
    ensures b[i] != 0 <==> Reachable(ls, root, i)
  {
    if Reachable(ls, root, i) {
      var p :| Path(ls, p) && p[0] == root && p[|p| - 1] == i;
      assert b[root] > 0;
      PathSeen(ls, a, b, p);
    }
  }

  lemma {:induction false} OwedIsRefs(ls: Listing, k: nat, root: nat, a: seq<int>, b: seq<int>, i: nat)
    requires |a| == |b| && k <= |a| && (forall d: nat :: d < |a| ==> a[d] == 0)
    requires forall d: nat {:trigger b[d]} :: d < |a| ==> (b[d] != 0 <==> Reachable(ls, root, d))
    ensures Owed(ls, k, a, b, i) == Refs(ls, k, root, i)
  {
    if k != 0 {
      OwedIsRefs(ls, k - 1, root, a, b, i);
      assert b[k - 1] != 0 <==> Reachable(ls, root, k - 1);
    }
  }

  /** A walk from the root over counts that are all 0 counts the entries in reachable directories, and the
      root once more. */
  lemma WalkCounts(ls: Listing, root: nat, a: seq<int>, b: seq<int>, c: set<nat>)
    requires |a| == |b| && (forall i: nat :: i < |a| ==> a[i] == 0) && root < |a|
    requires c == set i: nat | i < |a| && Reachable(ls, root, i)
    requires Walked(ls, a, b, root) && ChildrenSeen(ls, a, b) && Within(a, b, c)
    ensures forall i: nat {:trigger b[i]} :: i < |a| ==> b[i] == Refs(ls, |a|, root, i) + if i == root then 1 else 0
  {
    forall d: nat | d < |a| ensures b[d] != 0 <==> Reachable(ls, root, d) {
      SeenIffReachable(ls, root, a, b, c, d);
    }
    forall i: nat | i < |a| ensures Owed(ls, |a|, a, b, i) == Refs(ls, |a|, root, i) {
      OwedIsRefs(ls, |a|, root, a, b, i);
    }
  }

  /** What the root leads to. */
  ghost function ReachableSet(ls: Listing, n: nat, root: nat): set<nat> {
    set i: nat | i < n && Reachable(ls, root, i)
  }

  /** What the root leads to can be read, and the root is in memory as long as the file system is mounted. */
  ghost predicate Auditable(fs: Fs, ls: Listing, n: nat) {
    && WellFormed(ls, n) && fs.root < n && fs.root in fs.inodes && RefsOf(fs, fs.root) > 0
    && Readable(fs, ls, ReachableSet(ls, n, fs.root))
  }

  /** The counts of s5fs_check_refcounts, the root's corrected by one. */
  method CountEntries(s: S5Fs, ls: Listing, n: nat) returns (counts: array<int>, ok: bool)
    requires Auditable(s.Abs(), ls, n)
    modifies s`inodes, s`vnodes, s`dirs, s`free
    ensures fresh(counts) && counts.Length == n
    ensures !ok ==> !AllAnchored(old(s.Abs()), ReachableSet(ls, n, s.root))
    ensures ok ==> forall i: nat {:trigger counts[i]} :: i < n ==> counts[i] == Refs(ls, n, s.root, i)
    ensures ok ==> forall i: nat {:trigger counts[i]} :: i < n && counts[i] != 0 ==> i in ReachableSet(ls, n, s.root)
    ensures ok ==> forall i {:trigger i in ReachableSet(ls, n, s.root)} ::
                     i in ReachableSet(ls, n, s.root) && i != s.root ==> counts[i] != 0
    ensures ok ==> Left(old(s.Abs()), s.Abs(), ReachableSet(ls, n, s.root), ReachableSet(ls, n, s.root))
  {
    counts := new int[n](_ => 0);
    ghost var a := counts[..];
    ghost var c := ReachableSet(ls, n, s.root);
    ReachableClosed(ls, n, s.root, c);
    ok := CalculateRefcounts(s, counts, ls, s.root, c);
    if !ok { return; }
    ghost var b := counts[..];
    WalkCounts(ls, s.root, a, b, c);
    forall i: nat | i < n ensures b[i] != 0 <==> i in c {
      SeenIffReachable(ls, s.root, a, b, c, i);
    }
    assert Hit(a, b) == c;
    counts[s.root] := counts[s.root] - 1;
    assert counts[..] == b[s.root := b[s.root] - 1];
  }

  /** One turn of the comparing loop: the link count is read while the vnode is held. */
  method CompareOne(s: S5Fs, i: nat, count: int, ghost c: set<nat>) returns (agrees: bool)
    requires Anchored(s.Abs(), i) && i in c
    modifies s`inodes, s`vnodes, s`dirs, s`free
    ensures agrees <==> count == Stored(old(s.Abs()), i)
    ensures SameStored(old(s.Abs()), s.Abs(), c)
  {
    ghost var fs := s.Abs();
    var paged: bool := *;
    GotIs(fs, i, i);
    s.Vget(i);
    LeftHeld(s.Abs(), c, i);
    VisitEnds(fs, s.Abs(), c, {i}, i);
    agrees := count == s.inodes[i].links - 1;
    VisitLeft(fs, s.Abs(), c, {i}, i, paged);
    s.Vput(i, paged);
    LeftIsSame(fs, s.Abs(), c, {i});
  }

  /** The counts below k agree with what is stored. */
  ghost predicate Agrees(fs: Fs, counts: seq<int>, k: nat) {
    forall i: nat {:trigger counts[i]} :: i < k && i < |counts| && counts[i] != 0 ==> counts[i] == Stored(fs, i)
  }

  /** What was counted and is not free. */
  ghost predicate Counted(fs: Fs, counts: seq<int>, c: set<nat>) {
    forall i: nat {:trigger counts[i]} :: i < |counts| && counts[i] != 0 ==> i in c && (i in fs.inodes ==> Anchored(fs, i))
  }

  method Compare(s: S5Fs, counts: array<int>, ghost c: set<nat>) returns (ret: int, ok: bool)
    requires Counted(s.Abs(), counts[..], c)
    modifies s`inodes, s`vnodes, s`dirs, s`free
    ensures ok <==> forall i: nat {:trigger counts[i]} ::
              i < counts.Length && counts[i] != 0 ==> i in old(s.Abs()).inodes
    ensures ok ==> ret == if Agrees(old(s.Abs()), counts[..], counts.Length) then 0 else -1
    ensures ok ==> SameStored(old(s.Abs()), s.Abs(), c)
  {
    ghost var fs := s.Abs();
    ret := 0;
    SameStoredItself(fs, c);
    for i := 0 to counts.Length
      invariant ret == if Agrees(fs, counts[..], i) then 0 else -1
      invariant SameStored(fs, s.Abs(), c)
      invariant forall j: nat {:trigger counts[j]} :: j < i && counts[j] != 0 ==> j in fs.inodes
    {
      if counts[i] != 0 {
        ghost var fs1 := s.Abs();
        assert SameInode(fs, fs1, i) && counts[..][i] != 0;
        if i !in s.inodes { return -1, false; }
        var agrees := CompareOne(s, i, counts[i], c);
        SameStoredTwice(fs, fs1, s.Abs(), c);
        if !agrees { ret := -1; }
      }
      assert Agrees(fs, counts[..], i + 1) <==>
        Agrees(fs, counts[..], i) && (counts[..][i] != 0 ==> counts[..][i] == Stored(fs, i));
    }
    ok := true;
  }

  /** s5fs_check_refcounts.  It comes to its end, without a panic, exactly where everything that can be reached is
      anchored.  Inodes that no entry names are not looked at. */
  method CheckRefcounts(s: S5Fs, ls: Listing, n: nat) returns (ret: int, ok: bool)
    requires Auditable(s.Abs(), ls, n)
    modifies s`inodes, s`vnodes, s`dirs, s`free
    ensures ok <==> AllAnchored(old(s.Abs()), ReachableSet(ls, n, s.root))
    ensures ok ==> ret == 0 || ret == -1
    ensures ok ==> (ret == 0 <==> forall i: nat {:trigger Stored(old(s.Abs()), i)} ::
              i < n && Refs(ls, n, s.root, i) != 0 ==> Refs(ls, n, s.root, i) == Stored(old(s.Abs()), i))
    ensures ok ==> SameStored(old(s.Abs()), s.Abs(), ReachableSet(ls, n, s.root))
  {
    ghost var fs, c := s.Abs(), ReachableSet(ls, n, s.root);
    var counts;
    ret := -1;
    counts, ok := CountEntries(s, ls, n);
    if !ok { return; }
    ghost var fs1 := s.Abs();
    CountedAfter(fs, fs1, counts[..], c);
    ret, ok := Compare(s, counts, c);
    AllLooked(fs, fs1, counts[..], c);
    assert ok <==> AllAnchored(fs, c);
    if !ok { return; }
    LeftIsSame(fs, fs1, c, c);
    SameStoredTwice(fs, fs1, s.Abs(), c);
    forall i: nat ensures Stored(fs1, i) == Stored(fs, i) {
      assert SameInode(fs, fs1, i);
    }
    assert forall i: nat :: i < n ==> counts[..][i] == Refs(ls, n, s.root, i);
  }

  lemma CountedAfter(fs: Fs, fs1: Fs, counts: seq<int>, c: set<nat>)
    requires Left(fs, fs1, c, c) && forall i: nat {:trigger counts[i]} :: i < |counts| && counts[i] != 0 ==> i in c
    ensures Counted(fs1, counts, c)
  {
    forall i: nat | i < |counts| && counts[i] != 0 ensures i in fs1.inodes ==> Anchored(fs1, i) {
      assert Fate(fs, fs1, c, i);
    }
  }

  /** All that was visited and is still there was anchored, and the loop looks at all of it but the root. */
  lemma AllLooked(fs: Fs, fs1: Fs, counts: seq<int>, c: set<nat>)
    requires Left(fs, fs1, c, c) && Anchored(fs, fs.root)
    requires forall i: nat {:trigger counts[i]} :: i < |counts| && counts[i] != 0 ==> i in c
    requires forall i {:trigger i in c} :: i in c ==> i < |counts| && (i != fs.root ==> counts[i] != 0)
    ensures (forall i: nat {:trigger counts[i]} :: i < |counts| && counts[i] != 0 ==> i in fs1.inodes) <==> AllAnchored(fs, c)
  {
    forall i | i in c ensures Anchored(fs, i) <==> i in fs1.inodes {
      assert Fate(fs, fs1, c, i);
    }
  }

  // ---------------------------------------------------------------- the audit and the link-count invariant

  function ToMap(es: seq<Rec>): Entries {
    if es == [] then map[] else ToMap(es[..|es| - 1])[es[|es| - 1].name := es[|es| - 1].ino]
  }

  ghost predicate Unique(es: seq<Rec>) {
    es == [] || (es[|es| - 1].name !in ToMap(es[..|es| - 1]) && Unique(es[..|es| - 1]))
  }

  /** ls holds the records of the directories of fs. */
  ghost predicate Lists(ls: Listing, fs: Fs) {
    ls.Keys == fs.dirs.Keys && forall d {:trigger ls[d]} :: d in ls ==> Unique(ls[d]) && ToMap(ls[d]) == fs.dirs[d]
  }

  ghost function NamedIn(e: Entries, i: nat): set<string> {
    set n | n in e && n != "." && e[n] == i
  }

  lemma {:induction false} MultIsNamed(es: seq<Rec>, i: nat)
    requires Unique(es)
    ensures Mult(es, i) == |NamedIn(ToMap(es), i)|
  {
    if es == [] {
      assert NamedIn(ToMap(es), i) == {};
    } else {
      var last := es[|es| - 1];
      var before, after := NamedIn(ToMap(es[..|es| - 1]), i), NamedIn(ToMap(es), i);
      MultIsNamed(es[..|es| - 1], i);
      assert last.name !in before;
      assert after == before + if last.name != "." && last.ino == i then {last.name} else {};
    }
  }

  lemma {:induction false} Tagged(d: nat, s: set<string>)
    ensures |set n | n in s :: (d, n)| == |s|
    decreases s
  {
    if s == {} {
      assert (set n | n in s :: (d, n)) == {};
    } else {
      var x :| x in s;
      Tagged(d, s - {x});
      assert (set n | n in s :: (d, n)) == (set n | n in s - {x} :: (d, n)) + {(d, x)};
    }
  }

  ghost function Below(live: set<nat>, k: nat): set<nat> {
    set d | d in live && d < k
  }

  /** One more live directory. */
  lemma NamesMore(dirs: map<nat, Entries>, live: set<nat>, k: nat, i: nat)
    requires k in live && k in dirs
    ensures Names(dirs, Below(live, k + 1), i) == Names(dirs, Below(live, k), i) + |NamedIn(dirs[k], i)|
  {
    var a, b := Naming(dirs, Below(live, k), i), Naming(dirs, Below(live, k + 1), i);
    var more := set n | n in NamedIn(dirs[k], i) :: (k, n);
    Tagged(k, NamedIn(dirs[k], i));
    forall p ensures p in b <==> p in a + more {
      NamingIn(dirs, Below(live, k), i, p);
      NamingIn(dirs, Below(live, k + 1), i, p);
      assert p == (p.0, p.1);
    }
    assert b == a + more;
    assert a !! more;
  }

  lemma NamesStep(dirs: map<nat, Entries>, live: set<nat>, k: nat, i: nat)
    ensures Names(dirs, Below(live, k + 1), i)
      == Names(dirs, Below(live, k), i) + if k in live && k in dirs then |NamedIn(dirs[k], i)| else 0
  {
    if k in live && k in dirs {
      NamesMore(dirs, live, k, i);
    } else {
      var a, b := Naming(dirs, Below(live, k), i), Naming(dirs, Below(live, k + 1), i);
      forall p ensures p in b <==> p in a {
        NamingIn(dirs, Below(live, k), i, p);
        NamingIn(dirs, Below(live, k + 1), i, p);
      }
      assert b == a;
    }
  }

  lemma {:induction false} LiveReachable(fs: Fs, t: Tree, ls: Listing, d: nat)
    requires Inv(fs, t) && Lists(ls, fs) && d in t.live
    ensures Reachable(ls, fs.root, d)
    decreases if d in t.depth then t.depth[d] else 0
  {
    if d == fs.root {
      ReachesItself(ls, d);
    } else {
      assert LiveDirOk(fs, t, d);
      var (p, n) := t.up[d];
      LiveReachable(fs, t, ls, p);
      assert n in NamedIn(fs.dirs[p], d);
      MultIsNamed(ls[p], d);
      ReachableStep(ls, fs.root, p, d);
    }
  }

  /** An entry for every edge. */
  lemma EdgeEntry(fs: Fs, ls: Listing, d: nat, i: nat) returns (n: string)
    requires Lists(ls, fs) && Edge(ls, d, i)
    ensures d in fs.dirs && n in NamedIn(fs.dirs[d], i)
  {
    MultIsNamed(ls[d], i);
    assert NamedIn(fs.dirs[d], i) != {};
    n :| n in NamedIn(fs.dirs[d], i);
  }

  lemma EdgeLive(fs: Fs, t: Tree, ls: Listing, d: nat, i: nat)
    requires Inv(fs, t) && Lists(ls, fs) && Edge(ls, d, i) && d in t.live && i in fs.dirs
    ensures i in t.live
  {
    var n := EdgeEntry(fs, ls, d, i);
    EntryNamesInode(fs, t, d, n);
  }

  lemma {:induction false} PathLive(fs: Fs, t: Tree, ls: Listing, p: seq<nat>)
    requires Inv(fs, t) && Lists(ls, fs) && Path(ls, p) && p[0] == fs.root && p[|p| - 1] in fs.dirs
    ensures p[|p| - 1] in t.live
  {
    if |p| > 1 {
      PathSplit(ls, p);
      PathLive(fs, t, ls, p[..|p| - 1]);
      EdgeLive(fs, t, ls, p[|p| - 2], p[|p| - 1]);
    }
  }

  lemma ReachableIffLive(fs: Fs, t: Tree, ls: Listing, d: nat)
    requires Inv(fs, t) && Lists(ls, fs) && d in fs.dirs
    ensures Reachable(ls, fs.root, d) <==> d in t.live
  {
    if d in t.live {
      LiveReachable(fs, t, ls, d);
    } else if Reachable(ls, fs.root, d) {
      var p :| Path(ls, p) && p[0] == fs.root && p[|p| - 1] == d;
      PathLive(fs, t, ls, p);
    }
  }

  /** The directories that can be reached are the live ones. */
  ghost predicate ReachesLive(fs: Fs, live: set<nat>, ls: Listing) {
    forall d {:trigger d in fs.dirs} :: d in fs.dirs ==> (Reachable(ls, fs.root, d) <==> d in live)
  }

  lemma InvReachesLive(fs: Fs, t: Tree, ls: Listing)
    requires Inv(fs, t) && Lists(ls, fs)
    ensures ReachesLive(fs, t.live, ls)
  {
    forall d | d in fs.dirs ensures Reachable(ls, fs.root, d) <==> d in t.live {
      ReachableIffLive(fs, t, ls, d);
    }
  }

  lemma RefsStep(fs: Fs, live: set<nat>, ls: Listing, k: nat, i: nat)
    requires ReachesLive(fs, live, ls) && Lists(ls, fs)
    ensures Refs(ls, k + 1, fs.root, i)
      == Refs(ls, k, fs.root, i) + if k in live && k in fs.dirs then |NamedIn(fs.dirs[k], i)| else 0
  {
    if k in fs.dirs { MultIsNamed(ls[k], i); }
  }

  lemma NamesNone(dirs: map<nat, Entries>, live: set<nat>, i: nat)
    ensures Names(dirs, Below(live, 0), i) == 0
  {
    assert Naming(dirs, Below(live, 0), i) == {};
  }

  /** The names of i in the first k directories, counted one directory after the other. */
  ghost function NamesSum(dirs: map<nat, Entries>, live: set<nat>, k: nat, i: nat): nat {
    if k == 0 then 0
    else NamesSum(dirs, live, k - 1, i) + if k - 1 in live && k - 1 in dirs then |NamedIn(dirs[k - 1], i)| else 0
  }

  lemma {:induction false} NamesSumIs(dirs: map<nat, Entries>, live: set<nat>, k: nat, i: nat)
    ensures NamesSum(dirs, live, k, i) == Names(dirs, Below(live, k), i)
  {
    if k == 0 {
      NamesNone(dirs, live, i);
    } else {
      NamesSumIs(dirs, live, k - 1, i);
      NamesStep(dirs, live, k - 1, i);
    }
  }

  /** Going on from d, the walk's count and the sum grow alike. */
  ghost predicate GrowsAlike(fs: Fs, live: set<nat>, ls: Listing, d: nat, i: nat) {
    Refs(ls, d + 1, fs.root, i) - Refs(ls, d, fs.root, i)
      == NamesSum(fs.dirs, live, d + 1, i) - NamesSum(fs.dirs, live, d, i)
  }

  lemma {:induction false} RefsSum(fs: Fs, live: set<nat>, ls: Listing, k: nat, i: nat)
    requires forall d: nat :: GrowsAlike(fs, live, ls, d, i)
    ensures Refs(ls, k, fs.root, i) == NamesSum(fs.dirs, live, k, i)
  {
    if k > 0 {
      RefsSum(fs, live, ls, k - 1, i);
      assert GrowsAlike(fs, live, ls, k - 1, i);
    }
  }

  lemma RefsAreNames(fs: Fs, live: set<nat>, ls: Listing, k: nat, i: nat)
    requires ReachesLive(fs, live, ls) && Lists(ls, fs)
    ensures Refs(ls, k, fs.root, i) == Names(fs.dirs, Below(live, k), i)
  {
    forall d: nat ensures GrowsAlike(fs, live, ls, d, i) { RefsStep(fs, live, ls, d, i); }
    RefsSum(fs, live, ls, k, i);
    NamesSumIs(fs.dirs, live, k, i);
  }

  /** In a file system that keeps the link-count invariant the audit finds what it expects, for every inode. */
  lemma AuditAgrees(fs: Fs, t: Tree, ls: Listing, n: nat, i: nat)
    requires Inv(fs, t) && Lists(ls, fs) && forall d :: d in fs.dirs ==> d < n
    ensures Refs(ls, n, fs.root, i) == Stored(fs, i)
  {
    InvReachesLive(fs, t, ls);
    RefsAreNames(fs, t.live, ls, n, i);
    assert Below(t.live, n) == t.live;
    AllocatedIff(fs, t, i);
  }

  lemma EdgeNames(fs: Fs, live: set<nat>, ls: Listing, d: nat, i: nat)
    requires Lists(ls, fs) && Edge(ls, d, i) && d in live
    ensures Names(fs.dirs, live, i) > 0
  {
    var n := EdgeEntry(fs, ls, d, i);
    NamesSome(fs.dirs, live, d, n);
  }

  lemma LastEdge(fs: Fs, t: Tree, ls: Listing, p: seq<nat>)
    requires Inv(fs, t) && Lists(ls, fs) && Path(ls, p) && p[0] == fs.root && |p| > 1
    ensures p[|p| - 2] in t.live && Edge(ls, p[|p| - 2], p[|p| - 1])
  {
    PathSplit(ls, p);
    PathLive(fs, t, ls, p[..|p| - 1]);
  }

  /** An entry names whatever can be reached. */
  lemma ReachableNamed(fs: Fs, t: Tree, ls: Listing, i: nat)
    requires Inv(fs, t) && Lists(ls, fs) && Reachable(ls, fs.root, i)
    ensures Names(fs.dirs, t.live, i) > 0
  {
    var p :| Path(ls, p) && p[0] == fs.root && p[|p| - 1] == i;
    if |p| == 1 {
      LiveNamed(fs, t, i);
    } else {
      LastEdge(fs, t, ls, p);
      EdgeNames(fs, t.live, ls, p[|p| - 2], i);
    }
  }

  lemma ReachedAnchored(fs: Fs, t: Tree, ls: Listing, n: nat)
    requires Inv(fs, t) && Lists(ls, fs)
    ensures AllAnchored(fs, ReachableSet(ls, n, fs.root))
  {
    forall i | i in ReachableSet(ls, n, fs.root) ensures Anchored(fs, i) {
      ReachableNamed(fs, t, ls, i);
      AllocatedIff(fs, t, i);
    }
  }

  lemma InvAuditable(fs: Fs, t: Tree, ls: Listing, n: nat)
    requires DomainsOk(fs, t) && Lists(ls, fs) && WellFormed(ls, n) && fs.root < n
    ensures Auditable(fs, ls, n)
  {
  }

  lemma AuditKeepsTree(fs: Fs, fs': Fs, t: Tree, ls: Listing, n: nat)
    requires Inv(fs, t) && Lists(ls, fs) && SameStored(fs, fs', ReachableSet(ls, n, fs.root))
    requires fs'.inodes.Keys == fs.inodes.Keys
    ensures TreeOk(fs', t)
  {
    forall d | d in fs.dirs && d !in t.live ensures d in fs'.vnodes {
      ReachableIffLive(fs, t, ls, d);
    }
    TreeOnVnodes(fs, fs', t);
  }

  lemma AuditKeepsDomains(fs: Fs, fs': Fs, t: Tree)
    requires DomainsOk(fs, t) && fs'.root == fs.root && fs'.dirs == fs.dirs && fs'.free == fs.free
    requires fs'.inodes.Keys == fs.inodes.Keys && (forall i :: i in fs'.vnodes ==> i in fs.inodes)
    requires forall i :: i in fs.inodes ==> fs'.inodes[i].kind == fs.inodes[i].kind
    requires RefsOf(fs', fs.root) == RefsOf(fs, fs.root)
    ensures DomainsOk(fs', t)
  {
    DomainsOnVnodes(fs, fs', t);
  }

  /** The audit leaves the invariant alone. */
  lemma AuditKeeps(fs: Fs, fs': Fs, t: Tree, ls: Listing, n: nat)
    requires Inv(fs, t) && Lists(ls, fs) && SameStored(fs, fs', ReachableSet(ls, n, fs.root))
    ensures Inv(fs', t)
  {
    ReachedAnchored(fs, t, ls, n);
    AuditKeepsKeys(fs, fs', ReachableSet(ls, n, fs.root));
    assert SameInode(fs, fs', fs.root);
    AuditKeepsLinks(fs, fs', t, ls, n);
    AuditKeepsTree(fs, fs', t, ls, n);
    AuditKeepsDomains(fs, fs', t);
  }

  lemma AuditKeepsKeys(fs: Fs, fs': Fs, c: set<nat>)
    requires SameStored(fs, fs', c) && (forall i :: i in fs.vnodes ==> i in fs.inodes) && forall i :: i in c ==> i in fs.inodes
    ensures fs'.inodes.Keys == fs.inodes.Keys && forall i :: i in fs'.vnodes ==> i in fs.inodes
    ensures forall i :: i in fs.inodes ==> fs'.inodes[i].kind == fs.inodes[i].kind
  {
    forall i: nat ensures i in fs'.inodes <==> i in fs.inodes {
      assert SameInode(fs, fs', i);
    }
    forall i | i in fs.inodes ensures fs'.inodes[i].kind == fs.inodes[i].kind {
      assert SameInode(fs, fs', i);
    }
  }

  lemma AuditKeepsLinks(fs: Fs, fs': Fs, t: Tree, ls: Listing, n: nat)
    requires Inv(fs, t) && Lists(ls, fs) && SameStored(fs, fs', ReachableSet(ls, n, fs.root))
    ensures LinksOk(fs', t)
  {
    forall i | i in fs'.inodes
      ensures fs'.inodes[i].links == Names(fs'.dirs, t.live, i) + (if i in fs'.vnodes then 1 else 0)
      ensures fs'.inodes[i].links > 0
    {
      assert SameInode(fs, fs', i);
      if i in ReachableSet(ls, n, fs.root) { ReachableNamed(fs, t, ls, i); }
    }
  }

  /** s5fs_check_refcounts on a file system that keeps the link-count invariant: it succeeds, and the invariant
      still holds. */
  method CheckValid(s: S5Fs, ls: Listing, n: nat) returns (ret: int, ok: bool)
    requires s.Valid() && Lists(ls, s.Abs()) && WellFormed(ls, n) && s.root < n
    modifies s`inodes, s`vnodes, s`dirs, s`free
    ensures ok && ret == 0 && s.Valid()
  {
    ghost var fs := s.Abs();
    ghost var t := s.tree;
    ReachedAnchored(fs, t, ls, n);
    InvAuditable(fs, t, ls, n);
    forall i: nat ensures Refs(ls, n, fs.root, i) == Stored(fs, i) {
      AuditAgrees(fs, t, ls, n, i);
    }
    ret, ok := CheckRefcounts(s, ls, n);
    AuditKeeps(fs, s.Abs(), t, ls, n);
  }

  /** Over every run from a mounted volume the audit finds what it expects, for every inode, and frees nothing. */
  lemma AuditOverRuns(fs: Fs, ops: seq<Op>, ls: Listing, n: nat, i: nat)
    requires Mounted(fs) && AllEnabled(fs, Tree({fs.root}, map[], map[]), ops)
    requires Lists(ls, Run(fs, ops)) && forall d :: d in Run(fs, ops).dirs ==> d < n
    ensures Refs(ls, n, Run(fs, ops).root, i) == Stored(Run(fs, ops), i)
    ensures AllAnchored(Run(fs, ops), ReachableSet(ls, n, Run(fs, ops).root))
  {
    MountedInv(fs);
    var t := Tree({fs.root}, map[], map[]);
    RunKeeps(fs, t, ops);
    AuditAgrees(Run(fs, ops), RunTree(fs, t, ops), ls, n, i);
    ReachedAnchored(Run(fs, ops), RunTree(fs, t, ops), ls, n);
  }

  /** A volume on which the audit does not come to its end: the root names inode 1, whose stored link count is 0, so
      the walk frees it and the comparing loop reads a free inode. */
  lemma AuditMayPanic() returns (fs: Fs, ls: Listing)
    ensures Auditable(fs, ls, 2) && Lists(ls, fs)
    ensures fs.root in fs.dirs && "a" in fs.dirs[fs.root] && fs.dirs[fs.root]["a"] == 1
    ensures 1 in fs.inodes && Stored(fs, 1) == 0 && !AllAnchored(fs, ReachableSet(ls, 2, fs.root))
  {
    var es := [Rec(".", 0), Rec("..", 0), Rec("a", 1)];
    ls := map[0 := es];
    fs := Fs(0, map[0 := Inode(Dir, 2), 1 := Inode(Data, 0)], map[0 := map["." := 0, ".." := 0, "a" := 1]], [], map[0 := 1]);
    ReachesItself(ls, 0);
    MultOfRecord(es, 2);
    ReachableStep(ls, 0, 0, 1);
    ThreeRecords(es);
    assert 1 in ReachableSet(ls, 2, 0) && !Anchored(fs, 1);
  }

  lemma ThreeRecords(es: seq<Rec>)
    requires |es| == 3 && es[0].name != es[1].name && es[2].name != es[0].name && es[2].name != es[1].name
    ensures Unique(es)
    ensures ToMap(es) == map[es[0].name := es[0].ino, es[1].name := es[1].ino, es[2].name := es[2].ino]
  {
    assert es[..2][..1] == es[..1] && es[..1][..0] == [];
    assert Unique(es[..0]) && Unique(es[..1]) && ToMap(es[..1]) == map[es[0].name := es[0].ino];
    assert Unique(es[..2]);
    assert ToMap(es[..2]) == map[es[0].name := es[0].ino, es[1].name := es[1].ino];
  }
}
