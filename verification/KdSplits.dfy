/**
  The split candidates of the kd-tree builder: a sorted list of positions, made of nodes drawn from a fixed pool.
 */
module KdSplits {

  class SplitNode {
    var next: SplitNode?
    var splitPos: real
    var leftCount: nat
    var rightCount: nat

    constructor ()
      ensures next == null
    {
      next := null;
      splitPos, leftCount, rightCount := 0.0, 0, 0;
    }
  }

  ghost predicate Ascending(pos: seq<real>) {
    forall j, k {:trigger pos[j], pos[k]} :: 0 <= j < k < |pos| ==> pos[j] < pos[k]
  }

  /** How many positions at the front lie below x. */
  function Rank(pos: seq<real>, x: real): (k: nat)
    ensures k <= |pos|
    ensures forall j :: 0 <= j < k ==> pos[j] < x
    ensures k < |pos| ==> pos[k] >= x
  {
    if pos == [] || pos[0] >= x then 0 else 1 + Rank(pos[1..], x)
  }

  /** s with x put before position k. */
  function Spliced<T>(s: seq<T>, k: nat, x: T): seq<T>
    requires k <= |s|
  {
    s[..k] + [x] + s[k..]
  }

  lemma InSpliced<T>(s: seq<T>, k: nat, x: T)
    requires k <= |s|
    ensures forall y {:trigger y in Spliced(s, k, x)} :: y in Spliced(s, k, x) <==> y in s || y == x
  {
    assert s == s[..k] + s[k..];
  }

  /** pos with x, in its place and once. */
  function Insert(pos: seq<real>, x: real): seq<real> {
    var k := Rank(pos, x);
    if k < |pos| && pos[k] == x then pos else Spliced(pos, k, x)
  }

  lemma InsertIs(pos: seq<real>, x: real)
    requires Ascending(pos)
    ensures Ascending(Insert(pos, x)) && |Insert(pos, x)| <= |pos| + 1
    ensures forall y {:trigger y in Insert(pos, x)} :: y in Insert(pos, x) <==> y in pos || y == x
  {
    var k := Rank(pos, x);
    if k == |pos| || pos[k] != x {
      InSpliced(pos, k, x);
      forall i, j | 0 <= i < j < |pos| + 1 ensures Spliced(pos, k, x)[i] < Spliced(pos, k, x)[j] {
        assert Spliced(pos, k, x)[i] == if i < k then pos[i] else if i == k then x else pos[i - 1];
        assert Spliced(pos, k, x)[j] == if j < k then pos[j] else if j == k then x else pos[j - 1];
      }
    }
  }

  lemma RankIs(pos: seq<real>, x: real, k: nat)
    requires Ascending(pos) && k <= |pos| && (k > 0 ==> pos[k - 1] < x) && (k < |pos| ==> pos[k] >= x)
    ensures Rank(pos, x) == k
  {
    assert forall j :: 0 <= j < k ==> pos[j] <= pos[k - 1];
  }

  ghost predicate Distinct(s: seq<SplitNode>) {
    forall j, k {:trigger s[j], s[k]} :: 0 <= j < k < |s| ==> s[j] != s[k]
  }

  ghost predicate Apart(s: seq<SplitNode>, t: seq<SplitNode>) {
    forall j, k {:trigger s[j], t[k]} :: 0 <= j < |s| && 0 <= k < |t| ==> s[j] != t[k]
  }

  lemma InsertedNodes(s: seq<SplitNode>, t: seq<SplitNode>, k: nat, n: SplitNode)
    requires Distinct(s) && Apart(s, t) && k <= |s| && n !in s && n !in t
    ensures Distinct(Spliced(s, k, n)) && Apart(Spliced(s, k, n), t) && |Spliced(s, k, n)| == |s| + 1
    ensures forall m :: m in Spliced(s, k, n) <==> m in s || m == n
  {
    InSpliced(s, k, n);
  }

  /** The nodes s, linked in this order from first. */
  ghost predicate Chain(first: SplitNode?, s: seq<SplitNode>)
    reads s`next
  {
    && first == (if s == [] then null else s[0])
    && (forall k {:trigger s[k].next} :: 0 <= k < |s| ==> s[k].next == if k + 1 < |s| then s[k + 1] else null)
  }

  ghost predicate Holds(s: seq<SplitNode>, pos: seq<real>)
    reads s`splitPos
  {
    |s| == |pos| && forall k {:trigger s[k].splitPos} :: 0 <= k < |s| ==> s[k].splitPos == pos[k]
  }

  lemma HoldsSpliced(s: seq<SplitNode>, pos: seq<real>, k: nat, n: SplitNode, x: real)
    requires Holds(s, pos) && k <= |s| && n.splitPos == x
    ensures Holds(Spliced(s, k, n), Spliced(pos, k, x))
  {
    forall j | 0 <= j <= |s| ensures Spliced(s, k, n)[j].splitPos == Spliced(pos, k, x)[j] {
      assert j < k ==> s[j].splitPos == pos[j];
      assert j > k ==> s[j - 1].splitPos == pos[j - 1];
    }
  }

  class SplitLists {
    var splitList: SplitNode?
    var splitPool: SplitNode?
    /** All the nodes there are, those in use in order, and those in the pool. */
    ghost var nodes: set<SplitNode>
    ghost var list: seq<SplitNode>
    ghost var pool: seq<SplitNode>
    /** The positions in use. */
    ghost var pos: seq<real>

    ghost predicate Valid()
      reads this, nodes`next, nodes`splitPos
    {
      && Distinct(list) && Distinct(pool) && Apart(list, pool)
      && (forall n :: n in nodes ==> n in list || n in pool)
      && (forall n :: n in list ==> n in nodes) && (forall n :: n in pool ==> n in nodes)
      && |list| + |pool| == |nodes|
      && Chain(splitList, list) && Chain(splitPool, pool)
      && Holds(list, pos) && Ascending(pos)
    }

    /** The pool build sets up for n objects: 2n + 1 nodes, linked in order. */
    constructor (n: nat)
      ensures Valid() && list == [] && pos == [] && |nodes| == 2 * n + 1 && fresh(nodes)
    {
      splitList := null;
      list, pos := [], [];
      new;
      var header: seq<SplitNode> := [];
      ghost var all: set<SplitNode> := {};
      while |header| < 2 * n + 1
        invariant |header| <= 2 * n + 1 && |all| == |header| && Distinct(header)
        invariant (forall m :: m in header ==> m in all) && (forall m :: m in all ==> m in header)
        invariant fresh(all) && forall k {:trigger header[k].next} :: 0 <= k < |header| ==> header[k].next == null
        modifies {}
      {
        var node := new SplitNode();
        header := header + [node];
        all := all + {node};
      }
      var i := 0;
      while i < 2 * n
        invariant 0 <= i <= 2 * n
        invariant forall k {:trigger header[k].next} ::
                    0 <= k < |header| ==> header[k].next == if k < i then header[k + 1] else null
        modifies all
      {
        assert header[i] in all;
        header[i].next := header[i + 1];
        i := i + 1;
      }
      splitPool := header[0];
      nodes, pool := all, header;
    }

    /** Putting a node that was taken from the pool back. */
    method PutBack(node: SplitNode)
      requires node in nodes && node !in pool && Chain(splitPool, pool) && forall n :: n in pool ==> n in nodes
      modifies node`next, `splitPool, `pool
      ensures pool == [node] + old(pool) && Chain(splitPool, pool)
    {
      node.next := splitPool;
      splitPool := node;
      pool := [node] + pool;
    }

    /** No object has been counted at any of the positions. */
    ghost predicate Uncounted()
      reads this, list
    {
      forall n :: n in list ==> n.leftCount == 0 && n.rightCount == 0
    }

    /** insertSplitPos */
    method InsertSplitPos(x: real)
      requires Valid() && pool != []
      modifies `splitList, `splitPool, `list, `pool, `pos,
               nodes`next, nodes`splitPos, nodes`leftCount, nodes`rightCount
      ensures Valid() && pos == Insert(old(pos), x) && nodes == old(nodes)
      ensures old(Uncounted()) ==> Uncounted()
    {
      var node := splitPool;
      assert node == pool[0] && pool[0].next == (if 1 < |pool| then pool[1] else null);
      splitPool := splitPool.next;
      pool := pool[1..];
      node.next := null;
      node.splitPos := x;
      node.leftCount, node.rightCount := 0, 0;
      InsertNode(node, x);
    }

    method InsertNode(node: SplitNode, x: real)
      requires node in nodes && node.splitPos == x && node.next == null
      requires Distinct(list) && Distinct(pool) && Apart(list, pool) && node !in list && node !in pool
      requires forall n :: n in nodes ==> n in list || n in pool || n == node
      requires (forall n :: n in list ==> n in nodes) && (forall n :: n in pool ==> n in nodes)
      requires |list| + |pool| + 1 == |nodes|
      requires Chain(splitList, list) && Chain(splitPool, pool) && Holds(list, pos) && Ascending(pos)
      modifies `splitList, `splitPool, `list, `pool, `pos, nodes`next
      ensures forall n :: n in list ==> n in old(list) || n == node
      ensures Valid() && pos == Insert(old(pos), x) && nodes == old(nodes)
    {
      if splitList == null {
        splitList := node;
        list, pos := [node], [x];
      } else if x < splitList.splitPos {
        RankIs(pos, x, 0);
        PushFront(node, x);
      } else if x == splitList.splitPos {
        RankIs(pos, x, 0);
        PutBack(node);
      } else {
        InsertBehind(node, x);
      }
    }

    /** The node comes before all others. */
    method PushFront(node: SplitNode, x: real)
      requires Chain(splitList, list) && Chain(splitPool, pool) && node !in list && node !in pool
      requires Holds(list, pos) && node.splitPos == x
      modifies node`next, `splitList, `list, `pos
      ensures list == [node] + old(list) && pos == [x] + old(pos) && splitList == node
      ensures Chain(splitList, list) && Chain(splitPool, pool) && Holds(list, pos)
    {
      node.next := splitList;
      splitList := node;
      list, pos := [node] + list, [x] + pos;
    }

    /** The search for the place, for a position behind the first one. */
    method InsertBehind(node: SplitNode, x: real)
      requires node in nodes && node.splitPos == x && node.next == null
      requires Distinct(list) && Distinct(pool) && Apart(list, pool) && node !in list && node !in pool
      requires forall n :: n in nodes ==> n in list || n in pool || n == node
      requires (forall n :: n in list ==> n in nodes) && (forall n :: n in pool ==> n in nodes)
      requires |list| + |pool| + 1 == |nodes|
      requires Chain(splitList, list) && Chain(splitPool, pool) && Holds(list, pos) && Ascending(pos)
      requires splitList != null && x > splitList.splitPos
      modifies `splitList, `splitPool, `list, `pool, `pos, nodes`next
      ensures forall n :: n in list ==> n in old(list) || n == node
      ensures Valid() && pos == Insert(old(pos), x) && nodes == old(nodes)
    {
      ghost var k;
      var at, found;
      at, k, found := Walk(x);
      RankIs(pos, x, k + 1);
      if found { PutBack(node); } else { LinkBehind(node, x, at, k); }
    }

    /** The last node before x, or before the node that has x already. */
    method Walk(x: real) returns (at: SplitNode, ghost k: nat, found: bool)
      requires Chain(splitList, list) && Holds(list, pos) && Ascending(pos) && splitList != null && x > splitList.splitPos
      ensures k < |list| == |pos| && at == list[k] && pos[k] < x
      ensures found ==> k + 1 < |list| && pos[k + 1] == x
      ensures !found ==> at.next == (if k + 1 < |list| then list[k + 1] else null) && (k + 1 < |list| ==> x < pos[k + 1])
    {
      at, k, found := splitList, 0, false;
      assert list[0].splitPos == pos[0];
      while at.next != null && x >= at.next.splitPos
        invariant 0 <= k < |list| && at == list[k] && pos[k] < x
        decreases |list| - k
      {
        assert list[k].next == list[k + 1] && list[k + 1].splitPos == pos[k + 1];
        if x == at.next.splitPos {
          return at, k, true;
        }
        at := at.next;
        k := k + 1;
      }
      assert list[k].next == if k + 1 < |list| then list[k + 1] else null;
      assert k + 1 < |list| ==> list[k + 1].splitPos == pos[k + 1];
    }

    method LinkBehind(node: SplitNode, x: real, at: SplitNode, ghost k: nat)
      requires node in nodes && node.splitPos == x && node.next == null
      requires Distinct(list) && Distinct(pool) && Apart(list, pool) && node !in list && node !in pool
      requires forall n :: n in nodes ==> n in list || n in pool || n == node
      requires (forall n :: n in list ==> n in nodes) && (forall n :: n in pool ==> n in nodes)
      requires |list| + |pool| + 1 == |nodes|
      requires Chain(splitList, list) && Chain(splitPool, pool) && Holds(list, pos) && Ascending(pos)
      requires k < |list| && at == list[k] && Rank(pos, x) == k + 1 && (k + 1 < |pos| ==> pos[k + 1] > x)
      modifies `splitList, `splitPool, `list, `pool, `pos, nodes`next
      ensures forall n :: n in list ==> n in old(list) || n == node
      ensures Valid() && pos == Insert(old(pos), x) && nodes == old(nodes)
    {
      InsertedNodes(list, pool, k + 1, node);
      InsertIs(pos, x);
      Relink(node, x, at, k);
    }

    /** node comes behind the node at. */
    method Relink(node: SplitNode, x: real, at: SplitNode, ghost k: nat)
      requires Chain(splitList, list) && k < |list| && at == list[k] && Distinct(list) && node !in list
      requires Chain(splitPool, pool) && at !in pool && node !in pool && Holds(list, pos) && node.splitPos == x
      modifies at`next, node`next, `list, `pos
      ensures list == Spliced(old(list), k + 1, node) && Chain(splitList, list) && Chain(splitPool, pool)
      ensures pos == Spliced(old(pos), k + 1, x) && Holds(list, pos)
    {
      HoldsSpliced(list, pos, k + 1, node, x);
      Splice(node, at, splitList, list, k);
      list, pos := Spliced(list, k + 1, node), Spliced(pos, k + 1, x);
    }

    /** The pointers that change. */
    method Splice(node: SplitNode, at: SplitNode, ghost first: SplitNode?, ghost was: seq<SplitNode>, ghost k: nat)
      requires Chain(first, was) && k < |was| && at == was[k] && Distinct(was) && node !in was
      modifies at`next, node`next
      ensures Chain(first, Spliced(was, k + 1, node))
    {
      assert was[k].next == if k + 1 < |was| then was[k + 1] else null;
      node.next := at.next;
      at.next := node;
      InSpliced(was, k + 1, node);
    }

    /** The start of subdivide: the whole list goes back to the pool. */
    method Recycle()
      requires Valid()
      modifies `splitList, `splitPool, `list, `pool, `pos,
               nodes`next, nodes`splitPos, nodes`leftCount, nodes`rightCount
      ensures Valid() && pos == [] && list == [] && nodes == old(nodes)
    {
      if splitList != null {
        var last := splitList;
        ghost var k := 0;
        while last.next != null
          invariant 0 <= k < |list| && last == list[k] && list[k].next == if k + 1 < |list| then list[k + 1] else null
          decreases |list| - k
        {
          last := last.next;
          k := k + 1;
        }
        last.next := splitPool;
        splitPool := splitList;
        splitList := null;
        pool := list + pool;
        list, pos := [], [];
      }
    }
  }
}
