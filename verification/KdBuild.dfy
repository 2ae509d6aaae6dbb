/**
  The kd-tree builder on its nodes: every step of subdivide, and the proof that it makes the tree of Kd.Subdivide.
 */
module KdBuild {
  import opened KdSplits
  import opened Kd

  /** An element of an object list.  It is set once, when it is linked in front of the list that next heads. */
  class ObjectNode {
    const item: Object
    const next: ObjectNode?
    /** The objects from here on. */
    ghost const objs: seq<Object>

    constructor (item: Object, next: ObjectNode?)
      ensures this.item == item && this.next == next && objs == [item] + Listed(next)
    {
      this.item, this.next := item, next;
      this.objs := [item] + Listed(next);
    }
  }

  /** The objects of a list, in the order of the links. */
  ghost function Listed(n: ObjectNode?): seq<Object> {
    if n == null then [] else n.objs
  }

  /** Following the links from n meets the objects in that order and comes to an end. */
  ghost predicate Linked(n: ObjectNode?)
    decreases |Listed(n)|
  {
    n != null ==> n.objs != [] && n.objs == [n.item] + Listed(n.next) && Linked(n.next)
  }

  /** From n on the list holds what objs holds from id on. */
  ghost predicate Rest(n: ObjectNode?, objs: seq<Object>, id: nat) {
    && Linked(n) && id + |Listed(n)| == |objs|
    && forall k {:trigger Listed(n)[k]} :: 0 <= k < |Listed(n)| ==> Listed(n)[k] == objs[id + k]
  }

  lemma RestNext(n: ObjectNode, objs: seq<Object>, id: nat)
    requires Rest(n, objs, id)
    ensures id < |objs| && n.item == objs[id] && Rest(n.next, objs, id + 1)
  {
    assert Listed(n)[0] == n.item;
    forall k | 0 <= k < |Listed(n.next)| ensures Listed(n.next)[k] == objs[id + 1 + k] {
      assert Listed(n)[k + 1] == Listed(n.next)[k];
    }
  }

  class KdNode {
    var box: Box
    var split: real
    var leaf: bool
    var axis: nat
    var left: KdNode?
    var right: KdNode?
    var objList: ObjectNode?
    /** The objects of the list, its head first. */
    ghost var objs: seq<Object>
    /** The tree below the node, and the nodes it is made of. */
    ghost var tree: Tree
    ghost var repr: set<KdNode>

    /** The list is properly linked and objs says what is on it. */
    ghost predicate Holds()
      reads `objList, `objs
    {
      Linked(objList) && objs == Listed(objList)
    }

    /** The fields of the node are those of the root of tree. */
    ghost predicate IsRoot()
      reads this
    {
      && tree.box == box && tree.objs == objs && Holds() && leaf == tree.Leaf?
      && (tree.Inner? ==> axis == tree.axis && split == tree.split && left != null && right != null)
    }

    ghost predicate Valid()
      reads this, repr
      decreases repr
    {
      && this in repr && IsRoot()
      && (tree.Inner? ==>
            && left in repr && left.repr <= repr && this !in left.repr && left.Valid() && left.tree == tree.left
            && right in repr && right.repr <= repr && this !in right.repr && right.Valid() && right.tree == tree.right
            && left.repr !! right.repr)
    }

    constructor ()
      ensures leaf && objs == [] && Holds() && left == null && right == null
    {
      left, right, leaf, objList, objs, split, axis := null, null, true, null, [], 0.0, 0;
      box := Box(Vec(0.0, 0.0, 0.0), Vec(0.0, 0.0, 0.0));
      tree, repr := Leaf(Box(Vec(0.0, 0.0, 0.0), Vec(0.0, 0.0, 0.0)), []), {this};
    }

    /** KdTreeNode::add: the object comes to the front of the list, and the rest of the list is shared, not copied. */
    method Add(o: Object)
      requires Holds()
      modifies `objList, `objs
      ensures Holds() && objs == [o] + old(objs)
      ensures objList != null && fresh(objList) && objList.next == old(objList)
    {
      var node := new ObjectNode(o, objList);
      objList := node;
      objs := [o] + objs;
    }

    /** A walk over the list meets exactly its objects, head first. */
    method ToArray(count: nat) returns (parray: array<Object>)
      requires Holds() && count == |objs|
      ensures fresh(parray) && parray[..] == objs
    {
      parray := new Object[count];
      var objNodes, id := objList, 0;
      while objNodes != null
        invariant 0 <= id <= count && Rest(objNodes, objs, id)
        invariant forall k :: 0 <= k < id ==> parray[k] == objs[k]
        decreases count - id
      {
        RestNext(objNodes, objs, id);
        parray[id] := objNodes.item;
        objNodes := objNodes.next;
        id := id + 1;
      }
    }

    /** The node gets its split and its children, whose trees are complete. */
    method Adopt(l: KdNode, r: KdNode, pos: real)
      requires Holds() && l.Valid() && r.Valid() && l.repr !! r.repr && this !in l.repr && this !in r.repr
      modifies `split, `left, `right, `leaf, `tree, `repr
      ensures Valid() && tree == Inner(box, objs, axis, pos, l.tree, r.tree)
      ensures repr == {this} + l.repr + r.repr
    {
      SetChildren(l, r, pos);
      assert l.Valid() && r.Valid();
      assert this in repr && l in repr && r in repr;
    }

    method SetChildren(l: KdNode, r: KdNode, pos: real)
      modifies `split, `left, `right, `leaf, `tree, `repr
      ensures split == pos && left == l && right == r && !leaf
      ensures tree == Inner(box, objs, axis, pos, old(l.tree), old(r.tree)) && repr == {this} + old(l.repr) + old(r.repr)
    {
      split := pos;
      tree, repr := Inner(box, objs, axis, pos, l.tree, r.tree), {this} + l.repr + r.repr;
      left, right, leaf := l, r, false;
    }

    /** A node with box b and its objects that stays a leaf. */
    ghost method SealLeaf()
      requires leaf && Holds()
      modifies `tree, `repr
      ensures Valid() && tree == Leaf(box, objs) && repr == {this}
    {
      tree, repr := Leaf(box, objs), {this};
    }
  }

  lemma CandidatesStep(objs: seq<Object>, k: nat, axis: nat, lo: real, hi: real)
    requires k < |objs|
    ensures var c, o := Candidates(objs[..k], axis, lo, hi), objs[k].box;
      && Candidates(objs[..k + 1], axis, lo, hi) == WithEdge(WithEdge(c, Lo(o, axis), lo, hi), Hi(o, axis), lo, hi)
      && |c| <= 2 * k && |WithEdge(c, Lo(o, axis), lo, hi)| <= 2 * k + 1
  {
    assert objs[..k + 1][..k] == objs[..k];
    CandidatesIs(objs[..k], axis, lo, hi);
    WithEdgeIs(Candidates(objs[..k], axis, lo, hi), Lo(objs[k].box, axis), lo, hi);
  }

  method AddEdge(sp: SplitLists, x: real, lo: real, hi: real)
    requires sp.Valid() && |sp.pos| < |sp.nodes| && sp.Uncounted()
    modifies sp`splitList, sp`splitPool, sp`list, sp`pool, sp`pos,
             sp.nodes`next, sp.nodes`splitPos, sp.nodes`leftCount, sp.nodes`rightCount
    ensures sp.Valid() && sp.nodes == old(sp.nodes) && sp.Uncounted()
    ensures sp.pos == WithEdge(old(sp.pos), x, lo, hi)
  {
    if x >= lo && x <= hi {
      sp.InsertSplitPos(x);
    }
  }

  /** The candidates of object k. */
  method AddEdges(sp: SplitLists, left: real, right: real, ghost objs: seq<Object>, ghost k: nat, axis: nat, lo: real, hi: real)
    requires sp.Valid() && sp.Uncounted() && |sp.nodes| >= 2 * |objs| + 1
    requires k < |objs| && left == Lo(objs[k].box, axis) && right == Hi(objs[k].box, axis)
    requires sp.pos == Candidates(objs[..k], axis, lo, hi)
    modifies sp`splitList, sp`splitPool, sp`list, sp`pool, sp`pos,
             sp.nodes`next, sp.nodes`splitPos, sp.nodes`leftCount, sp.nodes`rightCount
    ensures sp.Valid() && sp.nodes == old(sp.nodes) && sp.Uncounted() && sp.pos == Candidates(objs[..k + 1], axis, lo, hi)
  {
    CandidatesStep(objs, k, axis, lo, hi);
    AddEdge(sp, left, lo, hi);
    AddEdge(sp, right, lo, hi);
  }

  /** The arrays hold the edges of the first k objects. */
  ghost predicate Edges(eleft: array<real>, eright: array<real>, objs: seq<Object>, axis: nat, k: nat)
    reads eleft, eright
  {
    && k <= |objs| && eleft.Length == eright.Length == |objs|
    && forall i {:trigger objs[i]} :: 0 <= i < k ==> eleft[i] == Lo(objs[i].box, axis) && eright[i] == Hi(objs[i].box, axis)
  }

  /** Object k: its edges, and the candidates among them. */
  method CollectOne(sp: SplitLists, objs: seq<Object>, k: nat, axis: nat, lo: real, hi: real,
                    eleft: array<real>, eright: array<real>)
    requires sp.Valid() && sp.Uncounted() && |sp.nodes| >= 2 * |objs| + 1 && k < |objs|
    requires sp.pos == Candidates(objs[..k], axis, lo, hi) && Edges(eleft, eright, objs, axis, k) && eleft != eright
    modifies eleft, eright, sp`splitList, sp`splitPool, sp`list, sp`pool, sp`pos,
             sp.nodes`next, sp.nodes`splitPos, sp.nodes`leftCount, sp.nodes`rightCount
    ensures sp.Valid() && sp.nodes == old(sp.nodes) && sp.Uncounted() && sp.pos == Candidates(objs[..k + 1], axis, lo, hi)
    ensures Edges(eleft, eright, objs, axis, k + 1)
  {
    AddEdges(sp, Lo(objs[k].box, axis), Hi(objs[k].box, axis), objs, k, axis, lo, hi);
    eleft[k] := Lo(objs[k].box, axis);
    eright[k] := Hi(objs[k].box, axis);
  }

  /** Two nodes an object and one more are enough. */
  method Collect(sp: SplitLists, objs: seq<Object>, axis: nat, lo: real, hi: real)
      returns (eleft: array<real>, eright: array<real>)
    requires sp.Valid() && sp.pos == [] && sp.list == [] && |sp.nodes| >= 2 * |objs| + 1
    modifies sp`splitList, sp`splitPool, sp`list, sp`pool, sp`pos,
             sp.nodes`next, sp.nodes`splitPos, sp.nodes`leftCount, sp.nodes`rightCount
    ensures sp.Valid() && sp.nodes == old(sp.nodes) && sp.Uncounted() && sp.pos == Candidates(objs, axis, lo, hi)
    ensures fresh(eleft) && fresh(eright) && Edges(eleft, eright, objs, axis, |objs|)
  {
    eleft := new real[|objs|];
    eright := new real[|objs|];
    var id := 0;
    while id < |objs|
      invariant 0 <= id <= |objs| && sp.Valid() && sp.nodes == old(sp.nodes) && sp.Uncounted()
      invariant sp.pos == Candidates(objs[..id], axis, lo, hi)
      invariant fresh(eleft) && fresh(eright) && eleft != eright && Edges(eleft, eright, objs, axis, id)
    {
      CollectOne(sp, objs, id, axis, lo, hi, eleft, eright);
      id := id + 1;
    }
    assert objs[..id] == objs;
  }

  /** The counts of one candidate. */
  method CountAt(n: SplitNode, b: Box, axis: nat, objs: seq<Object>, eleft: array<real>, eright: array<real>)
    requires Edges(eleft, eright, objs, axis, |objs|) && n.leftCount == 0 && n.rightCount == 0
    modifies n`leftCount, n`rightCount
    ensures n.leftCount == CountIn(objs, axis, LeftBox(b, axis, n.splitPos))
    ensures n.rightCount == CountIn(objs, axis, RightBox(b, axis, n.splitPos))
  {
    var l, r := LeftBox(b, axis, n.splitPos), RightBox(b, axis, n.splitPos);
    var i := 0;
    while i < |objs|
      invariant 0 <= i <= |objs|
      invariant n.leftCount == CountIn(objs[..i], axis, l) && n.rightCount == CountIn(objs[..i], axis, r)
    {
      assert objs[..i + 1][..i] == objs[..i];
      if eleft[i] <= Hi(l, axis) && eright[i] >= Lo(l, axis) {
        if Intersects(objs[i].box, l) { n.leftCount := n.leftCount + 1; }
      }
      if eleft[i] <= Hi(r, axis) && eright[i] >= Lo(r, axis) {
        if Intersects(objs[i].box, r) { n.rightCount := n.rightCount + 1; }
      }
      i := i + 1;
    }
    assert objs[..i] == objs;
  }

  ghost predicate Counted(sp: SplitLists, k: nat, b: Box, axis: nat, objs: seq<Object>)
    requires k <= |sp.list| == |sp.pos|
    reads sp, sp.list
  {
    forall j {:trigger sp.list[j]} :: 0 <= j < k ==>
      && sp.list[j].leftCount == CountIn(objs, axis, LeftBox(b, axis, sp.pos[j]))
      && sp.list[j].rightCount == CountIn(objs, axis, RightBox(b, axis, sp.pos[j]))
  }

  method CountSides(sp: SplitLists, b: Box, axis: nat, objs: seq<Object>, eleft: array<real>, eright: array<real>)
    requires sp.Valid() && sp.Uncounted() && Edges(eleft, eright, objs, axis, |objs|)
    modifies sp.nodes`leftCount, sp.nodes`rightCount
    ensures sp.Valid() && Counted(sp, |sp.list|, b, axis, objs)
  {
    var at := sp.splitList;
    ghost var k := 0;
    while at != null
      invariant 0 <= k <= |sp.list| && at == (if k < |sp.list| then sp.list[k] else null) && Counted(sp, k, b, axis, objs)
      invariant forall j {:trigger sp.list[j]} :: k <= j < |sp.list| ==> sp.list[j].leftCount == 0 && sp.list[j].rightCount == 0
      invariant sp.Valid()
      decreases |sp.list| - k
    {
      assert sp.list[k].splitPos == sp.pos[k];
      assert sp.list[k].next == if k + 1 < |sp.list| then sp.list[k + 1] else null;
      assert forall j {:trigger sp.list[j]} :: 0 <= j < |sp.list| && j != k ==> sp.list[j] != at;
      CountAt(at, b, axis, objs, eleft, eright);
      at := at.next;
      k := k + 1;
    }
  }

  /** The cheapest candidate; costs are compared only where the surface area is not 0. */
  method Choose(sp: SplitLists, b: Box, axis: nat, objs: seq<Object>) returns (c: Choice)
    requires sp.Valid() && Counted(sp, |sp.list|, b, axis, objs)
    ensures c == if SurfaceArea(b) == 0.0 then None else Cheapest(b, axis, objs, sp.pos)
  {
    c := None;
    if SurfaceArea(b) == 0.0 { return; }
    var sav := 1.0 / SurfaceArea(b);
    var at := sp.splitList;
    ghost var k := 0;
    while at != null
      invariant 0 <= k <= |sp.list| && at == (if k < |sp.list| then sp.list[k] else null)
      invariant c == Cheapest(b, axis, objs, sp.pos[..k])
      decreases |sp.list| - k
    {
      assert sp.list[k].splitPos == sp.pos[k];
      assert sp.list[k].next == if k + 1 < |sp.list| then sp.list[k + 1] else null;
      assert sp.pos[..k + 1][..k] == sp.pos[..k];
      var sa1, sa2 := SurfaceArea(LeftBox(b, axis, at.splitPos)), SurfaceArea(RightBox(b, axis, at.splitPos));
      var cost := Cost(sa1, sa2, sav, at.leftCount, at.rightCount);
      assert cost == SplitCost(b, axis, objs, sp.pos[k]);
      if cost < Min(c) { c := Best(cost, at.splitPos); }
      at := at.next;
      k := k + 1;
    }
    assert sp.pos[..k] == sp.pos;
  }

  /** The objects go to the sides whose boxes they intersect. */
  method Assign(left: KdNode, right: KdNode, objs: seq<Object>, axis: nat, l: Box, r: Box,
                eleft: array<real>, eright: array<real>) returns (leftCount: nat, rightCount: nat)
    requires left != right && left.objs == right.objs == [] && left.Holds() && right.Holds()
    requires Edges(eleft, eright, objs, axis, |objs|)
    modifies left`objList, left`objs, right`objList, right`objs
    ensures left.Holds() && right.Holds()
    ensures left.objs == Picked(objs, axis, l) && leftCount == |left.objs|
    ensures right.objs == Picked(objs, axis, r) && rightCount == |right.objs|
  {
    leftCount, rightCount := 0, 0;
    var i := 0;
    while i < |objs|
      invariant 0 <= i <= |objs|
      invariant left.Holds() && right.Holds()
      invariant left.objs == Picked(objs[..i], axis, l) && leftCount == |left.objs|
      invariant right.objs == Picked(objs[..i], axis, r) && rightCount == |right.objs|
    {
      assert objs[..i + 1][..i] == objs[..i];
      if eleft[i] <= Hi(l, axis) && eright[i] >= Lo(l, axis) {
        if Intersects(objs[i].box, l) {
          left.Add(objs[i]);
          leftCount := leftCount + 1;
        }
      }
      if eleft[i] <= Hi(r, axis) && eright[i] >= Lo(r, axis) {
        if Intersects(objs[i].box, r) {
          right.Add(objs[i]);
          rightCount := rightCount + 1;
        }
      }
      i := i + 1;
    }
    assert objs[..i] == objs;
  }

  /** The part of subdivide that decides: where to split, or not to. */
  method Decide(sp: SplitLists, b: Box, objs: seq<Object>) returns (c: Choice, eleft: array<real>, eright: array<real>)
    requires sp.Valid() && |sp.nodes| >= 2 * |objs| + 1
    modifies sp`splitList, sp`splitPool, sp`list, sp`pool, sp`pos,
             sp.nodes`next, sp.nodes`splitPos, sp.nodes`leftCount, sp.nodes`rightCount
    ensures sp.Valid() && sp.nodes == old(sp.nodes) && c == ChooseSplit(b, objs)
    ensures fresh(eleft) && fresh(eright) && Edges(eleft, eright, objs, LongestAxis(b.size), |objs|)
  {
    sp.Recycle();
    var axis := LongestAxis(b.size);
    eleft, eright := Collect(sp, objs, axis, Lo(b, axis), Hi(b, axis));
    CountSides(sp, b, axis, objs, eleft, eright);
    c := Choose(sp, b, axis, objs);
    if Min(c) > |objs| as real { c := None; }
  }

  /** The rule of the builder; a choice of its is spelt out only where it is made. */
  ghost predicate IsCostRule(rule: Rule) {
    forall b, objs {:trigger ChooseSplit(b, objs)} :: rule(b, objs) == ChooseSplit(b, objs)
  }

  lemma SubdivideIs(rule: Rule, b: Box, objs: seq<Object>, depth: nat)
    requires |objs| < MAX_OBJECTS
    ensures var c, axis := rule(b, objs), LongestAxis(b.size);
      Kd.Subdivide(rule, b, objs, depth) ==
      if c.None? then Leaf(b, objs)
      else Inner(b, objs, axis, c.split, Child(rule, LeftBox(b, axis, c.split), objs, axis, depth),
                 Child(rule, RightBox(b, axis, c.split), objs, axis, depth))
  {
  }

  /** The two children of a node, with their boxes and objects. */
  method MakeChildren(objs: seq<Object>, axis: nat, l: Box, r: Box, eleft: array<real>, eright: array<real>)
      returns (left: KdNode, right: KdNode, leftCount: nat, rightCount: nat)
    requires Edges(eleft, eright, objs, axis, |objs|)
    ensures fresh(left) && fresh(right) && left != right && left.Holds() && right.Holds()
    ensures left.leaf && left.box == l && left.objs == Picked(objs, axis, l) && leftCount == |left.objs|
    ensures right.leaf && right.box == r && right.objs == Picked(objs, axis, r) && rightCount == |right.objs|
  {
    left := new KdNode();
    right := new KdNode();
    leftCount, rightCount := Assign(left, right, objs, axis, l, r, eleft, eright);
    left.box, right.box := l, r;
  }

  method Subdivide(sp: SplitLists, node: KdNode, b: Box, depth: nat, objCount: nat, ghost rule: Rule, ghost want: Tree)
    requires IsCostRule(rule) && node.Holds() && objCount == |node.objs|
    requires sp.Valid() && |sp.nodes| >= 2 * |node.objs| + 1 && |node.objs| < MAX_OBJECTS
    requires node.box == b && depth <= MAX_TREE_DEPTH && want == Kd.Subdivide(rule, b, node.objs, depth)
    modifies node, sp`splitList, sp`splitPool, sp`list, sp`pool, sp`pos,
             sp.nodes`next, sp.nodes`splitPos, sp.nodes`leftCount, sp.nodes`rightCount
    ensures sp.Valid() && sp.nodes == old(sp.nodes)
    ensures node.Valid() && node.tree == want
    ensures forall m {:trigger m in node.repr} :: m in node.repr ==> m == node || fresh(m)
    decreases MAX_TREE_DEPTH - depth, 2
  {
    var axis := LongestAxis(b.size);
    var parray := node.ToArray(objCount);
    var objs := parray[..];
    node.axis := axis;
    var c, eleft, eright := Decide(sp, b, objs);
    SubdivideIs(rule, b, objs, depth);
    if c.None? {
      StayLeaf(sp, node);
      return;
    }
    Branch(sp, node, objs, axis, c.split, eleft, eright, depth, rule, want.left, want.right);
  }

  /** The part of subdivide that makes the node a leaf. */
  method StayLeaf(ghost sp: SplitLists, node: KdNode)
    requires sp.Valid() && node.Holds()
    modifies node`leaf, node`tree, node`repr
    ensures sp.Valid() && node.Valid() && node.repr == {node} && node.tree == Leaf(node.box, node.objs)
  {
    node.leaf := true;
    node.SealLeaf();
  }

  /** The part of subdivide that splits the node. */
  method Branch(sp: SplitLists, node: KdNode, objs: seq<Object>, axis: nat, split: real,
                eleft: array<real>, eright: array<real>, depth: nat,
                ghost rule: Rule, ghost wantLeft: Tree, ghost wantRight: Tree)
    requires IsCostRule(rule) && node.Holds() && objs == node.objs
    requires sp.Valid() && |sp.nodes| >= 2 * |node.objs| + 1 && |node.objs| < MAX_OBJECTS
    requires node.axis == axis && depth <= MAX_TREE_DEPTH && Edges(eleft, eright, objs, axis, |objs|)
    requires wantLeft == Child(rule, LeftBox(node.box, axis, split), node.objs, axis, depth)
    requires wantRight == Child(rule, RightBox(node.box, axis, split), node.objs, axis, depth)
    modifies node`split, node`left, node`right, node`leaf, node`tree, node`repr, sp`splitList, sp`splitPool, sp`list, sp`pool, sp`pos,
             sp.nodes`next, sp.nodes`splitPos, sp.nodes`leftCount, sp.nodes`rightCount
    ensures sp.Valid() && sp.nodes == old(sp.nodes)
    ensures node.Valid()
    ensures forall m {:trigger m in node.repr} :: m in node.repr ==> m == node || fresh(m)
    ensures node.tree == Inner(old(node.box), old(node.objs), axis, split, wantLeft, wantRight)
    decreases MAX_TREE_DEPTH - depth, 1
  {
    var l, r := LeftBox(node.box, axis, split), RightBox(node.box, axis, split);
    var left, right := Children(sp, objs, axis, l, r, eleft, eright, depth, rule, wantLeft, wantRight);
    ghost var made := left.repr + right.repr;
    assert forall m :: m in made ==> fresh(m);
    Unite(sp, node, left, right, split, made);
  }

  /** The children, nodes made since, become those of node. */
  method Unite(ghost sp: SplitLists, node: KdNode, left: KdNode, right: KdNode, split: real, ghost made: set<KdNode>)
    requires sp.Valid() && node.Holds() && left.Valid() && right.Valid() && left.repr !! right.repr
    requires node !in left.repr && node !in right.repr && made == left.repr + right.repr
    modifies node`split, node`left, node`right, node`leaf, node`tree, node`repr
    ensures sp.Valid() && node.Valid()
    ensures forall m {:trigger m in node.repr} :: m in node.repr ==> m == node || m in made
    ensures node.tree == Inner(node.box, node.objs, node.axis, split, old(left.tree), old(right.tree))
  {
    node.Adopt(left, right, split);
  }

  method Children(sp: SplitLists, objs: seq<Object>, axis: nat, l: Box, r: Box, eleft: array<real>, eright: array<real>,
                  depth: nat, ghost rule: Rule, ghost wantLeft: Tree, ghost wantRight: Tree)
      returns (left: KdNode, right: KdNode)
    requires IsCostRule(rule)
    requires sp.Valid() && |sp.nodes| >= 2 * |objs| + 1 && |objs| < MAX_OBJECTS
    requires depth <= MAX_TREE_DEPTH && Edges(eleft, eright, objs, axis, |objs|)
    requires wantLeft == Child(rule, l, objs, axis, depth) && wantRight == Child(rule, r, objs, axis, depth)
    modifies sp`splitList, sp`splitPool, sp`list, sp`pool, sp`pos,
             sp.nodes`next, sp.nodes`splitPos, sp.nodes`leftCount, sp.nodes`rightCount
    ensures sp.Valid() && sp.nodes == old(sp.nodes)
    ensures left.Valid() && left.tree == wantLeft && fresh(left.repr)
    ensures right.Valid() && right.tree == wantRight && fresh(right.repr) && left.repr !! right.repr
    decreases MAX_TREE_DEPTH - depth, 0, 2
  {
    var leftCount, rightCount;
    left, right, leftCount, rightCount := MakeChildren(objs, axis, l, r, eleft, eright);
    ChildIs(rule, l, objs, axis, depth);
    ChildIs(rule, r, objs, axis, depth);
    GrowBoth(sp, left, right, leftCount, rightCount, depth, rule, wantLeft, wantRight);
  }

  ghost predicate IsChild(t: Tree, rule: Rule, b: Box, objs: seq<Object>, depth: nat) {
    |objs| < MAX_OBJECTS &&
    t == if depth < MAX_TREE_DEPTH && |objs| > 2 then Kd.Subdivide(rule, b, objs, depth + 1) else Leaf(b, objs)
  }

  method GrowBoth(sp: SplitLists, left: KdNode, right: KdNode, leftCount: nat, rightCount: nat, depth: nat,
                  ghost rule: Rule, ghost wantLeft: Tree, ghost wantRight: Tree)
    requires IsCostRule(rule) && left.Holds() && right.Holds()
    requires leftCount == |left.objs| && rightCount == |right.objs|
    requires sp.Valid() && |sp.nodes| >= 2 * |left.objs| + 1 && |sp.nodes| >= 2 * |right.objs| + 1
    requires left.leaf && right.leaf && left != right && depth <= MAX_TREE_DEPTH
    requires IsChild(wantLeft, rule, left.box, left.objs, depth) && IsChild(wantRight, rule, right.box, right.objs, depth)
    modifies left, right, sp`splitList, sp`splitPool, sp`list, sp`pool, sp`pos,
             sp.nodes`next, sp.nodes`splitPos, sp.nodes`leftCount, sp.nodes`rightCount
    ensures sp.Valid() && sp.nodes == old(sp.nodes)
    ensures left.Valid() && left.tree == wantLeft
    ensures forall m {:trigger m in left.repr} :: m in left.repr ==> m == left || fresh(m)
    ensures right.Valid() && right.tree == wantRight
    ensures forall m {:trigger m in right.repr} :: m in right.repr ==> m == right || fresh(m)
    ensures left.repr !! right.repr
    decreases MAX_TREE_DEPTH - depth, 0, 1
  {
    Grow(sp, left, leftCount, depth, rule, wantLeft);
    Grow(sp, right, rightCount, depth, rule, wantRight);
  }

  lemma ChildIs(rule: Rule, b: Box, objs: seq<Object>, axis: nat, depth: nat)
    requires |objs| < MAX_OBJECTS
    ensures |Picked(objs, axis, b)| <= |objs|
    ensures IsChild(Child(rule, b, objs, axis, depth), rule, b, Picked(objs, axis, b), depth)
  {
    PickedFew(objs, axis, b);
  }

  /** A child is subdivided in turn if it is not too deep and has more than two objects. */
  method Grow(sp: SplitLists, child: KdNode, count: nat, depth: nat, ghost rule: Rule, ghost want: Tree)
    requires IsCostRule(rule) && child.Holds() && count == |child.objs|
    requires sp.Valid() && |sp.nodes| >= 2 * |child.objs| + 1
    requires child.leaf && depth <= MAX_TREE_DEPTH
    requires IsChild(want, rule, child.box, child.objs, depth)
    modifies child, sp`splitList, sp`splitPool, sp`list, sp`pool, sp`pos,
             sp.nodes`next, sp.nodes`splitPos, sp.nodes`leftCount, sp.nodes`rightCount
    ensures sp.Valid() && sp.nodes == old(sp.nodes)
    ensures child.Valid() && child.tree == want
    ensures forall m {:trigger m in child.repr} :: m in child.repr ==> m == child || fresh(m)
    decreases MAX_TREE_DEPTH - depth, 0, 0
  {
    if depth < MAX_TREE_DEPTH && count > 2 {
      Subdivide(sp, child, child.box, depth + 1, count, rule, want);
    } else {
      child.SealLeaf();
    }
  }

  /** KdTree::build */
  method Build(extends_: Box, objects: seq<Object>) returns (root: KdNode)
    requires |objects| < MAX_OBJECTS
    ensures root.Valid() && fresh(root.repr) && root.tree == Kd.Build(extends_, objects)
  {
    root := new KdNode();
    var k := 0;
    while k < |objects|
      invariant 0 <= k <= |objects| && root.Holds() && root.objs == Pushed(objects[..k]) && root.leaf
    {
      assert objects[..k + 1][..k] == objects[..k];
      root.Add(objects[k]);
      k := k + 1;
    }
    assert objects[..k] == objects;
    PushedSame(objects);
    root.box := extends_;
    var sp := new SplitLists(|objects|);
    if |objects| > 2 {
      root.leaf := false;
      Subdivide(sp, root, extends_, 0, |objects|, ChooseSplit, Kd.Subdivide(ChooseSplit, extends_, root.objs, 0));
    } else {
      root.SealLeaf();
    }
  }
}
