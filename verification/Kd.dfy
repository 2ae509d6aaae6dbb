/**
  The kd-tree over the bounding boxes of a scene, in exact real arithmetic: what the builder makes, and that
  looking in any leaf around a point agrees with looking at every object.
 */
module Kd {
  import opened KdSplits

  const MAX_TREE_DEPTH: nat := 32
  const POS_INF: real := 2147483647.0
  /** Fewer objects than this cost less, unsplit, than the cost a search for a split starts from. */
  const MAX_OBJECTS: nat := 2147483647

  // ---------------------------------------------------------------- boxes

  datatype Vec = Vec(x: real, y: real, z: real)

  function At(v: Vec, axis: nat): real {
    if axis == 0 then v.x else if axis == 1 then v.y else v.z
  }

  function Put(v: Vec, axis: nat, r: real): Vec {
    if axis == 0 then v.(x := r) else if axis == 1 then v.(y := r) else v.(z := r)
  }

  /** AABB: a corner and the extent from there. */
  datatype Box = Box(pos: Vec, size: Vec)

  function Lo(b: Box, axis: nat): real {
    At(b.pos, axis)
  }

  function Hi(b: Box, axis: nat): real {
    At(b.pos, axis) + At(b.size, axis)
  }

  /** intersectAABB: closed boxes that touch intersect. */
  predicate Intersects(a: Box, b: Box) {
    && a.pos.x + a.size.x >= b.pos.x && a.pos.x <= b.pos.x + b.size.x
    && a.pos.y + a.size.y >= b.pos.y && a.pos.y <= b.pos.y + b.size.y
    && a.pos.z + a.size.z >= b.pos.z && a.pos.z <= b.pos.z + b.size.z
  }

  /** contains */
  predicate Contains(b: Box, p: Vec) {
    && b.pos.x <= p.x <= b.pos.x + b.size.x
    && b.pos.y <= p.y <= b.pos.y + b.size.y
    && b.pos.z <= p.z <= b.pos.z + b.size.z
  }

  predicate Proper(b: Box) {
    b.size.x >= 0.0 && b.size.y >= 0.0 && b.size.z >= 0.0
  }

  function SurfaceArea(b: Box): real {
    2.0 * (b.size.x * b.size.z + b.size.x * b.size.y + b.size.z * b.size.y)
  }

  /** The axis subdivide splits: the longest one, the first of them on a tie. */
  function LongestAxis(s: Vec): nat {
    if s.x >= s.y && s.x >= s.z then 0 else if s.y >= s.x && s.y >= s.z then 1 else 2
  }

  function LeftBox(b: Box, axis: nat, split: real): Box {
    Box(b.pos, Put(b.size, axis, split - Lo(b, axis)))
  }

  function RightBox(b: Box, axis: nat, split: real): Box {
    Box(Put(b.pos, axis, split), Put(b.size, axis, Hi(b, axis) - split))
  }

  // ---------------------------------------------------------------- objects

  datatype Object = Object(id: nat, box: Box)

  /** The test with which an object is assigned to a child: first along the axis, then in full. */
  predicate Goes(o: Object, axis: nat, child: Box) {
    Lo(o.box, axis) <= Hi(child, axis) && Hi(o.box, axis) >= Lo(child, axis) && Intersects(o.box, child)
  }

  function CountIn(objs: seq<Object>, axis: nat, child: Box): nat {
    if objs == [] then 0
    else CountIn(objs[..|objs| - 1], axis, child) + if Goes(objs[|objs| - 1], axis, child) then 1 else 0
  }

  /** The list of a child: every object that goes there is pushed to the front. */
  function Picked(objs: seq<Object>, axis: nat, child: Box): seq<Object> {
    if objs == [] then []
    else
      var rest, o := Picked(objs[..|objs| - 1], axis, child), objs[|objs| - 1];
      if Goes(o, axis, child) then [o] + rest else rest
  }

  function Pushed(objs: seq<Object>): seq<Object> {
    if objs == [] then [] else [objs[|objs| - 1]] + Pushed(objs[..|objs| - 1])
  }

  // ---------------------------------------------------------------- choosing a split

  function WithEdge(pos: seq<real>, x: real, lo: real, hi: real): seq<real> {
    if lo <= x <= hi then Insert(pos, x) else pos
  }

  /** The split candidates: the edges of the objects' boxes that lie within the node's, in ascending order. */
  function Candidates(objs: seq<Object>, axis: nat, lo: real, hi: real): seq<real> {
    if objs == [] then []
    else
      var o := objs[|objs| - 1].box;
      WithEdge(WithEdge(Candidates(objs[..|objs| - 1], axis, lo, hi), Lo(o, axis), lo, hi), Hi(o, axis), lo, hi)
  }

  /** sav is 1 / surface area of the node. */
  function Cost(sa1: real, sa2: real, sav: real, leftCount: nat, rightCount: nat): real {
    0.3 + (sa1 * sav * leftCount as real + sa2 * sav * rightCount as real)
  }

  function SplitCost(b: Box, axis: nat, objs: seq<Object>, split: real): real
    requires SurfaceArea(b) != 0.0
  {
    var l, r := LeftBox(b, axis, split), RightBox(b, axis, split);
    Cost(SurfaceArea(l), SurfaceArea(r), 1.0 / SurfaceArea(b), CountIn(objs, axis, l), CountIn(objs, axis, r))
  }

  function SplitCosts(b: Box, axis: nat, objs: seq<Object>): real -> real {
    x => if SurfaceArea(b) == 0.0 then 0.0 else SplitCost(b, axis, objs, x)
  }

  datatype Choice = None | Best(min: real, split: real)

  function Min(c: Choice): real {
    if c.None? then POS_INF else c.min
  }

  /** The cheapest of the candidates, the first of them on a tie. */
  function Cheapest(b: Box, axis: nat, objs: seq<Object>, pos: seq<real>): Choice
    requires SurfaceArea(b) != 0.0
  {
    if pos == [] then None
    else
      var c, x := Cheapest(b, axis, objs, pos[..|pos| - 1]), pos[|pos| - 1];
      if SplitCost(b, axis, objs, x) < Min(c) then Best(SplitCost(b, axis, objs, x), x) else c
  }

  /** The split of a node, or none where leaving it whole costs less.  A box without surface has no cost that
      compares: 1 / 0 times 0 is not a number. */
  function ChooseSplit(b: Box, objs: seq<Object>): Choice {
    var axis := LongestAxis(b.size);
    var c := if SurfaceArea(b) == 0.0 then None
             else Cheapest(b, axis, objs, Candidates(objs, axis, Lo(b, axis), Hi(b, axis)));
    if Min(c) > |objs| as real then None else c
  }

  // ---------------------------------------------------------------- the tree

  datatype Tree =
    | Leaf(box: Box, objs: seq<Object>)
    | Inner(box: Box, objs: seq<Object>, axis: nat, split: real, left: Tree, right: Tree)

  /** A rule that says where to split a box with these objects in it, or not to. */
  type Rule = (Box, seq<Object>) -> Choice

  /** subdivide, for any rule. */
  function Subdivide(rule: Rule, b: Box, objs: seq<Object>, depth: nat): Tree
    requires |objs| < MAX_OBJECTS
    decreases MAX_TREE_DEPTH - depth
  {
    var c := rule(b, objs);
    if c.None? then Leaf(b, objs)
    else
      var axis := LongestAxis(b.size);
      var l, r := LeftBox(b, axis, c.split), RightBox(b, axis, c.split);
      Inner(b, objs, axis, c.split, Child(rule, l, objs, axis, depth), Child(rule, r, objs, axis, depth))
  }

  function Child(rule: Rule, child: Box, objs: seq<Object>, axis: nat, depth: nat): Tree
    requires |objs| < MAX_OBJECTS
    decreases MAX_TREE_DEPTH - depth, 0
  {
    PickedFew(objs, axis, child);
    var picked := Picked(objs, axis, child);
    if depth < MAX_TREE_DEPTH && |picked| > 2 then Subdivide(rule, child, picked, depth + 1) else Leaf(child, picked)
  }

  /** build */
  function Build(extends_: Box, objs: seq<Object>): Tree
    requires |objs| < MAX_OBJECTS
  {
    PushedSame(objs);
    if |objs| > 2 then Subdivide(ChooseSplit, extends_, Pushed(objs), 0) else Leaf(extends_, Pushed(objs))
  }

  lemma {:induction false} PickedFew(objs: seq<Object>, axis: nat, child: Box)
    ensures |Picked(objs, axis, child)| == CountIn(objs, axis, child) <= |objs|
  {
    if objs != [] { PickedFew(objs[..|objs| - 1], axis, child); }
  }

  lemma {:induction false} PushedSame(objs: seq<Object>)
    ensures |Pushed(objs)| == |objs|
    ensures forall o :: o in Pushed(objs) <==> o in objs
  {
    if objs != [] {
      PushedSame(objs[..|objs| - 1]);
      assert objs == objs[..|objs| - 1] + [objs[|objs| - 1]];
    }
  }

  // ---------------------------------------------------------------- boxes, splits and objects

  lemma {:induction false} PickedIs(objs: seq<Object>, axis: nat, child: Box)
    ensures forall o :: o in Picked(objs, axis, child) <==> o in objs && Intersects(o.box, child)
  {
    if objs != [] {
      PickedIs(objs[..|objs| - 1], axis, child);
      assert objs == objs[..|objs| - 1] + [objs[|objs| - 1]];
    }
  }

  ghost predicate Inside(a: Box, b: Box) {
    && b.pos.x <= a.pos.x && a.pos.x + a.size.x <= b.pos.x + b.size.x
    && b.pos.y <= a.pos.y && a.pos.y + a.size.y <= b.pos.y + b.size.y
    && b.pos.z <= a.pos.z && a.pos.z + a.size.z <= b.pos.z + b.size.z
  }

  lemma SplitBoxes(b: Box, axis: nat, split: real)
    requires Proper(b) && Lo(b, axis) <= split <= Hi(b, axis)
    ensures Proper(LeftBox(b, axis, split)) && Inside(LeftBox(b, axis, split), b)
    ensures Proper(RightBox(b, axis, split)) && Inside(RightBox(b, axis, split), b)
    ensures forall p :: Contains(b, p) <==> Contains(LeftBox(b, axis, split), p) || Contains(RightBox(b, axis, split), p)
  {
  }

  /** x is an edge of an object's box along the axis. */
  ghost predicate IsEdge(objs: seq<Object>, axis: nat, x: real) {
    exists o {:trigger o in objs} :: o in objs && (x == Lo(o.box, axis) || x == Hi(o.box, axis))
  }

  lemma EdgesOfLast(objs: seq<Object>, axis: nat, x: real)
    requires objs != []
    ensures var o := objs[|objs| - 1].box;
      IsEdge(objs, axis, x) <==> IsEdge(objs[..|objs| - 1], axis, x) || x == Lo(o, axis) || x == Hi(o, axis)
  {
    assert objs == objs[..|objs| - 1] + [objs[|objs| - 1]];
    assert objs[|objs| - 1] in objs;
    var init := objs[..|objs| - 1];
    if IsEdge(init, axis, x) {
      var q :| q in init && (x == Lo(q.box, axis) || x == Hi(q.box, axis));
      assert q in objs;
    }
    if IsEdge(objs, axis, x) {
      var q :| q in objs && (x == Lo(q.box, axis) || x == Hi(q.box, axis));
      assert q in init || q == objs[|objs| - 1];
    }
  }

  lemma WithEdgeIs(pos: seq<real>, x: real, lo: real, hi: real)
    requires Ascending(pos)
    ensures Ascending(WithEdge(pos, x, lo, hi)) && |WithEdge(pos, x, lo, hi)| <= |pos| + 1
    ensures forall y {:trigger y in WithEdge(pos, x, lo, hi)} ::
              y in WithEdge(pos, x, lo, hi) <==> y in pos || (lo <= x <= hi && y == x)
  {
    InsertIs(pos, x);
  }

  /** The candidates are exactly the edges within the range, each once, and no more than two an object. */
  lemma {:induction false} CandidatesIs(objs: seq<Object>, axis: nat, lo: real, hi: real)
    ensures Ascending(Candidates(objs, axis, lo, hi)) && |Candidates(objs, axis, lo, hi)| <= 2 * |objs|
    ensures forall x {:trigger x in Candidates(objs, axis, lo, hi)} ::
              x in Candidates(objs, axis, lo, hi) <==> lo <= x <= hi && IsEdge(objs, axis, x)
  {
    if objs != [] {
      var init, o := objs[..|objs| - 1], objs[|objs| - 1].box;
      var c := Candidates(init, axis, lo, hi);
      CandidatesIs(init, axis, lo, hi);
      WithEdgeIs(c, Lo(o, axis), lo, hi);
      WithEdgeIs(WithEdge(c, Lo(o, axis), lo, hi), Hi(o, axis), lo, hi);
      forall x ensures x in Candidates(objs, axis, lo, hi) <==> lo <= x <= hi && IsEdge(objs, axis, x) {
        EdgesOfLast(objs, axis, x);
      }
    }
  }

  /** The choice is one of the candidates, none is cheaper, and those as cheap lie to its right. */
  lemma {:induction false} CheapestIs(b: Box, axis: nat, objs: seq<Object>, pos: seq<real>)
    requires SurfaceArea(b) != 0.0 && Ascending(pos)
    ensures IsCheapest(Cheapest(b, axis, objs, pos), SplitCosts(b, axis, objs), pos)
  {
    if pos != [] {
      CheapestIs(b, axis, objs, pos[..|pos| - 1]);
      CheaperOrNot(Cheapest(b, axis, objs, pos[..|pos| - 1]), SplitCosts(b, axis, objs), pos);
    }
  }

  /** c is the minimum of cost over pos below POS_INF, leftmost on a tie, if there is any. */
  ghost predicate IsCheapest(c: Choice, cost: real -> real, pos: seq<real>) {
    && (forall x {:trigger cost(x)} :: x in pos ==> Min(c) <= cost(x))
    && (c.Best? ==> c.split in pos && c.min == cost(c.split) < POS_INF)
    && (c.Best? ==> forall x {:trigger cost(x)} :: x in pos && x < c.split ==> cost(x) > c.min)
  }

  lemma CheaperOrNot(c: Choice, cost: real -> real, pos: seq<real>)
    requires pos != [] && Ascending(pos) && IsCheapest(c, cost, pos[..|pos| - 1])
    ensures var x := pos[|pos| - 1]; IsCheapest(if cost(x) < Min(c) then Best(cost(x), x) else c, cost, pos)
  {
    var init, last := pos[..|pos| - 1], pos[|pos| - 1];
    forall x | x in pos ensures x == last || (x in init && x < last) {
      var k :| 0 <= k < |pos| && pos[k] == x;
      if k < |pos| - 1 { assert init[k] == x; }
    }
    forall x | x in init ensures x in pos {
      var k :| 0 <= k < |init| && init[k] == x;
      assert pos[k] == x;
    }
  }

  lemma ChosenSplitInside(b: Box, objs: seq<Object>)
    requires ChooseSplit(b, objs).Best?
    ensures var c, axis := ChooseSplit(b, objs), LongestAxis(b.size); Lo(b, axis) <= c.split <= Hi(b, axis)
  {
    var axis := LongestAxis(b.size);
    var pos := Candidates(objs, axis, Lo(b, axis), Hi(b, axis));
    CandidatesIs(objs, axis, Lo(b, axis), Hi(b, axis));
    CheapestIs(b, axis, objs, pos);
  }

  // ---------------------------------------------------------------- what every tree built by splitting promises

  /** Every inner node is split within its box, along any axis and wherever the cost rule says, and its objects go to
      the children whose boxes they intersect. */
  ghost predicate WellBuilt(t: Tree) {
    Proper(t.box) &&
    (t.Inner? ==>
       && Lo(t.box, t.axis) <= t.split <= Hi(t.box, t.axis)
       && t.left.box == LeftBox(t.box, t.axis, t.split) && t.right.box == RightBox(t.box, t.axis, t.split)
       && (forall o :: o in t.left.objs <==> o in t.objs && Intersects(o.box, t.left.box))
       && (forall o :: o in t.right.objs <==> o in t.objs && Intersects(o.box, t.right.box))
       && WellBuilt(t.left) && WellBuilt(t.right))
  }

  ghost predicate LeafOf(t: Tree, l: Tree) {
    if t.Leaf? then l == t else LeafOf(t.left, l) || LeafOf(t.right, l)
  }

  function Depth(t: Tree): nat {
    if t.Leaf? then 0 else 1 + if Depth(t.left) >= Depth(t.right) then Depth(t.left) else Depth(t.right)
  }

  /** The rule splits nothing but the box. */
  ghost predicate SplitsInside(rule: Rule) {
    forall b, objs {:trigger rule(b, objs)} :: rule(b, objs).Best? ==>
      Lo(b, LongestAxis(b.size)) <= rule(b, objs).split <= Hi(b, LongestAxis(b.size))
  }

  lemma {:induction false} SubdivideWellBuilt(rule: Rule, b: Box, objs: seq<Object>, depth: nat)
    requires SplitsInside(rule) && |objs| < MAX_OBJECTS && Proper(b) && depth <= MAX_TREE_DEPTH
    ensures var t := Subdivide(rule, b, objs, depth);
      WellBuilt(t) && t.box == b && t.objs == objs && Depth(t) <= MAX_TREE_DEPTH + 1 - depth
    decreases MAX_TREE_DEPTH - depth
  {
    var c := rule(b, objs);
    if c.Best? {
      var axis := LongestAxis(b.size);
      SplitBoxes(b, axis, c.split);
      ChildWellBuilt(rule, LeftBox(b, axis, c.split), objs, axis, depth);
      ChildWellBuilt(rule, RightBox(b, axis, c.split), objs, axis, depth);
      PickedIs(objs, axis, LeftBox(b, axis, c.split));
      PickedIs(objs, axis, RightBox(b, axis, c.split));
    }
  }

  lemma {:induction false} ChildWellBuilt(rule: Rule, child: Box, objs: seq<Object>, axis: nat, depth: nat)
    requires SplitsInside(rule) && |objs| < MAX_OBJECTS && Proper(child) && depth <= MAX_TREE_DEPTH
    ensures var t := Child(rule, child, objs, axis, depth);
      WellBuilt(t) && t.box == child && t.objs == Picked(objs, axis, child) && Depth(t) <= MAX_TREE_DEPTH - depth
    decreases MAX_TREE_DEPTH - depth, 0
  {
    PickedFew(objs, axis, child);
    var picked := Picked(objs, axis, child);
    if depth < MAX_TREE_DEPTH && |picked| > 2 {
      SubdivideWellBuilt(rule, child, picked, depth + 1);
      assert Child(rule, child, objs, axis, depth) == Subdivide(rule, child, picked, depth + 1);
    } else {
      assert Child(rule, child, objs, axis, depth) == Leaf(child, picked);
    }
  }

  lemma CostRuleSplitsInside()
    ensures SplitsInside(ChooseSplit)
  {
    forall b: Box, objs: seq<Object> | ChooseSplit(b, objs).Best?
      ensures Lo(b, LongestAxis(b.size)) <= ChooseSplit(b, objs).split <= Hi(b, LongestAxis(b.size))
    {
      ChosenSplitInside(b, objs);
    }
  }

  lemma BuildWellBuilt(extends_: Box, objs: seq<Object>)
    requires |objs| < MAX_OBJECTS && Proper(extends_)
    ensures var t := Build(extends_, objs);
      WellBuilt(t) && t.box == extends_ && (forall o :: o in t.objs <==> o in objs) && Depth(t) <= MAX_TREE_DEPTH + 1
  {
    PushedSame(objs);
    CostRuleSplitsInside();
    if |objs| > 2 { SubdivideWellBuilt(ChooseSplit, extends_, Pushed(objs), 0); }
  }

  /** The leaf a point falls into, left of the split where it lies on it. */
  function LeafAt(t: Tree, p: Vec): Tree {
    if t.Leaf? then t else if At(p, t.axis) <= t.split then LeafAt(t.left, p) else LeafAt(t.right, p)
  }

  /** The leaves cover the scene. */
  lemma {:induction false} LeavesCover(t: Tree, p: Vec)
    requires WellBuilt(t) && Contains(t.box, p)
    ensures LeafOf(t, LeafAt(t, p)) && LeafAt(t, p).Leaf? && Contains(LeafAt(t, p).box, p)
  {
    if t.Inner? {
      if At(p, t.axis) <= t.split { LeavesCover(t.left, p); } else { LeavesCover(t.right, p); }
    }
  }

  /** A leaf lies inside the tree's box and holds exactly the objects that intersect it; a tree that is one leaf holds
      all there are. */
  lemma {:induction false} LeafHolds(t: Tree, l: Tree)
    requires WellBuilt(t) && LeafOf(t, l)
    ensures l.Leaf? && Inside(l.box, t.box) && Proper(l.box)
    ensures forall o :: o in l.objs <==> o in t.objs && (t.Leaf? || Intersects(o.box, l.box))
  {
    if t.Inner? {
      SplitBoxes(t.box, t.axis, t.split);
      if LeafOf(t.left, l) {
        LeafHolds(t.left, l);
        InsideIntersects(l.box, t.left.box);
      } else {
        LeafHolds(t.right, l);
        InsideIntersects(l.box, t.right.box);
      }
    }
  }

  lemma InsideIntersects(a: Box, b: Box)
    requires Inside(a, b)
    ensures forall c {:trigger Intersects(c, b)} :: Intersects(c, a) ==> Intersects(c, b)
  {
  }

  /** For every point and every leaf whose box contains it, the leaf's list finds the same objects around the point
      as a look at every object of the scene. */
  lemma IndexAgrees(extends_: Box, objs: seq<Object>, l: Tree, p: Vec)
    requires |objs| < MAX_OBJECTS && Proper(extends_)
    requires LeafOf(Build(extends_, objs), l) && Contains(l.box, p)
    ensures forall o :: o in l.objs && Contains(o.box, p) <==> o in objs && Contains(o.box, p)
  {
    BuildWellBuilt(extends_, objs);
    LeafHolds(Build(extends_, objs), l);
    forall o: Object | Contains(o.box, p) ensures Intersects(o.box, l.box) {
    }
  }
}
