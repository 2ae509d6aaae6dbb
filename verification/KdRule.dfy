/**
  When the builder splits a node, and where: the surface-area rule written out over the boxes and the objects of the
  scene, for every node of the tree it builds.
 */
module KdRule {
  import opened Kd
  import opened KdSplits

  /** The extent along axis is the longest, and the first of the longest. */
  ghost predicate IsLongest(s: Vec, axis: nat) {
    || (axis == 0 && s.x >= s.y && s.x >= s.z)
    || (axis == 1 && s.y > s.x && s.y >= s.z)
    || (axis == 2 && s.z > s.x && s.z > s.y)
  }

  /** The surface area of a box with extents s. */
  ghost function Area(s: Vec): real {
    2.0 * s.x * s.y + 2.0 * s.y * s.z + 2.0 * s.z * s.x
  }

  /** The part of b on the low side of the plane at x across the axis. */
  ghost function Low(b: Box, axis: nat, x: real): Box {
    Box(b.pos,
        if axis == 0 then Vec(x - b.pos.x, b.size.y, b.size.z)
        else if axis == 1 then Vec(b.size.x, x - b.pos.y, b.size.z)
        else Vec(b.size.x, b.size.y, x - b.pos.z))
  }

  /** And the part on the high side. */
  ghost function High(b: Box, axis: nat, x: real): Box {
    if axis == 0 then
      Box(Vec(x, b.pos.y, b.pos.z), Vec(b.pos.x + b.size.x - x, b.size.y, b.size.z))
    else if axis == 1 then
      Box(Vec(b.pos.x, x, b.pos.z), Vec(b.size.x, b.pos.y + b.size.y - x, b.size.z))
    else
      Box(Vec(b.pos.x, b.pos.y, x), Vec(b.size.x, b.size.y, b.pos.z + b.size.z - x))
  }

  /** Two boxes have a point in common. */
  ghost predicate Meet(a: Box, b: Box) {
    exists p :: Contains(a, p) && Contains(b, p)
  }

  /** Closed boxes intersect exactly if they have a point in common. */
  lemma IntersectsIs(a: Box, b: Box)
    requires Proper(a) && Proper(b)
    ensures Intersects(a, b) <==> Meet(a, b)
  {
    if Intersects(a, b) {
      var p := Vec(Larger(a.pos.x, b.pos.x), Larger(a.pos.y, b.pos.y), Larger(a.pos.z, b.pos.z));
      assert Contains(a, p) && Contains(b, p);
    }
  }

  function Larger(x: real, y: real): real {
    if x >= y then x else y
  }

  /** The objects that intersect box c, by their places. */
  ghost function Hit(objs: seq<Object>, c: Box): set<nat> {
    set k: nat | k < |objs| && Intersects(objs[k].box, c)
  }

  lemma {:induction false} CountIs(objs: seq<Object>, axis: nat, c: Box)
    ensures CountIn(objs, axis, c) == |Hit(objs, c)|
  {
    if objs == [] {
      assert Hit(objs, c) == {};
    } else {
      var init, k := objs[..|objs| - 1], |objs| - 1;
      CountIs(init, axis, c);
      assert Hit(objs, c) == Hit(init, c) + if Intersects(objs[k].box, c) then {k} else {};
    }
  }

  /** Two parts of the areas a1 and a2 of a box of area s, with n1 and n2 objects. */
  ghost function Weighed(a1: real, a2: real, s: real, n1: nat, n2: nat): real
    requires s != 0.0
  {
    0.3 + (a1 * n1 as real + a2 * n2 as real) / s
  }

  /** What splitting b at x costs. */
  ghost function Price(b: Box, axis: nat, objs: seq<Object>, x: real): real
    requires Area(b.size) != 0.0
  {
    var l, r := Low(b, axis, x), High(b, axis, x);
    Weighed(Area(l.size), Area(r.size), Area(b.size), |Hit(objs, l)|, |Hit(objs, r)|)
  }

  /** x is where the box of an object begins or ends along the axis, and within b. */
  ghost predicate EdgeWithin(b: Box, axis: nat, objs: seq<Object>, x: real) {
    if axis == 0 then
      b.pos.x <= x <= b.pos.x + b.size.x
      && exists o {:trigger o in objs} :: o in objs && (x == o.box.pos.x || x == o.box.pos.x + o.box.size.x)
    else if axis == 1 then
      b.pos.y <= x <= b.pos.y + b.size.y
      && exists o {:trigger o in objs} :: o in objs && (x == o.box.pos.y || x == o.box.pos.y + o.box.size.y)
    else
      b.pos.z <= x <= b.pos.z + b.size.z
      && exists o {:trigger o in objs} :: o in objs && (x == o.box.pos.z || x == o.box.pos.z + o.box.size.z)
  }

  /** Splitting b at x does not cost more than the objects one by one. */
  ghost predicate Pays(b: Box, axis: nat, objs: seq<Object>, x: real) {
    Area(b.size) != 0.0 && EdgeWithin(b, axis, objs, x) && Price(b, axis, objs, x) <= |objs| as real
  }

  /** Of all places x is the cheapest, and the lowest of the cheapest. */
  ghost predicate Leftmost(b: Box, axis: nat, objs: seq<Object>, x: real)
    requires Area(b.size) != 0.0
  {
    forall y {:trigger EdgeWithin(b, axis, objs, y)} :: EdgeWithin(b, axis, objs, y) ==>
      && Price(b, axis, objs, x) <= Price(b, axis, objs, y)
      && (y < x ==> Price(b, axis, objs, x) < Price(b, axis, objs, y))
  }

  /** A node at the given depth, and all nodes below it, are split exactly where it pays, as cheaply as possible. */
  ghost predicate Decided(t: Tree, depth: nat) {
    && (t.Inner? <==>
          && |t.objs| > 2 && depth <= MAX_TREE_DEPTH
          && exists a: nat, x: real :: IsLongest(t.box.size, a) && Pays(t.box, a, t.objs, x))
    && (t.Inner? ==>
          && IsLongest(t.box.size, t.axis) && Pays(t.box, t.axis, t.objs, t.split)
          && Leftmost(t.box, t.axis, t.objs, t.split)
          && t.left.box == Low(t.box, t.axis, t.split) && t.right.box == High(t.box, t.axis, t.split)
          && |t.left.objs| == |Hit(t.objs, t.left.box)| && |t.right.objs| == |Hit(t.objs, t.right.box)|
          && Decided(t.left, depth + 1) && Decided(t.right, depth + 1))
  }

  // ---------------------------------------------------------------- the rule of the builder

  lemma LongestIs(s: Vec)
    ensures IsLongest(s, LongestAxis(s)) && forall a: nat :: IsLongest(s, a) ==> a == LongestAxis(s)
  {
  }

  lemma PartsAre(b: Box, axis: nat, x: real)
    requires axis <= 2
    ensures LeftBox(b, axis, x) == Low(b, axis, x) && RightBox(b, axis, x) == High(b, axis, x)
  {
  }

  lemma AreaIs(b: Box)
    ensures SurfaceArea(b) == Area(b.size)
  {
  }

  lemma EdgesAre(b: Box, axis: nat, objs: seq<Object>, x: real)
    requires axis <= 2
    ensures EdgeWithin(b, axis, objs, x) <==> x in Candidates(objs, axis, Lo(b, axis), Hi(b, axis))
  {
    CandidatesIs(objs, axis, Lo(b, axis), Hi(b, axis));
  }

  lemma Cancel(x: real, y: real, s: real)
    requires x * s == y * s && s != 0.0
    ensures x == y
  {
    assert (x - y) * s == 0.0;
  }

  lemma CostIs(a1: real, a2: real, s: real, n1: nat, n2: nat)
    requires s != 0.0
    ensures Cost(a1, a2, 1.0 / s, n1, n2) == Weighed(a1, a2, s, n1, n2)
  {
    var v, m1, m2 := 1.0 / s, n1 as real, n2 as real;
    assert v * s == 1.0;
    var left, top := a1 * v * m1 + a2 * v * m2, a1 * m1 + a2 * m2;
    assert left * s == top by { Regroup(a1, a2, v, s, m1, m2); }
    assert (top / s) * s == top;
    Cancel(left, top / s, s);
  }

  lemma Regroup(a1: real, a2: real, v: real, s: real, m1: real, m2: real)
    requires v * s == 1.0
    ensures (a1 * v * m1 + a2 * v * m2) * s == a1 * m1 + a2 * m2
  {
    assert a1 * v * m1 * s == a1 * m1 * (v * s);
    assert a2 * v * m2 * s == a2 * m2 * (v * s);
  }

  lemma PriceIs(b: Box, axis: nat, objs: seq<Object>, x: real)
    requires axis <= 2 && Area(b.size) != 0.0
    ensures SurfaceArea(b) == Area(b.size) && SplitCost(b, axis, objs, x) == Price(b, axis, objs, x)
  {
    var l, r := Low(b, axis, x), High(b, axis, x);
    PartsAre(b, axis, x);
    AreaIs(b);
    AreaIs(l);
    AreaIs(r);
    CountIs(objs, axis, l);
    CountIs(objs, axis, r);
    SplitCostIs(b, axis, objs, x, l, r);
    CostIs(SurfaceArea(l), SurfaceArea(r), SurfaceArea(b), |Hit(objs, l)|, |Hit(objs, r)|);
  }

  lemma SplitCostIs(b: Box, axis: nat, objs: seq<Object>, x: real, l: Box, r: Box)
    requires SurfaceArea(b) != 0.0 && l == LeftBox(b, axis, x) && r == RightBox(b, axis, x)
    ensures SplitCost(b, axis, objs, x)
      == Cost(SurfaceArea(l), SurfaceArea(r), 1.0 / SurfaceArea(b), CountIn(objs, axis, l), CountIn(objs, axis, r))
  {
  }

  /** What the builder's rule answers, in those terms. */
  lemma RuleIs(b: Box, objs: seq<Object>)
    requires |objs| < MAX_OBJECTS
    ensures var c, a := ChooseSplit(b, objs), LongestAxis(b.size);
      && (c.Best? <==> exists x :: Pays(b, a, objs, x))
      && (c.Best? ==> Pays(b, a, objs, c.split) && Leftmost(b, a, objs, c.split))
  {
    var c, a := ChooseSplit(b, objs), LongestAxis(b.size);
    AreaIs(b);
    if Area(b.size) != 0.0 {
      var pos := Candidates(objs, a, Lo(b, a), Hi(b, a));
      var best := Cheapest(b, a, objs, pos);
      CandidatesIs(objs, a, Lo(b, a), Hi(b, a));
      CheapestIs(b, a, objs, pos);
      forall x ensures EdgeWithin(b, a, objs, x) <==> x in pos { EdgesAre(b, a, objs, x); }
      forall x ensures SplitCosts(b, a, objs)(x) == Price(b, a, objs, x) { PriceIs(b, a, objs, x); }
      BestPays(b, a, objs, pos, best);
    }
  }

  lemma BestPays(b: Box, a: nat, objs: seq<Object>, pos: seq<real>, best: Choice)
    requires Area(b.size) != 0.0 && |objs| < MAX_OBJECTS && IsCheapest(best, SplitCosts(b, a, objs), pos)
    requires forall x {:trigger EdgeWithin(b, a, objs, x)} :: EdgeWithin(b, a, objs, x) <==> x in pos
    requires forall x {:trigger SplitCosts(b, a, objs)(x)} :: SplitCosts(b, a, objs)(x) == Price(b, a, objs, x)
    ensures var c := if Min(best) > |objs| as real then None else best;
      && (c.Best? <==> exists x :: Pays(b, a, objs, x))
      && (c.Best? ==> Pays(b, a, objs, c.split) && Leftmost(b, a, objs, c.split))
  {
    var cost := SplitCosts(b, a, objs);
    if best.Best? {
      assert cost(best.split) == Price(b, a, objs, best.split) && EdgeWithin(b, a, objs, best.split);
    }
    forall y | EdgeWithin(b, a, objs, y)
      ensures Min(best) <= Price(b, a, objs, y)
      ensures best.Best? && y < best.split ==> Price(b, a, objs, best.split) < Price(b, a, objs, y)
    {
      assert cost(y) == Price(b, a, objs, y);
    }
    if Min(best) > |objs| as real {
      forall y ensures !Pays(b, a, objs, y) { }
    } else {
      assert best.Best?;
      assert Pays(b, a, objs, best.split);
    }
  }

  lemma SplitsWhere(b: Box, objs: seq<Object>)
    requires |objs| < MAX_OBJECTS
    ensures ChooseSplit(b, objs).Best? <==> exists a: nat, x: real :: IsLongest(b.size, a) && Pays(b, a, objs, x)
  {
    var a := LongestAxis(b.size);
    RuleIs(b, objs);
    LongestIs(b.size);
    if ChooseSplit(b, objs).Best? {
      assert IsLongest(b.size, a) && Pays(b, a, objs, ChooseSplit(b, objs).split);
    }
  }

  /** Every subtree the builder makes. */
  lemma {:induction false} SubdivideDecides(b: Box, objs: seq<Object>, depth: nat)
    requires 2 < |objs| < MAX_OBJECTS && depth <= MAX_TREE_DEPTH
    ensures Decided(Subdivide(ChooseSplit, b, objs, depth), depth)
    ensures var t := Subdivide(ChooseSplit, b, objs, depth); t.box == b && t.objs == objs
    decreases MAX_TREE_DEPTH - depth
  {
    var c, a := ChooseSplit(b, objs), LongestAxis(b.size);
    SplitsWhere(b, objs);
    RuleIs(b, objs);
    LongestIs(b.size);
    if c.Best? {
      PartsAre(b, a, c.split);
      ChildDecides(LeftBox(b, a, c.split), objs, a, depth);
      ChildDecides(RightBox(b, a, c.split), objs, a, depth);
    }
  }

  lemma {:induction false} ChildDecides(child: Box, objs: seq<Object>, axis: nat, depth: nat)
    requires |objs| < MAX_OBJECTS && depth <= MAX_TREE_DEPTH
    ensures var t := Child(ChooseSplit, child, objs, axis, depth);
      Decided(t, depth + 1) && t.box == child && |t.objs| == |Hit(objs, child)|
    decreases MAX_TREE_DEPTH - depth, 0
  {
    PickedCount(objs, axis, child);
    var picked := Picked(objs, axis, child);
    if depth < MAX_TREE_DEPTH && |picked| > 2 {
      SubdivideDecides(child, picked, depth + 1);
      assert Child(ChooseSplit, child, objs, axis, depth) == Subdivide(ChooseSplit, child, picked, depth + 1);
    } else {
      LeafDecides(child, picked, depth + 1);
      assert Child(ChooseSplit, child, objs, axis, depth) == Leaf(child, picked);
    }
  }

  lemma PickedCount(objs: seq<Object>, axis: nat, child: Box)
    ensures |Picked(objs, axis, child)| == |Hit(objs, child)| <= |objs|
  {
    PickedFew(objs, axis, child);
    CountIs(objs, axis, child);
  }

  lemma LeafDecides(b: Box, objs: seq<Object>, depth: nat)
    requires |objs| <= 2 || depth > MAX_TREE_DEPTH
    ensures Decided(Leaf(b, objs), depth)
  {
  }

  /** The tree of a scene: which nodes are split, and where, is decided by the surface-area rule alone. */
  lemma BuildDecides(extends_: Box, objs: seq<Object>)
    requires |objs| < MAX_OBJECTS
    ensures Decided(Build(extends_, objs), 0)
    ensures Build(extends_, objs).box == extends_ && multiset(Build(extends_, objs).objs) == multiset(objs)
  {
    PushedSame(objs);
    PushedIs(objs);
    if |objs| > 2 { SubdivideDecides(extends_, Pushed(objs), 0); } else { LeafDecides(extends_, Pushed(objs), 0); }
  }

  lemma {:induction false} PushedIs(objs: seq<Object>)
    ensures multiset(Pushed(objs)) == multiset(objs)
  {
    if objs != [] {
      PushedIs(objs[..|objs| - 1]);
      assert objs == objs[..|objs| - 1] + [objs[|objs| - 1]];
    }
  }
}
