/**
  The walk along a path as a chain of directory entries: where it starts, what it finds, and which component stops it.
 */
module NamevWalk {
  import opened Errno
  import opened Namev

  /** The directory v has an entry c, of a name that is not too long, for x. */
  ghost predicate Step(w: World, v: nat, c: string, x: nat) {
    |c| <= NAME_LEN && v in w && c in w[v] && w[v][c] == x
  }

  /** Each component leads from one vnode of the chain to the next. */
  ghost predicate Chain(w: World, vs: seq<nat>, cs: seq<string>) {
    |vs| == |cs| + 1 && forall k {:trigger cs[k]} :: 0 <= k < |cs| ==> Step(w, vs[k], cs[k], vs[k + 1])
  }

  /** Component c is too long, or looked up in something that is no directory, or not there. */
  ghost predicate Stops(w: World, v: nat, c: string, e: int) {
    if |c| > NAME_LEN then e == -ENAMETOOLONG
    else if v !in w then e == -ENOTDIR
    else c !in w[v] && e == -ENOENT
  }

  ghost predicate Reaches(w: World, v: nat, cs: seq<string>, x: nat) {
    exists vs :: Chain(w, vs, cs) && vs[0] == v && vs[|cs|] == x
  }

  /** The first j components lead somewhere, and component j stops there with error e. */
  ghost predicate FailsAt(w: World, v: nat, cs: seq<string>, j: nat, e: int) {
    j < |cs| && exists x :: Reaches(w, v, cs[..j], x) && Stops(w, x, cs[j], e)
  }

  ghost predicate Named(cs: seq<string>) {
    forall k {:trigger cs[k]} :: 0 <= k < |cs| ==> cs[k] != ""
  }

  lemma ReachesNothing(w: World, v: nat, x: nat)
    ensures Reaches(w, v, [], x) <==> x == v
  {
    if x == v { assert Chain(w, [v], []) && [v][0] == v; }
  }

  lemma ReachesNext(w: World, v: nat, cs: seq<string>, x: nat)
    requires cs != []
    ensures Reaches(w, v, cs, x) <==> v in w && cs[0] in w[v] && |cs[0]| <= NAME_LEN && Reaches(w, w[v][cs[0]], cs[1..], x)
  {
    if Reaches(w, v, cs, x) {
      var vs :| Chain(w, vs, cs) && vs[0] == v && vs[|cs|] == x;
      assert Step(w, vs[0], cs[0], vs[1]);
      forall k | 0 <= k < |cs[1..]| ensures Step(w, vs[1..][k], cs[1..][k], vs[1..][k + 1]) {
        assert Step(w, vs[k + 1], cs[k + 1], vs[k + 2]);
      }
      assert Chain(w, vs[1..], cs[1..]) && vs[1..][0] == w[v][cs[0]];
    }
    if v in w && cs[0] in w[v] && |cs[0]| <= NAME_LEN && Reaches(w, w[v][cs[0]], cs[1..], x) {
      var vs :| Chain(w, vs, cs[1..]) && vs[0] == w[v][cs[0]] && vs[|cs| - 1] == x;
      forall k | 0 <= k < |cs| ensures Step(w, ([v] + vs)[k], cs[k], ([v] + vs)[k + 1]) {
        if k > 0 { assert Step(w, vs[k - 1], cs[1..][k - 1], vs[k]); }
      }
      assert Chain(w, [v] + vs, cs) && ([v] + vs)[0] == v && ([v] + vs)[|cs|] == x;
    }
  }

  /** The walk finds exactly where the components lead. */
  lemma {:induction false} ResolveFinds(w: World, v: nat, cs: seq<string>, x: nat)
    requires Named(cs)
    ensures Resolve(w, v, cs) == Found(x) <==> Reaches(w, v, cs, x)
    decreases cs
  {
    if cs == [] {
      ReachesNothing(w, v, x);
    } else {
      ReachesNext(w, v, cs, x);
      assert Named(cs[1..]);
      if v in w && cs[0] in w[v] { ResolveFinds(w, w[v][cs[0]], cs[1..], x); }
    }
  }

  /** It fails with the error of the first component that stops it. */
  lemma {:induction false} ResolveFails(w: World, v: nat, cs: seq<string>) returns (j: nat)
    requires Named(cs) && Resolve(w, v, cs).Failed?
    ensures FailsAt(w, v, cs, j, Resolve(w, v, cs).error)
    decreases cs
  {
    if |cs[0]| > NAME_LEN || v !in w || cs[0] !in w[v] {
      j := 0;
      ReachesNothing(w, v, v);
      assert cs[..0] == [] && Stops(w, v, cs[0], Resolve(w, v, cs).error);
    } else {
      assert Named(cs[1..]);
      var i := ResolveFails(w, w[v][cs[0]], cs[1..]);
      j := i + 1;
      var x :| Reaches(w, w[v][cs[0]], cs[1..][..i], x) && Stops(w, x, cs[1..][i], Resolve(w, v, cs).error);
      assert cs[..j][1..] == cs[1..][..i] && cs[..j][0] == cs[0];
      ReachesNext(w, v, cs[..j], x);
    }
  }

  lemma {:induction false} ComponentsNamed(s: string)
    ensures Named(Components(s))
    decreases |s|
  {
    if s != "" {
      if s[0] == '/' { ComponentsNamed(s[1..]); } else { ComponentsNamed(s[Word(s)..]); }
    }
  }

  // ---------------------------------------------------------------- where a walk starts

  /** A path that begins with a slash starts at the root, whatever else is given; any other at the base, or, where there
      is none, in the working directory. */
  ghost predicate StartsAt(at: Place, path: string, v: nat) {
    v == if |path| > 0 && path[0] == '/' then at.root
         else match at.base { case Some(b) => b case None => at.cwd }
  }

  /** dir_namev: where it looks from, and the two paths it does not look at. */
  lemma DirNamevStarts(w: World, at: Place, path: Option<string>, v: nat)
    ensures path == None ==> DirOf(w, at, path) == NoParent(-ENOENT)
    ensures path.Some? && |path.value| >= MAXPATHLEN ==> DirOf(w, at, path) == NoParent(-ENAMETOOLONG)
    ensures path.Some? && |path.value| < MAXPATHLEN && StartsAt(at, path.value, v) ==>
      DirOf(w, at, path) == Descend(w, v, Components(path.value))
  {
  }

  /** dir_namev returns the directory to which all components but the last lead, with that last component. */
  lemma DirNamevIs(w: World, at: Place, path: string, v: nat, p: nat, name: string)
    requires |path| < MAXPATHLEN && StartsAt(at, path, v) && Components(path) != []
    ensures var cs := Components(path);
      DirOf(w, at, Some(path)) == Parent(p, name) <==>
        Reaches(w, v, cs[..|cs| - 1], p) && p in w && name == cs[|cs| - 1] && |name| <= NAME_LEN
  {
    var cs := Components(path);
    DirNamevStarts(w, at, Some(path), v);
    DescendIsResolve(w, v, cs);
    ComponentsNamed(path);
    assert Named(cs[..|cs| - 1]);
    ResolveFinds(w, v, cs[..|cs| - 1], p);
  }

  /** Where it returns none, the error is that of the first component that stops the walk: the last one stops it too if
      it is too long, or if what the others lead to is no directory. */
  lemma DirNamevFails(w: World, at: Place, path: string, v: nat) returns (j: nat)
    requires |path| < MAXPATHLEN && StartsAt(at, path, v) && Components(path) != []
    requires DirOf(w, at, Some(path)).NoParent?
    ensures FailsAt(w, v, Components(path), j, DirOf(w, at, Some(path)).error)
  {
    var cs := Components(path);
    var n := |cs| - 1;
    DirNamevStarts(w, at, Some(path), v);
    DescendIsResolve(w, v, cs);
    ComponentsNamed(path);
    assert Named(cs[..n]);
    if Resolve(w, v, cs[..n]).Failed? {
      j := ResolveFails(w, v, cs[..n]);
      assert cs[..n][..j] == cs[..j];
    } else {
      j := n;
      ResolveFinds(w, v, cs[..n], Resolve(w, v, cs[..n]).v);
      assert Stops(w, Resolve(w, v, cs[..n]).v, cs[n], DirOf(w, at, Some(path)).error);
    }
  }

  /** A path of no components: dir_namev returns where it starts, with an empty name, and open_namev inode 0. */
  lemma NothingIs(w: World, at: Place, path: string, v: nat, create: bool, made: int)
    requires |path| < MAXPATHLEN && StartsAt(at, path, v) && forall k :: 0 <= k < |path| ==> path[k] == '/'
    ensures DirOf(w, at, Some(path)) == Parent(v, "")
    ensures OpenPath(w, at, Some(path), create, made) == if v in w then Found(0) else Failed(-ENOTDIR)
    ensures AfterOpen(w, at, Some(path), create, made) == w
  {
    OnlySlashes(path);
  }

  /** open_namev without O_CREAT: it finds what all components lead to, or fails with the error of the component that
      stops the walk. */
  lemma OpenNamevIs(w: World, at: Place, path: string, v: nat, made: int, x: nat)
    requires |path| < MAXPATHLEN && StartsAt(at, path, v) && Components(path) != []
    ensures OpenPath(w, at, Some(path), false, made) == Found(x) <==> Reaches(w, v, Components(path), x)
    ensures OpenPath(w, at, Some(path), false, made).Failed? ==>
      exists j :: FailsAt(w, v, Components(path), j, OpenPath(w, at, Some(path), false, made).error)
    ensures AfterOpen(w, at, Some(path), false, made) == w
  {
    ComponentsNamed(path);
    DirNamevStarts(w, at, Some(path), v);
    OpenDescends(w, v, Components(path));
    ResolveFinds(w, v, Components(path), x);
    if Resolve(w, v, Components(path)).Failed? { var j := ResolveFails(w, v, Components(path)); }
  }

  /** With O_CREAT, in the directory p the path leads to: an entry that is there is found, and one that is not is made,
      or the error with which it could not be made comes back; and nothing but that entry changes. */
  lemma CreateIs(w: World, at: Place, path: string, made: int, p: nat, name: string)
    requires DirOf(w, at, Some(path)) == Parent(p, name) && name != "" && p in w
    ensures var w', r := AfterOpen(w, at, Some(path), true, made), OpenPath(w, at, Some(path), true, made);
      if name in w[p] then r == Found(w[p][name]) && w' == w
      else if made < 0 then r == Failed(made) && w' == w
      else
        && r == Found(made) && Step'(w', p, name, made)
        && (forall q: nat :: q in w' <==> q in w)
        && (forall q: nat, m: string, x: nat {:trigger Step'(w', q, m, x)} :: (q, m) != (p, name) ==>
              (Step'(w', q, m, x) <==> Step'(w, q, m, x)))
  {
  }

  ghost predicate Step'(w: World, v: nat, c: string, x: nat) {
    v in w && c in w[v] && w[v][c] == x
  }
}
