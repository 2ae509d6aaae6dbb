/**
  Walking a path: dir_namev and open_namev, and the references to vnodes they take and give back.
 */
module Namev {
  import opened Errno

  const MAXPATHLEN: nat := 1024
  const NAME_LEN: nat := 28

  /** The directories there are, each with its entries; a vnode that is not in it has no lookup operation. */
  type World = map<nat, map<string, nat>>

  datatype Option<T> = None | Some(value: T)

  datatype Found = Found(v: nat) | Failed(error: int)

  // ---------------------------------------------------------------- paths

  /** The length of the component s starts with. */
  function Word(s: string): (n: nat)
    ensures n <= |s| && (forall k :: 0 <= k < n ==> s[k] != '/') && (n < |s| ==> s[n] == '/')
  {
    if s == [] || s[0] == '/' then 0 else 1 + Word(s[1..])
  }

  /** What a path is made of: the stretches between slashes that are not empty. */
  function Components(s: string): seq<string>
    decreases |s|
  {
    if s == [] then []
    else if s[0] == '/' then Components(s[1..])
    else
      assert Word(s) > 0;
      [s[..Word(s)]] + Components(s[Word(s)..])
  }

  lemma {:induction false} OnlySlashes(s: string)
    ensures Components(s) == [] <==> forall k :: 0 <= k < |s| ==> s[k] == '/'
    decreases |s|
  {
    if s != [] && s[0] == '/' {
      OnlySlashes(s[1..]);
      assert forall k :: 0 <= k < |s| - 1 ==> s[1..][k] == s[k + 1];
    }
  }

  lemma {:induction false} WordIs(s: string, n: nat)
    requires n <= |s| && (forall k :: 0 <= k < n ==> s[k] != '/') && (n < |s| ==> s[n] == '/')
    ensures Word(s) == n
  {
    if n != 0 { WordIs(s[1..], n - 1); }
  }

  function Join(cs: seq<string>): string {
    if cs == [] then "" else "/" + cs[0] + Join(cs[1..])
  }

  ghost predicate IsComponent(c: string) {
    c != "" && '/' !in c
  }

  lemma JoinStarts(cs: seq<string>)
    ensures Join(cs) != "" ==> Join(cs)[0] == '/'
  {
  }

  lemma SlashFirst(c: string, rest: string)
    requires IsComponent(c) && (rest != "" ==> rest[0] == '/')
    ensures Components("/" + c + rest) == [c] + Components(rest)
  {
    assert "/" + c + rest == "/" + (c + rest);
    FirstSlash(c + rest);
    FirstComponent(c, rest);
  }

  /** Taking a path apart gives back what it was put together from. */
  lemma {:induction false} ComponentsOfJoin(cs: seq<string>)
    requires forall k :: 0 <= k < |cs| ==> IsComponent(cs[k])
    ensures Components(Join(cs)) == cs
  {
    if cs != [] {
      ComponentsOfJoin(cs[1..]);
      JoinStarts(cs[1..]);
      SlashFirst(cs[0], Join(cs[1..]));
      FirstAndRest(cs);
    }
  }

  lemma FirstAndRest(cs: seq<string>)
    requires cs != []
    ensures [cs[0]] + cs[1..] == cs
  {
  }

  lemma FirstSlash(s: string)
    ensures Components("/" + s) == Components(s)
  {
    assert ("/" + s)[1..] == s;
  }

  lemma FirstComponent(c: string, rest: string)
    requires IsComponent(c) && (rest != "" ==> rest[0] == '/')
    ensures Components(c + rest) == [c] + Components(rest)
  {
    var s := c + rest;
    assert forall k :: 0 <= k < |c| ==> s[k] == c[k] && c[k] in c;
    WordIs(s, |c|);
    assert s[..|c|] == c && s[|c|..] == rest;
  }

  /** Slashes more at the end make no difference. */
  lemma {:induction false} TrailingSlash(s: string)
    ensures Components(s + "/") == Components(s)
    decreases |s|
  {
    if s == "" {
      assert s + "/" == "/";
      assert "/"[1..] == "";
    } else if s[0] == '/' {
      assert (s + "/")[1..] == s[1..] + "/";
      TrailingSlash(s[1..]);
    } else {
      var n := Word(s);
      WordIs(s + "/", n);
      assert (s + "/")[..n] == s[..n] && (s + "/")[n..] == s[n..] + "/";
      TrailingSlash(s[n..]);
    }
  }

  // ---------------------------------------------------------------- the walk

  /** lookup in v.  The lookup operation of the file system answers the empty name with inode 0. */
  function Look(w: World, v: nat, name: string): Found {
    if v !in w then Failed(-ENOTDIR)
    else if name == "" then Found(0)
    else if name !in w[v] then Failed(-ENOENT)
    else Found(w[v][name])
  }

  datatype Parent = Parent(v: nat, name: string) | NoParent(error: int)

  /** From v down all components but the last; the error is that of the first component that fails. */
  function Descend(w: World, v: nat, cs: seq<string>): Parent
    decreases cs
  {
    if cs == [] then Parent(v, "")
    else if |cs[0]| > NAME_LEN then NoParent(-ENAMETOOLONG)
    else if |cs| == 1 then if v in w then Parent(v, cs[0]) else NoParent(-ENOTDIR)
    else
      match Look(w, v, cs[0])
      case Failed(e) => NoParent(e)
      case Found(next) => Descend(w, next, cs[1..])
  }

  /** Where a walk may start: at the root, at a base the caller names, or in the working directory. */
  datatype Place = Place(root: nat, base: Option<nat>, cwd: nat)

  function Start(at: Place, path: string): nat {
    if path != "" && path[0] == '/' then at.root
    else if at.base.Some? then at.base.value
    else at.cwd
  }

  /** dir_namev; None is a path that is NULL. */
  function DirOf(w: World, at: Place, path: Option<string>): Parent {
    match path
    case None => NoParent(-ENOENT)
    case Some(p) =>
      if |p| >= MAXPATHLEN then NoParent(-ENAMETOOLONG) else Descend(w, Start(at, p), Components(p))
  }

  /** The whole walk, last component included; the error is that of the first component that fails. */
  function Resolve(w: World, v: nat, cs: seq<string>): Found
    decreases cs
  {
    if cs == [] then Found(v)
    else if |cs[0]| > NAME_LEN then Failed(-ENAMETOOLONG)
    else
      match Look(w, v, cs[0])
      case Failed(e) => Failed(e)
      case Found(next) => Resolve(w, next, cs[1..])
  }

  function ResolvePath(w: World, at: Place, path: Option<string>): Found {
    match path
    case None => Failed(-ENOENT)
    case Some(p) =>
      if |p| >= MAXPATHLEN then Failed(-ENAMETOOLONG) else Resolve(w, Start(at, p), Components(p))
  }

  /** What dir_namev returns is where all components but the last lead, and a directory; it fails exactly where one of
      them fails, the last component is too long, or where they lead is no directory. */
  lemma {:induction false} DescendIsResolve(w: World, v: nat, cs: seq<string>)
    requires cs != []
    ensures var parent, last := Resolve(w, v, cs[..|cs| - 1]), cs[|cs| - 1];
      Descend(w, v, cs) ==
        if parent.Failed? then NoParent(parent.error)
        else if |last| > NAME_LEN then NoParent(-ENAMETOOLONG)
        else if parent.v !in w then NoParent(-ENOTDIR)
        else Parent(parent.v, last)
    decreases cs
  {
    if |cs| > 1 {
      assert cs[..|cs| - 1][0] == cs[0] && cs[..|cs| - 1][1..] == cs[1..][..|cs| - 2];
      if Look(w, v, cs[0]).Found? { DescendIsResolve(w, Look(w, v, cs[0]).v, cs[1..]); }
    }
  }

  /** What open_namev does once it has the directory; made is what the create operation of the directory returns,
      a vnode or an error. */
  function OpenIn(w: World, p: nat, name: string, create: bool, made: int): Found {
    match Look(w, p, name)
    case Found(v) => Found(v)
    case Failed(e) =>
      if e == -ENOENT && create then if made < 0 then Failed(made) else Found(made)
      else Failed(e)
  }

  function OpenPath(w: World, at: Place, path: Option<string>, create: bool, made: int): Found {
    match DirOf(w, at, path)
    case NoParent(e) => Failed(e)
    case Parent(p, name) => OpenIn(w, p, name, create, made)
  }

  function WithEntry(w: World, p: nat, name: string, v: nat): World
    requires p in w
  {
    var e: map<string, nat> := w[p][name := v];
    w[p := e]
  }

  /** The directories with the entry that create adds. */
  function AfterOpen(w: World, at: Place, path: Option<string>, create: bool, made: int): World {
    match DirOf(w, at, path)
    case NoParent(_) => w
    case Parent(p, name) =>
      if Look(w, p, name) == Failed(-ENOENT) && create && made >= 0 then WithEntry(w, p, name, made) else w
  }

  lemma {:induction false} DescendFails(w: World, v: nat, cs: seq<string>)
    ensures Descend(w, v, cs).NoParent? ==> Descend(w, v, cs).error < 0
    decreases cs
  {
    if |cs| > 1 && Look(w, v, cs[0]).Found? { DescendFails(w, Look(w, v, cs[0]).v, cs[1..]); }
  }

  lemma ErrorsNegative(w: World, at: Place, path: Option<string>, create: bool, made: int)
    ensures OpenPath(w, at, path, create, made).Failed? ==> OpenPath(w, at, path, create, made).error < 0
  {
    if path.Some? { DescendFails(w, Start(at, path.value), Components(path.value)); }
  }

  lemma {:induction false} OpenDescends(w: World, v: nat, cs: seq<string>)
    requires cs != []
    ensures Resolve(w, v, cs) == match Descend(w, v, cs)
                                 case NoParent(e) => Failed(e)
                                 case Parent(p, name) => Look(w, p, name)
    decreases cs
  {
    if |cs| > 1 {
      if Look(w, v, cs[0]).Found? { OpenDescends(w, Look(w, v, cs[0]).v, cs[1..]); }
    } else {
      assert cs[1..] == [];
    }
  }

  /** Opening a path without creating anything finds what the walk along all its components finds, error for error,
      exactly if it is rejected at once, has a component, or starts at inode 0: a path of slashes alone, or an empty
      one, leads to inode 0 wherever it starts. */
  lemma OpenIsResolveIff(w: World, at: Place, path: Option<string>)
    ensures OpenPath(w, at, path, false, 0) == ResolvePath(w, at, path)
            <==> || path == None || |path.value| >= MAXPATHLEN
                 || (exists k :: 0 <= k < |path.value| && path.value[k] != '/')
                 || (Start(at, path.value) == 0 && 0 in w)
  {
    if path.Some? && |path.value| < MAXPATHLEN {
      OnlySlashes(path.value);
      if Components(path.value) != [] { OpenDescends(w, Start(at, path.value), Components(path.value)); }
    }
  }

  /** Opening "" in a directory other than the root gives the root, inode 0, and not that directory. */
  lemma OpenOfNothing()
    ensures var w, at := map[0 := map["sub" := 1], 1 := map[".." := 0]], Place(0, None, 1);
      OpenPath(w, at, Some(""), false, 0) == Found(0) && ResolvePath(w, at, Some("")) == Found(1)
  {
  }

  lemma {:induction false} DescendAfter(w: World, v: nat, cs: seq<string>, p: nat, name: string, made: nat)
    requires p in w && name !in w[p] && name != "" && Descend(w, v, cs).Parent?
    ensures Descend(WithEntry(w, p, name, made), v, cs) == Descend(w, v, cs)
    decreases cs
  {
    if |cs| > 1 {
      assert Look(w, v, cs[0]).Found?;
      DescendAfter(w, Look(w, v, cs[0]).v, cs[1..], p, name, made);
    }
  }

  /** What was opened once, created or not, is found again under the same path, without O_CREAT too; and a path
      that could not be opened has left no entry behind. */
  lemma OpenAgain(w: World, at: Place, path: Option<string>, create: bool, made: int, create': bool, made': int)
    ensures var w', r := AfterOpen(w, at, path, create, made), OpenPath(w, at, path, create, made);
      && (r.Found? ==> OpenPath(w', at, path, create', made') == r && AfterOpen(w', at, path, create', made') == w')
      && (r.Failed? ==> w' == w)
  {
    match DirOf(w, at, path)
    case NoParent(_) =>
    case Parent(p, name) =>
      if Look(w, p, name) == Failed(-ENOENT) && create && made >= 0 {
        DescendAfter(w, Start(at, path.value), Components(path.value), p, name, made);
      }
  }

  lemma NextComponent(path: string, i: nat, end: nat)
    requires i < end <= |path| && (end < |path| ==> path[end] == '/')
    requires forall k :: i <= k < end ==> path[k] != '/'
    ensures Components(path[i..]) == [path[i..end]] + Components(path[end..])
  {
    WordIs(path[i..], end - i);
    Cut(path, i, end);
  }

  lemma Cut(path: string, i: nat, end: nat)
    requires i <= end <= |path|
    ensures path[i..][..end - i] == path[i..end] && path[i..][end - i..] == path[end..]
  {
  }

  lemma SlashesLeft(path: string, end: nat, slash: nat)
    requires end <= slash <= |path| && (slash < |path| ==> path[slash] != '/')
    requires forall k :: end <= k < slash ==> path[k] == '/'
    ensures slash == |path| <==> Components(path[end..]) == []
  {
    OnlySlashes(path[end..]);
    if slash < |path| { assert path[end..][slash - end] != '/'; }
  }

  class Vfs {
    const root: nat
    /** The working directory of the process. */
    const cwd: nat
    var world: World
    /** The references held to each vnode. */
    var refs: multiset<nat>

    constructor (root: nat, cwd: nat, world: World)
      ensures this.root == root && this.cwd == cwd && this.world == world && refs == multiset{}
    {
      this.root, this.cwd, this.world, refs := root, cwd, world, multiset{};
    }

    method Vref(v: nat)
      modifies `refs
      ensures refs == old(refs) + multiset{v}
    {
      refs := refs + multiset{v};
    }

    method Vput(v: nat)
      requires v in refs
      modifies `refs
      ensures refs == old(refs) - multiset{v}
    {
      refs := refs - multiset{v};
    }

    /** lookup: the vnode found comes with a reference. */
    method Lookup(dir: nat, name: string) returns (r: Found)
      modifies `refs
      ensures r == Look(world, dir, name)
      ensures refs == old(refs) + if r.Found? then multiset{r.v} else multiset{}
    {
      if dir !in world { return Failed(-ENOTDIR); }
      if name == "" {
        Vref(0);
        return Found(0);
      }
      if name !in world[dir] { return Failed(-ENOENT); }
      Vref(world[dir][name]);
      return Found(world[dir][name]);
    }

    /** Gives back the reference to v that came on top of base. */
    method PutBack(v: nat, ghost base: multiset<nat>)
      requires refs == base + multiset{v}
      modifies `refs
      ensures refs == base
    {
      Vput(v);
    }

    /** From parent to the vnode its entry names; the reference moves along. */
    method Enter(parent: nat, name: string, ghost base: multiset<nat>) returns (next: Found)
      requires refs == base + multiset{parent}
      modifies `refs
      ensures next == Look(world, parent, name)
      ensures refs == base + if next.Found? then multiset{next.v} else multiset{}
    {
      next := Lookup(parent, name);
      PutBack(parent, base + if next.Found? then multiset{next.v} else multiset{});
    }

    /** The component that starts at i: where it ends, and whether only slashes follow it. */
    method Scan(path: string, i: nat) returns (end: nat, last: bool)
      requires i < |path| && path[i] != '/'
      ensures i < end <= |path| && Components(path[i..]) == [path[i..end]] + Components(path[end..])
      ensures last <==> Components(path[end..]) == []
    {
      end := i + 1;
      while end < |path| && path[end] != '/'
        invariant i < end <= |path| && forall k :: i <= k < end ==> path[k] != '/'
      {
        end := end + 1;
      }
      var slash := end;
      while slash < |path| && path[slash] == '/'
        invariant end <= slash <= |path| && forall k :: end <= k < slash ==> path[k] == '/'
      {
        slash := slash + 1;
      }
      last := slash == |path|;
      NextComponent(path, i, end);
      SlashesLeft(path, end, slash);
    }

    /** dir_namev.  Success leaves one reference more, on the directory returned; failure leaves none. */
    method DirNamev(pathname: Option<string>, base: Option<nat>) returns (r: Parent)
      modifies `refs
      ensures r == DirOf(world, Place(root, base, cwd), pathname)
      ensures refs == old(refs) + if r.Parent? then multiset{r.v} else multiset{}
    {
      if pathname == None { return NoParent(-ENOENT); }
      var path := pathname.value;
      if |path| >= MAXPATHLEN { return NoParent(-ENAMETOOLONG); }
      var parent: nat;
      if path != "" && path[0] == '/' {
        parent := root;
      } else if base.Some? {
        parent := base.value;
      } else {
        parent := cwd;
      }
      r := Walk(path, parent);
    }

    /** The loop of dir_namev. */
    method Walk(path: string, start: nat) returns (r: Parent)
      modifies `refs
      ensures r == Descend(world, start, Components(path))
      ensures refs == old(refs) + if r.Parent? then multiset{r.v} else multiset{}
    {
      var parent := start;
      ghost var before := refs;
      Vref(parent);
      var i := 0;
      assert path[0..] == path;
      while i < |path|
        invariant 0 <= i <= |path| && refs == before + multiset{parent}
        invariant Descend(world, parent, Components(path[i..])) == Descend(world, start, Components(path))
      {
        if path[i] == '/' {
          assert path[i..][1..] == path[i + 1..];
          i := i + 1;
        } else {
          var end, last := Scan(path, i);
          var name := path[i..end];
          ghost var cs := Components(path[i..]);
          assert cs[0] == name && cs[1..] == Components(path[end..]);
          i := end;
          if |name| > NAME_LEN {
            PutBack(parent, before);
            return NoParent(-ENAMETOOLONG);
          }
          if last {
            if parent !in world {
              PutBack(parent, before);
              return NoParent(-ENOTDIR);
            }
            return Parent(parent, name);
          }
          var next := Enter(parent, name, before);
          if next.Failed? { return NoParent(next.error); }
          parent := next.v;
        }
      }
      assert path[i..] == [];
      return Parent(parent, "");
    }

    /** The create operation of a directory, where it succeeds: an entry for the new vnode, which comes with a
        reference. */
    method Create(dir: nat, name: string, made: nat)
      requires dir in world
      modifies `refs, `world
      ensures refs == old(refs) + multiset{made} && world == WithEntry(old(world), dir, name, made)
    {
      world := WithEntry(world, dir, name, made);
      Vref(made);
    }

    /** open_namev; made is what the directory's create operation returns if it is called. */
    method OpenNamev(path: Option<string>, base: Option<nat>, create: bool, made: int) returns (r: Found)
      modifies `refs, `world
      ensures r == OpenPath(old(world), Place(root, base, cwd), path, create, made)
      ensures world == AfterOpen(old(world), Place(root, base, cwd), path, create, made)
      ensures refs == old(refs) + if r.Found? then multiset{r.v} else multiset{}
    {
      ghost var before := refs;
      var dir := DirNamev(path, base);
      if dir.NoParent? { return Failed(dir.error); }
      r := OpenEntry(dir.v, dir.name, create, made, before);
    }

    /** The rest of open_namev, which holds a reference to the directory. */
    method OpenEntry(dir: nat, name: string, create: bool, made: int, ghost before: multiset<nat>) returns (r: Found)
      requires refs == before + multiset{dir}
      modifies `refs, `world
      ensures r == OpenIn(old(world), dir, name, create, made)
      ensures world == if Look(old(world), dir, name) == Failed(-ENOENT) && create && made >= 0
                       then WithEntry(old(world), dir, name, made) else old(world)
      ensures refs == before + if r.Found? then multiset{r.v} else multiset{}
    {
      var target := Lookup(dir, name);
      if target.Found? {
        PutBack(dir, before + multiset{target.v});
        return target;
      }
      if target.error == -ENOENT && create {
        if made < 0 {
          PutBack(dir, before);
          return Failed(made);
        }
        Create(dir, name, made);
        PutBack(dir, before + multiset{made});
        return Found(made);
      }
      PutBack(dir, before);
      return Failed(target.error);
    }
  }
}
