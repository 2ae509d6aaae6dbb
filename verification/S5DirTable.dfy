/**
  The directories of a file system, each kept as records in the bytes of a file.  Searching, entering and removing
  a record does to the map of names that the link counts are about what S5Links says.
 */
module S5DirTable {
  import opened Errno
  import opened S5File
  import opened S5Links
  import S5Dir

  /** A name as bytes and as characters. */
  function Str(b: seq<byte>): string {
    seq(|b|, i requires 0 <= i < |b| => b[i] as char)
  }

  lemma StrInjective(a: seq<byte>, b: seq<byte>)
    ensures Str(a) == Str(b) <==> a == b
  {
    if Str(a) == Str(b) {
      assert |a| == |b|;
      forall i | 0 <= i < |a| ensures a[i] == b[i] {
        assert Str(a)[i] == Str(b)[i];
        assert (a[i] as char) as int == a[i] && (b[i] as char) as int == b[i];
      }
    }
  }

  /** The map of byte names m is the map e. */
  ghost predicate Stands(m: map<seq<byte>, nat>, e: Entries) {
    && (forall b {:trigger b in m} :: b in m ==> Str(b) in e && e[Str(b)] == m[b])
    && (forall n {:trigger n in e} :: n in e ==> exists b :: b in m && Str(b) == n)
  }

  lemma StandsAt(m: map<seq<byte>, nat>, e: Entries, b: seq<byte>)
    requires Stands(m, e)
    ensures b in m <==> Str(b) in e
    ensures b in m ==> m[b] == e[Str(b)]
  {
    if Str(b) in e {
      var c :| c in m && Str(c) == Str(b);
      StrInjective(b, c);
    }
  }

  lemma StandsAdded(m: map<seq<byte>, nat>, e: Entries, b: seq<byte>, i: nat)
    requires Stands(m, e) && b !in m
    ensures Stands(m[b := i], e[Str(b) := i])
  {
    StandsAt(m, e, b);
    var e' := e[Str(b) := i];
    forall n | n in e' ensures exists c :: c in m[b := i] && Str(c) == n {
      if n == Str(b) {
        assert b in m[b := i];
      } else {
        var c :| c in m && Str(c) == n;
        assert c in m[b := i];
      }
    }
  }

  lemma StandsRemoved(m: map<seq<byte>, nat>, e: Entries, b: seq<byte>)
    requires Stands(m, e)
    ensures Stands(m - {b}, e - {Str(b)})
  {
    forall c | c in m - {b} ensures Str(c) in e - {Str(b)} {
      StrInjective(b, c);
    }
    forall n | n in e - {Str(b)} ensures exists c :: c in m - {b} && Str(c) == n {
      var c :| c in m && Str(c) == n;
      assert c in m - {b};
    }
  }

  lemma DotName(b: seq<byte>)
    ensures b == S5Dir.DOT <==> Str(b) == "."
  {
    assert Str(S5Dir.DOT) == ".";
    StrInjective(b, S5Dir.DOT);
  }

  lemma EmptyName(b: seq<byte>)
    ensures |b| == 0 <==> Str(b) == ""
  {
  }

  /** Every record of a directory has its own name. */
  lemma {:induction false} CountRecords(es: seq<S5Dir.Dirent>)
    requires S5Dir.Unique(es)
    ensures |S5Dir.DirMap(es)| == |es|
  {
    if es != [] {
      var init, last := es[..|es| - 1], S5Dir.CName(es[|es| - 1].name);
      CountRecords(init);
      S5Dir.DirMapKeys(init, last);
      assert forall k :: 0 <= k < |init| ==> S5Dir.CName(init[k].name) == S5Dir.CName(es[k].name);
      assert last !in S5Dir.DirMap(init);
      assert S5Dir.DirMap(es).Keys == S5Dir.DirMap(init).Keys + {last};
    }
  }

  lemma {:induction false} SameCount(keys: set<seq<byte>>, names: set<string>)
    requires forall b :: b in keys ==> Str(b) in names
    requires forall n :: n in names ==> exists b :: b in keys && Str(b) == n
    ensures |keys| == |names|
    decreases keys
  {
    if keys == {} {
      assert names == {};
    } else {
      var b :| b in keys;
      forall c | c in keys - {b} ensures Str(c) in names - {Str(b)} {
        StrInjective(b, c);
      }
      forall n | n in names - {Str(b)} ensures exists c :: c in keys - {b} && Str(c) == n {
        var c :| c in keys && Str(c) == n;
        assert c in keys - {b};
      }
      SameCount(keys - {b}, names - {Str(b)});
    }
  }

  /** The records of dir are the entries e. */
  ghost predicate Holds(dir: S5Dir.Directory, e: Entries)
    reads dir, dir.file
  {
    dir.Valid() && Stands(S5Dir.DirMap(dir.entries), e)
  }

  ghost predicate Apart(dir: S5Dir.Directory, other: S5Dir.Directory) {
    dir != other && dir.file != other.file
  }

  /** The directories of a file system: inode d has the records of table[d], whose map of names is dirs[d]. */
  ghost predicate Agree(table: map<nat, S5Dir.Directory>, dirs: map<nat, Entries>)
    reads set d | d in table :: table[d], set d | d in table :: table[d].file
  {
    && table.Keys == dirs.Keys
    && (forall d, d' :: d in table && d' in table && d != d' ==> Apart(table[d], table[d']))
    && (forall d :: d in table ==> Holds(table[d], dirs[d]))
  }

  /** The directories other than d, none of which shares anything with the directory dir. */
  ghost predicate Rest(table: map<nat, S5Dir.Directory>, dirs: map<nat, Entries>, d: nat, dir: S5Dir.Directory)
    reads set o | o in table && o != d :: table[o], set o | o in table && o != d :: table[o].file
  {
    && table.Keys == dirs.Keys
    && (forall o, o' :: o in table && o' in table && o != o' ==> Apart(table[o], table[o']))
    && (forall o :: o in table && o != d ==> Apart(table[o], dir) && Holds(table[o], dirs[o]))
  }

  /** The table agrees again once directory d holds what it should. */
  lemma Together(table: map<nat, S5Dir.Directory>, dirs: map<nat, Entries>, d: nat, e: Entries)
    requires d in table && Rest(table, dirs, d, table[d]) && Holds(table[d], e)
    ensures Agree(table, dirs[d := e])
  {
  }

  /** How many bytes a file can have. */
  function Capacity(ps: nat, maxBlocks: nat): nat {
    maxBlocks * ps
  }

  function Room(dir: S5Dir.Directory): nat {
    Capacity(dir.file.ps, dir.file.maxBlocks)
  }

  lemma StreamIsRoom(dir: S5Dir.Directory)
    requires dir.Valid()
    ensures |dir.file.stream| == Room(dir)
  {
    FlatLength(dir.file.pages, dir.file.ps);
  }

  /** What a new directory file holds. */
  method NewRecords(ps: nat, maxBlocks: nat) returns (dir: S5Dir.Directory)
    requires ps > 0 && ps % S5Dir.RECORD == 0 && maxBlocks > 0
    ensures Holds(dir, map[]) && fresh(dir) && fresh(dir.file) && Room(dir) == Capacity(ps, maxBlocks)
  {
    dir := new S5Dir.Directory(ps, maxBlocks);
  }

  /** s5_find_dirent on one directory. */
  method FindRecord(dir: S5Dir.Directory, ghost e: Entries, name: seq<byte>, namelen: nat) returns (r: int)
    requires Holds(dir, e) && namelen <= |name| && namelen <= S5Dir.NAME_LEN - 1
    ensures r == FindIn(e, Str(name[..namelen]))
  {
    StandsAt(S5Dir.DirMap(dir.entries), e, name[..namelen]);
    EmptyName(name[..namelen]);
    r := dir.FindDirent(name, namelen);
  }

  lemma SizeOf(dir: S5Dir.Directory, e: Entries)
    requires Holds(dir, e)
    ensures dir.file.size == RECORD * |e|
  {
    S5Dir.EncodeAllLength(dir.entries);
    CountRecords(dir.entries);
    SameCount(S5Dir.DirMap(dir.entries).Keys, e.Keys);
  }

  /** s5_link on one directory. */
  method LinkRecord(dir: S5Dir.Directory, ghost e: Entries, child: nat, name: seq<byte>, namelen: nat)
    returns (r: int, counted: bool)
    requires Holds(dir, e) && child < 0x1_0000_0000 && |name| >= S5Dir.NAME_LEN && namelen <= S5Dir.NAME_LEN - 1
    requires name[namelen] == 0 && 0 !in name[..namelen]
    modifies dir, dir.file
    ensures r < 0 <==> FindIn(e, Str(name[..namelen])) >= 0 || RECORD * |e| + RECORD >= Room(dir)
    ensures r < 0 ==> Holds(dir, e) && !counted
    ensures r >= 0 ==> r == 0 && (counted <==> Str(name[..namelen]) != ".")
    ensures r >= 0 ==> Holds(dir, e[Str(name[..namelen]) := child])
  {
    ghost var n, m := name[..namelen], S5Dir.DirMap(dir.entries);
    StandsAt(m, e, n);
    EmptyName(n);
    DotName(n);
    SizeOf(dir, e);
    StreamIsRoom(dir);
    r, counted := dir.Link(child, name, namelen);
    if r >= 0 { StandsAdded(m, e, n, child); }
  }

  /** s5_remove_dirent on one directory, up to the link count. */
  method RemoveRecord(dir: S5Dir.Directory, ghost e: Entries, name: seq<byte>, namelen: nat) returns (r: int, ino: nat)
    requires Holds(dir, e) && namelen <= |name| && namelen <= S5Dir.NAME_LEN - 1
    modifies dir, dir.file
    ensures Str(name[..namelen]) !in e ==> r == -ENOENT && Holds(dir, e)
    ensures Str(name[..namelen]) in e ==> r == 0 && ino == e[Str(name[..namelen])]
    ensures Str(name[..namelen]) in e ==> Holds(dir, e - {Str(name[..namelen])})
  {
    ghost var n, m := name[..namelen], S5Dir.DirMap(dir.entries);
    StandsAt(m, e, n);
    r, ino := dir.RemoveDirent(name, namelen);
    if r == 0 { StandsRemoved(m, e, n); }
  }

  /** The first two records of a new directory.  s5_link copies more bytes than the two names have; what comes behind
      their zeros is arbitrary. */
  method WriteDots(dir: S5Dir.Directory, d: nat, parent: nat, dot: seq<byte>, dots: seq<byte>)
    returns (r: int, counted: bool)
    requires Holds(dir, map[]) && Room(dir) > 2 * RECORD && d < 0x1_0000_0000 && parent < 0x1_0000_0000
    requires |dot| >= S5Dir.NAME_LEN && dot[0] == 46 && dot[1] == 0
    requires |dots| >= S5Dir.NAME_LEN && dots[0] == 46 && dots[1] == 46 && dots[2] == 0
    modifies dir, dir.file
    ensures r == 0 && counted && Holds(dir, NewDir(d, parent))
  {
    assert dot[..1] == [46] && Str(dot[..1]) == ".";
    assert dots[..2] == [46, 46] && Str(dots[..2]) == "..";
    ghost var e: Entries := map[];
    r, counted := LinkRecord(dir, e, d, dot, 1);
    ghost var e1: Entries := map["." := d];
    assert e["." := d] == e1;
    r, counted := LinkRecord(dir, e1, parent, dots, 2);
    assert e1[".." := parent] == NewDir(d, parent);
  }

  /** The directory s5fs_mkdir makes.  Both entries always fit, so that the errors after the first two calls of s5_link
      do not happen; only the second counts for the directory it names. */
  method MakeDirectory(table: map<nat, S5Dir.Directory>, ghost dirs: map<nat, Entries>, d: nat, parent: nat,
                       dot: seq<byte>, dots: seq<byte>, ps: nat, maxBlocks: nat)
    returns (r: int, next: map<nat, S5Dir.Directory>)
    requires Agree(table, dirs) && d !in dirs && d < 0x1_0000_0000 && parent < 0x1_0000_0000
    requires |dot| >= S5Dir.NAME_LEN && dot[0] == 46 && dot[1] == 0
    requires |dots| >= S5Dir.NAME_LEN && dots[0] == 46 && dots[1] == 46 && dots[2] == 0
    requires ps > 0 && ps % S5Dir.RECORD == 0 && maxBlocks > 0 && Capacity(ps, maxBlocks) > 2 * RECORD
    ensures r == 0 && Agree(next, dirs[d := NewDir(d, parent)])
  {
    var dir := NewRecords(ps, maxBlocks);
    var counted;
    r, counted := WriteDots(dir, d, parent, dot, dots);
    next := table[d := dir];
    Joined(table, dirs, d, dir, NewDir(d, parent));
  }

  /** One more directory, which shares nothing with the others. */
  lemma Joined(table: map<nat, S5Dir.Directory>, dirs: map<nat, Entries>, d: nat, dir: S5Dir.Directory, e: Entries)
    requires Agree(table, dirs) && d !in dirs && Holds(dir, e) && forall o :: o in table ==> Apart(table[o], dir)
    ensures Agree(table[d := dir], dirs[d := e])
  {
  }

  /** s5_find_dirent. */
  method FindDirent(table: map<nat, S5Dir.Directory>, ghost dirs: map<nat, Entries>, d: nat, name: seq<byte>,
                    namelen: nat)
    returns (r: int)
    requires Agree(table, dirs) && d in dirs && namelen <= |name| && namelen <= S5Dir.NAME_LEN - 1
    ensures r == FindIn(dirs[d], Str(name[..namelen]))
  {
    r := FindRecord(table[d], dirs[d], name, namelen);
  }

  /** The size of directory d, 32 bytes for each of its entries. */
  method DirectorySize(table: map<nat, S5Dir.Directory>, ghost dirs: map<nat, Entries>, d: nat) returns (size: nat)
    requires Agree(table, dirs) && d in dirs
    ensures size == RECORD * |dirs[d]|
  {
    SizeOf(table[d], dirs[d]);
    size := table[d].file.size;
  }

  /** s5_link, up to the link count. */
  method LinkEntry(table: map<nat, S5Dir.Directory>, ghost dirs: map<nat, Entries>, d: nat, child: nat,
                   name: seq<byte>, namelen: nat)
    returns (r: int, counted: bool)
    requires Agree(table, dirs) && d in dirs && child < 0x1_0000_0000
    requires |name| >= S5Dir.NAME_LEN && namelen <= S5Dir.NAME_LEN - 1 && name[namelen] == 0 && 0 !in name[..namelen]
    modifies table[d], table[d].file
    ensures r < 0 <==> FindIn(dirs[d], Str(name[..namelen])) >= 0 || RECORD * |dirs[d]| + RECORD >= Room(table[d])
    ensures r < 0 ==> Agree(table, dirs) && !counted
    ensures r >= 0 ==> r == 0 && (counted <==> Str(name[..namelen]) != ".")
    ensures r >= 0 ==> Agree(table, AddEntry(dirs, d, Str(name[..namelen]), child))
  {
    assert Rest(table, dirs, d, table[d]);
    r, counted := LinkRecord(table[d], dirs[d], child, name, namelen);
    ghost var e: Entries := if r < 0 then dirs[d] else dirs[d][Str(name[..namelen]) := child];
    Together(table, dirs, d, e);
  }

  /** s5_remove_dirent, up to the link count. */
  method RemoveDirent(table: map<nat, S5Dir.Directory>, ghost dirs: map<nat, Entries>, d: nat, name: seq<byte>,
                      namelen: nat)
    returns (r: int, ino: nat)
    requires Agree(table, dirs) && d in dirs && namelen <= |name| && namelen <= S5Dir.NAME_LEN - 1
    modifies table[d], table[d].file
    ensures Str(name[..namelen]) !in dirs[d] ==> r == -ENOENT && Agree(table, dirs)
    ensures Str(name[..namelen]) in dirs[d] ==> r == 0 && ino == dirs[d][Str(name[..namelen])]
    ensures Str(name[..namelen]) in dirs[d] ==> Agree(table, DropEntry(dirs, d, Str(name[..namelen])))
  {
    assert Rest(table, dirs, d, table[d]);
    r, ino := RemoveRecord(table[d], dirs[d], name, namelen);
    ghost var e: Entries := if r < 0 then dirs[d] else dirs[d] - {Str(name[..namelen])};
    Together(table, dirs, d, e);
  }
}
