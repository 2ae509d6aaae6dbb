/**
  A directory: fixed-size records in the bytes of a file.  It refines a map from names to inode numbers.
 */
module S5Dir {
  import opened Errno
  import opened S5File

  const NAME_LEN: nat := 28
  const RECORD: nat := 32
  const DOT: seq<byte> := [46]

  /** s5_dirent_t; name is the whole S5_NAME_LEN-byte field. */
  datatype Dirent = Dirent(ino: nat, name: seq<byte>)

  // ---------------------------------------------------------------- records

  function LowByte(n: nat): byte {
    n % 256
  }

  function LittleEndian(n: nat): seq<byte> {
    [LowByte(n), LowByte(n / 256), LowByte(n / 65536), LowByte(n / 16777216)]
  }

  function FromLittleEndian(b: seq<byte>): nat
    requires |b| == 4
  {
    b[0] as int + 256 * (b[1] as int) + 65536 * (b[2] as int) + 16777216 * (b[3] as int)
  }

  function Encode(d: Dirent): seq<byte> {
    LittleEndian(d.ino) + d.name
  }

  function Decode(b: seq<byte>): Dirent
    requires |b| == RECORD
  {
    Dirent(FromLittleEndian(b[..4]), b[4..])
  }

  /** The C string a field holds: the bytes before the first NUL. */
  function CName(field: seq<byte>): seq<byte> {
    if field == [] || field[0] == 0 then [] else [field[0]] + CName(field[1..])
  }

  /** name_match: strlen(field) == namelen and the first namelen bytes agree. */
  predicate NameMatch(field: seq<byte>, name: seq<byte>, namelen: nat)
    requires namelen <= |name|
  {
    |CName(field)| == namelen && CName(field) == name[..namelen]
  }

  ghost predicate DirentOk(d: Dirent) {
    d.ino < 0x1_0000_0000 && |d.name| == NAME_LEN && CName(d.name) != [] && 0 in d.name
  }

  lemma RecordRoundTrip(d: Dirent)
    requires DirentOk(d)
    ensures |Encode(d)| == RECORD && Decode(Encode(d)) == d
  {
    LittleEndianRoundTrip(d.ino);
    FieldsOf(LittleEndian(d.ino), d.name);
  }

  /** The number of the inode lies in the first four bytes, the lowest byte first, and the name after it. */
  lemma RecordLayout(d: Dirent, i: nat)
    requires DirentOk(d)
    ensures var e := Encode(d);
      && |e| == 32 && d.ino == e[0] as int + 0x100 * (e[1] as int) + 0x1_0000 * (e[2] as int) + 0x100_0000 * (e[3] as int)
      && (i < 28 ==> e[4 + i] == d.name[i])
  {
    LittleEndianRoundTrip(d.ino);
  }

  lemma LittleEndianRoundTrip(n: nat)
    requires n < 0x1_0000_0000
    ensures FromLittleEndian(LittleEndian(n)) == n
  {
    var a, b, c := n / 256, n / 65536, n / 16777216;
    assert b == a / 256 && c == b / 256 && c < 256;
  }

  lemma FieldsOf(number: seq<byte>, name: seq<byte>)
    requires |number| == 4
    ensures (number + name)[..4] == number && (number + name)[4..] == name
  {
  }

  /** A name buffer whose string has namelen bytes. */
  lemma {:induction false} CNameOfBuffer(b: seq<byte>, namelen: nat)
    requires namelen < |b| && b[namelen] == 0 && 0 !in b[..namelen]
    ensures CName(b) == b[..namelen]
  {
    if namelen != 0 {
      assert b[0] == b[..namelen][0] && b[1..][..namelen - 1] == b[..namelen][1..];
      CNameOfBuffer(b[1..], namelen - 1);
    }
  }

  /** A field matches a name of namelen bytes if it begins with those bytes and its first NUL follows them. */
  lemma {:induction false} NameMatchIs(field: seq<byte>, name: seq<byte>, namelen: nat)
    requires 0 in field && namelen <= |name|
    ensures NameMatch(field, name, namelen) <==>
            namelen < |field| && field[..namelen] == name[..namelen] && 0 !in name[..namelen] && field[namelen] == 0
  {
    var n := FirstNul(field);
    CNameOfBuffer(field, n);
    if NameMatch(field, name, namelen) {
      assert namelen == n;
    } else if namelen < |field| && field[..namelen] == name[..namelen] && 0 !in name[..namelen] && field[namelen] == 0 {
      CNameOfBuffer(field, namelen);
    }
  }

  lemma {:induction false} FirstNul(field: seq<byte>) returns (n: nat)
    requires 0 in field
    ensures n < |field| && field[n] == 0 && 0 !in field[..n]
  {
    if field[0] == 0 {
      n := 0;
    } else {
      var m := FirstNul(field[1..]);
      n := m + 1;
      assert field[..n] == [field[0]] + field[1..][..m];
    }
  }

  /** The record s5_link makes of a name. */
  lemma NewDirent(child: nat, name: seq<byte>, namelen: nat)
    requires child < 0x1_0000_0000 && 0 < namelen <= NAME_LEN - 1 && |name| >= NAME_LEN
    requires name[namelen] == 0 && 0 !in name[..namelen]
    ensures var d := Dirent(child, name[..NAME_LEN]);
      DirentOk(d) && CName(d.name) == name[..namelen] && |Encode(d)| == RECORD
  {
    var field := name[..NAME_LEN];
    assert field[..namelen] == name[..namelen] && field[namelen] == 0;
    CNameOfBuffer(field, namelen);
    RecordRoundTrip(Dirent(child, field));
  }

  // ---------------------------------------------------------------- the bytes of a directory

  function EncodeAll(es: seq<Dirent>): seq<byte> {
    if es == [] then [] else EncodeAll(es[..|es| - 1]) + Encode(es[|es| - 1])
  }

  ghost predicate AllOk(es: seq<Dirent>) {
    forall k :: 0 <= k < |es| ==> DirentOk(es[k])
  }

  lemma {:induction false} EncodeAllAt(es: seq<Dirent>, k: nat)
    requires AllOk(es) && k < |es|
    ensures |EncodeAll(es)| == RECORD * |es|
    ensures EncodeAll(es)[RECORD * k..RECORD * k + RECORD] == Encode(es[k])
  {
    var init, last := es[..|es| - 1], es[|es| - 1];
    EncodeAllLength(init);
    if k < |es| - 1 {
      EncodeAllAt(init, k);
      SliceOfFirst(EncodeAll(init), Encode(last), RECORD * k, RECORD * k + RECORD);
    } else {
      SliceOfSecond(EncodeAll(init), Encode(last));
    }
  }

  lemma SliceOfFirst(a: seq<byte>, b: seq<byte>, i: nat, j: nat)
    requires i <= j <= |a|
    ensures (a + b)[i..j] == a[i..j]
  {
  }

  lemma SliceOfSecond(a: seq<byte>, b: seq<byte>)
    ensures (a + b)[|a|..|a| + |b|] == b
  {
  }

  lemma {:induction false} EncodeAllLength(es: seq<Dirent>)
    requires AllOk(es)
    ensures |EncodeAll(es)| == RECORD * |es|
  {
    if es != [] { EncodeAllLength(es[..|es| - 1]); }
  }

  lemma {:induction false} EncodeAllUpdate(es: seq<Dirent>, k: nat, d: Dirent)
    requires AllOk(es) && k < |es| && DirentOk(d)
    ensures |EncodeAll(es)| == RECORD * |es|
    ensures EncodeAll(es[k := d]) == Splice(EncodeAll(es), RECORD * k, Encode(d))
  {
    var init, last := es[..|es| - 1], es[|es| - 1];
    EncodeAllLength(init);
    if k == |es| - 1 {
      assert es[k := d][..|es| - 1] == init;
    } else {
      assert es[k := d][..|es| - 1] == init[k := d];
      EncodeAllUpdate(init, k, d);
      SpliceLeft(EncodeAll(init), Encode(last), RECORD * k, Encode(d));
    }
  }

  lemma SpliceLeft(a: seq<byte>, b: seq<byte>, at: nat, d: seq<byte>)
    requires at + |d| <= |a|
    ensures Splice(a, at, d) + b == Splice(a + b, at, d)
  {
  }

  lemma EncodeAllSnoc(es: seq<Dirent>, d: Dirent)
    ensures EncodeAll(es + [d]) == EncodeAll(es) + Encode(d)
  {
    assert (es + [d])[..|es|] == es;
  }

  // ---------------------------------------------------------------- the map a directory stands for

  function DirMap(es: seq<Dirent>): map<seq<byte>, nat> {
    if es == [] then map[]
    else DirMap(es[..|es| - 1])[CName(es[|es| - 1].name) := es[|es| - 1].ino]
  }

  ghost predicate Unique(es: seq<Dirent>) {
    forall i, j :: 0 <= i < j < |es| ==> CName(es[i].name) != CName(es[j].name)
  }

  /** The map has exactly the names that occur. */
  lemma {:induction false} DirMapKeys(es: seq<Dirent>, n: seq<byte>)
    ensures n in DirMap(es) <==> exists k :: 0 <= k < |es| && CName(es[k].name) == n
  {
    if es != [] {
      var init := es[..|es| - 1];
      DirMapKeys(init, n);
      if n in DirMap(init) {
        var k :| 0 <= k < |init| && CName(init[k].name) == n;
        assert CName(es[k].name) == n;
      }
      if k :| 0 <= k < |es| && CName(es[k].name) == n && k < |es| - 1 {
        assert CName(init[k].name) == n;
      }
    }
  }

  lemma {:induction false} DirMapAt(es: seq<Dirent>, k: nat)
    requires Unique(es) && k < |es|
    ensures CName(es[k].name) in DirMap(es) && DirMap(es)[CName(es[k].name)] == es[k].ino
  {
    if k < |es| - 1 {
      var init := es[..|es| - 1];
      DirMapAt(init, k);
      assert CName(es[k].name) != CName(es[|es| - 1].name);
    }
  }

  /** The last entry moved into the hole at k. */
  function Removed(es: seq<Dirent>, k: nat): seq<Dirent>
    requires k < |es|
  {
    es[k := es[|es| - 1]][..|es| - 1]
  }

  lemma RemovedUnique(es: seq<Dirent>, k: nat)
    requires Unique(es) && AllOk(es) && k < |es|
    ensures Unique(Removed(es, k)) && AllOk(Removed(es, k))
  {
    var rs, last := Removed(es, k), |es| - 1;
    forall i, j | 0 <= i < j < |rs| ensures CName(rs[i].name) != CName(rs[j].name) {
      var i', j' := if i == k then last else i, if j == k then last else j;
      assert rs[i] == es[i'] && rs[j] == es[j'];
    }
  }

  /** A record with a name that the map has. */
  lemma IndexOf(es: seq<Dirent>, n: seq<byte>) returns (i: nat)
    requires n in DirMap(es)
    ensures i < |es| && CName(es[i].name) == n
  {
    DirMapKeys(es, n);
    i :| 0 <= i < |es| && CName(es[i].name) == n;
  }

  /** Where record i of the compacted directory was before. */
  lemma RemovedFrom(es: seq<Dirent>, k: nat, i: nat) returns (j: nat)
    requires k < |es| && i < |es| - 1
    ensures |Removed(es, k)| == |es| - 1 && j < |es| && j != k && Removed(es, k)[i] == es[j]
  {
    j := if i == k then |es| - 1 else i;
  }

  /** Where a record that stays is afterwards. */
  lemma RemovedTo(es: seq<Dirent>, k: nat, i: nat) returns (j: nat)
    requires k < |es| && i < |es| && i != k
    ensures j < |Removed(es, k)| && Removed(es, k)[j] == es[i]
  {
    j := if i == |es| - 1 then k else i;
  }

  lemma UniqueAt(es: seq<Dirent>, j: nat, k: nat)
    requires Unique(es) && j < |es| && k < |es| && j != k
    ensures CName(es[j].name) != CName(es[k].name)
  {
  }

  lemma RemovedAt(es: seq<Dirent>, k: nat, n: seq<byte>)
    requires Unique(es) && AllOk(es) && k < |es| && n in DirMap(Removed(es, k))
    ensures n in DirMap(es) && n != CName(es[k].name) && DirMap(Removed(es, k))[n] == DirMap(es)[n]
  {
    RemovedUnique(es, k);
    var i := IndexOf(Removed(es, k), n);
    var j := RemovedFrom(es, k, i);
    DirMapAt(Removed(es, k), i);
    DirMapAt(es, j);
    UniqueAt(es, j, k);
  }

  lemma KeyOf(es: seq<Dirent>, j: nat)
    requires j < |es|
    ensures CName(es[j].name) in DirMap(es)
  {
    DirMapKeys(es, CName(es[j].name));
  }

  lemma KeptAt(es: seq<Dirent>, k: nat, n: seq<byte>)
    requires k < |es| && n in DirMap(es) && n != CName(es[k].name)
    ensures n in DirMap(Removed(es, k))
  {
    var i := IndexOf(es, n);
    var j := RemovedTo(es, k, i);
    KeyOf(Removed(es, k), j);
  }

  /** Moving the last record into the hole deletes one pair from the map and keeps the rest. */
  lemma RemovedMap(es: seq<Dirent>, k: nat)
    requires Unique(es) && AllOk(es) && k < |es|
    ensures DirMap(Removed(es, k)) == DirMap(es) - {CName(es[k].name)}
  {
    forall n | n in DirMap(Removed(es, k))
      ensures n in DirMap(es) && n != CName(es[k].name) && DirMap(Removed(es, k))[n] == DirMap(es)[n]
    {
      RemovedAt(es, k, n);
    }
    forall n | n in DirMap(es) && n != CName(es[k].name) ensures n in DirMap(Removed(es, k)) {
      KeptAt(es, k, n);
    }
    OneLess(DirMap(es), CName(es[k].name), DirMap(Removed(es, k)));
  }

  lemma OneLess<K, V>(m: map<K, V>, key: K, m': map<K, V>)
    requires forall n :: n in m' ==> n in m && n != key && m'[n] == m[n]
    requires forall n :: n in m && n != key ==> n in m'
    ensures m' == m - {key}
  {
  }

  lemma AddedMap(es: seq<Dirent>, d: Dirent)
    requires Unique(es) && CName(d.name) !in DirMap(es)
    ensures Unique(es + [d]) && DirMap(es + [d]) == DirMap(es)[CName(d.name) := d.ino]
  {
    DirMapKeys(es, CName(d.name));
    assert (es + [d])[..|es|] == es;
  }

  // ---------------------------------------------------------------- reading records

  /** Reading one aligned record stays in reach of s5_read_file, also when the record ends its block. */
  lemma RecordInReach(ps: nat, size: nat, k: nat)
    requires ps > 0 && ps % RECORD == 0 && RECORD * k + RECORD <= size
    ensures ReadInReach(ps, size, RECORD * k, RECORD)
  {
    var at, q := RECORD * k, RECORD * k / ps;
    BlockFacts(at, at + RECORD, ps, 0);
    AlignedBoundary(ps, q + 1);
    NextAligned(at, (q + 1) * ps);
    EndsByBoundary(at + RECORD, ps, q + 1);
  }

  lemma AlignedBoundary(ps: nat, q: nat)
    requires ps % RECORD == 0
    ensures (q * ps) % RECORD == 0
  {
    var m := ps / RECORD;
    Regroup(q, m);
    assert q * ps == RECORD * (q * m);
  }

  lemma Regroup(q: nat, m: nat)
    ensures q * (RECORD * m) == RECORD * (q * m)
  {
  }

  lemma NextAligned(at: nat, boundary: int)
    requires at % RECORD == 0 && boundary % RECORD == 0 && at < boundary
    ensures at + RECORD <= boundary
  {
  }

  /** What ends at a block boundary at the latest ends in that block or at the start of the next. */
  lemma EndsByBoundary(end: nat, ps: nat, q: nat)
    requires ps > 0 && end <= q * ps
    ensures end / ps <= q
  {
    MulNext(q, ps);
    DivBelow(end, ps, q + 1);
  }

  lemma PromisedRecord(flat: seq<byte>, ps: nat, size: nat, es: seq<Dirent>, k: nat)
    requires ps > 0 && ps % RECORD == 0 && AllOk(es) && size < |flat| && flat[..size] == EncodeAll(es) && k <= |es|
    ensures Promised(flat, size, RECORD * k, RECORD) == if k == |es| then Count(0, []) else Count(RECORD, Encode(es[k]))
    ensures size == RECORD * |es| && ReadInReach(ps, size, RECORD * k, RECORD)
  {
    EncodeAllLength(es);
    if k < |es| {
      RecordInReach(ps, size, k);
      EncodeAllAt(es, k);
      assert flat[RECORD * k..RECORD * k + RECORD] == flat[..size][RECORD * k..RECORD * k + RECORD];
    }
  }

  /** The bytes left after the last record is copied over record k and cut off. */
  lemma MovedBytes(es: seq<Dirent>, k: nat)
    requires AllOk(es) && k < |es|
    ensures var c, n := EncodeAll(es), RECORD * (|es| - 1);
      && |c| == n + RECORD
      && Splice(c, RECORD * k, c[n..])[..n] == EncodeAll(Removed(es, k))
  {
    LastRecord(es);
    RemovedOk(es, k);
    EncodeAllLength(Removed(es, k));
    MovedThenLast(es, k);
    FirstPart(EncodeAll(Removed(es, k)), Encode(es[|es| - 1]));
  }

  lemma MovedThenLast(es: seq<Dirent>, k: nat)
    requires AllOk(es) && k < |es|
    ensures |EncodeAll(es)| == RECORD * |es|
    ensures Splice(EncodeAll(es), RECORD * k, Encode(es[|es| - 1]))
         == EncodeAll(Removed(es, k)) + Encode(es[|es| - 1])
  {
    EncodeAllUpdate(es, k, es[|es| - 1]);
    RemovedThenLast(es, k);
    EncodeAllSnoc(Removed(es, k), es[|es| - 1]);
  }

  lemma RemovedThenLast(es: seq<Dirent>, k: nat)
    requires k < |es|
    ensures Removed(es, k) + [es[|es| - 1]] == es[k := es[|es| - 1]]
  {
  }

  lemma FirstPart(a: seq<byte>, b: seq<byte>)
    ensures (a + b)[..|a|] == a
  {
  }

  lemma RemovedOk(es: seq<Dirent>, k: nat)
    requires AllOk(es) && k < |es|
    ensures AllOk(Removed(es, k)) && |Removed(es, k)| == |es| - 1
  {
  }

  /** The last record is what comes behind all the others. */
  lemma LastRecord(es: seq<Dirent>)
    requires AllOk(es) && es != []
    ensures |EncodeAll(es)| == RECORD * |es| && EncodeAll(es)[RECORD * (|es| - 1)..] == Encode(es[|es| - 1])
  {
    var init := es[..|es| - 1];
    EncodeAllLength(init);
    SliceOfSecond(EncodeAll(init), Encode(es[|es| - 1]));
    EncodeAllLength(es);
  }

  // ---------------------------------------------------------------- the operations

  class Directory {
    const file: VnodeFile
    ghost var entries: seq<Dirent>

    ghost predicate Valid()
      reads this, file
    {
      && file.Valid() && file.ps % RECORD == 0 && file.size < |file.stream|
      && AllOk(entries) && Unique(entries)
      && file.Contents() == EncodeAll(entries)
    }

    /** An empty directory file. */
    constructor (ps: nat, maxBlocks: nat)
      requires ps > 0 && ps % RECORD == 0 && maxBlocks > 0
      ensures Valid() && entries == [] && fresh(file) && file.ps == ps && file.maxBlocks == maxBlocks
    {
      file := new VnodeFile(ps, maxBlocks);
      entries := [];
      new;
      MulStep(0, maxBlocks, ps);
    }

    /** Reads record k, or finds that it is past the end. */
    method ReadRecord(k: nat) returns (end: bool, record: Dirent)
      requires Valid() && k <= |entries|
      ensures file.size == RECORD * |entries| && (end <==> k == |entries|)
      ensures !end ==> record == entries[k]
    {
      PromisedRecord(file.stream, file.ps, file.size, entries, k);
      var read := file.Read(RECORD * k, RECORD);
      end, record := read.n == 0, Dirent(0, []);
      if !end {
        RecordRoundTrip(entries[k]);
        record := Decode(read.data);
      }
    }

    /** Finds the record with the given name, as both searching loops of the source do: k is its
        index, or none is found and k is the number of records. */
    method Search(name: seq<byte>, namelen: nat) returns (k: nat, record: Dirent)
      requires Valid() && namelen <= |name|
      ensures k <= |entries| && file.size == RECORD * |entries|
      ensures k < |entries| ==> record == entries[k] && CName(record.name) == name[..namelen]
      ensures k == |entries| ==> name[..namelen] !in DirMap(entries)
    {
      k, record := 0, Dirent(0, []);
      while true
        invariant k <= |entries|
        invariant forall j :: 0 <= j < k ==> CName(entries[j].name) != name[..namelen]
        decreases |entries| - k
      {
        var end: bool;
        end, record := ReadRecord(k);
        if end {
          DirMapKeys(entries, name[..namelen]);
          return;
        }
        if NameMatch(record.name, name, namelen) {
          return;
        }
        k := k + 1;
      }
    }

    /** s5_find_dirent. */
    method FindDirent(name: seq<byte>, namelen: nat) returns (r: int)
      requires Valid() && namelen <= |name| && namelen <= NAME_LEN - 1
      ensures namelen == 0 ==> r == 0
      ensures namelen != 0 && name[..namelen] in DirMap(entries) ==> r == DirMap(entries)[name[..namelen]]
      ensures namelen != 0 && name[..namelen] !in DirMap(entries) ==> r == -ENOENT
    {
      if namelen == 0 {
        return 0;
      }
      var k, record := Search(name, namelen);
      if RECORD * k == file.size {
        return -ENOENT;
      }
      DirMapAt(entries, k);
      return record.ino;
    }

    /** s5_remove_dirent up to the link count of the inode it names, which is returned in ino. */
    method RemoveDirent(name: seq<byte>, namelen: nat) returns (r: int, ino: nat)
      requires Valid() && namelen <= |name| && namelen <= NAME_LEN - 1
      modifies this, file
      ensures Valid()
      ensures name[..namelen] !in old(DirMap(entries)) ==> r == -ENOENT && entries == old(entries)
      ensures name[..namelen] in old(DirMap(entries)) ==>
        && r == 0 && ino == old(DirMap(entries))[name[..namelen]]
        && DirMap(entries) == old(DirMap(entries)) - {name[..namelen]}
        && |entries| == |old(entries)| - 1
    {
      ino := 0;
      ghost var es := entries;
      var k, record := Search(name, namelen);
      if RECORD * k == file.size {
        return -ENOENT, 0;
      }
      DirMapAt(es, k);
      RemovedMap(es, k);
      DropRecord(k);
      return 0, record.ino;
    }

    /** Copies the last record over record k, unless that is the last, and cuts the file. */
    method DropRecord(k: nat)
      requires Valid() && k < |entries|
      modifies this, file
      ensures Valid() && entries == Removed(old(entries), k)
    {
      ghost var es := entries;
      MovedBytes(es, k);
      RemovedUnique(es, k);
      PromisedRecord(file.stream, file.ps, file.size, es, |es| - 1);
      file.MoveLast(RECORD * k, RECORD);
      entries := Removed(es, k);
    }

    /** s5_link for the inode numbered child.  counted says whether the caller's link count goes up. */
    method Link(child: nat, name: seq<byte>, namelen: nat) returns (r: int, counted: bool)
      requires Valid() && child < 0x1_0000_0000
      requires |name| >= NAME_LEN && namelen <= NAME_LEN - 1 && name[namelen] == 0 && 0 !in name[..namelen]
      modifies this, file
      ensures Valid()
      ensures r < 0 ==> entries == old(entries) && !counted
      ensures r < 0 <==> namelen == 0 || name[..namelen] in old(DirMap(entries))
                         || old(file.size) + RECORD >= |old(file.stream)|
      ensures r >= 0 ==>
        && r == 0 && (counted <==> name[..namelen] != DOT)
        && entries == old(entries) + [Dirent(child, name[..NAME_LEN])]
        && DirMap(entries) == old(DirMap(entries))[name[..namelen] := child]
    {
      var exist := FindDirent(name, namelen);
      if exist >= 0 {
        return -1, false;
      }
      ghost var es := entries;
      var dirent := Dirent(child, name[..NAME_LEN]);
      NewDirent(child, name, namelen);
      var bytes := file.WriteFile(file.size, Encode(dirent));
      if bytes == RECORD {
        EncodeAllSnoc(es, dirent);
        AddedMap(es, dirent);
        entries := es + [dirent];
        return 0, name[..namelen] != DOT;
      }
      return bytes, false;
    }
  }
}
