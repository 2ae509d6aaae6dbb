/**
  File contents as s5_write_file and s5_read_file see them: pages of the vnode's page cache, a size in
  the inode and its copy in the vnode.
 */
module S5File {
  type byte = b: int | 0 <= b < 256

  // ---------------------------------------------------------------- pages and the byte stream

  /** The pages end to end. */
  function Flat(pages: seq<seq<byte>>): seq<byte> {
    if pages == [] then [] else pages[0] + Flat(pages[1..])
  }

  ghost predicate Paged(pages: seq<seq<byte>>, ps: nat) {
    ps > 0 && forall k :: 0 <= k < |pages| ==> |pages[k]| == ps
  }

  function Splice(s: seq<byte>, at: nat, d: seq<byte>): seq<byte>
    requires at + |d| <= |s|
  {
    s[..at] + d + s[at + |d|..]
  }

  lemma SpliceSplice(s: seq<byte>, at: nat, d: seq<byte>, e: seq<byte>)
    requires at + |d| + |e| <= |s|
    ensures Splice(Splice(s, at, d), at + |d|, e) == Splice(s, at, d + e)
  {
  }

  lemma {:induction false} FlatLength(pages: seq<seq<byte>>, ps: nat)
    requires Paged(pages, ps)
    ensures |Flat(pages)| == |pages| * ps
  {
    if pages != [] { FlatLength(pages[1..], ps); }
  }

  lemma {:induction false} FlatAppend(a: seq<seq<byte>>, b: seq<seq<byte>>)
    ensures Flat(a + b) == Flat(a) + Flat(b)
  {
    if a == [] {
      assert a + b == b;
    } else {
      assert (a + b)[1..] == a[1..] + b;
      FlatAppend(a[1..], b);
    }
  }

  /** Where page k lies in the stream. */
  lemma FlatSplit(pages: seq<seq<byte>>, ps: nat, k: nat)
    requires Paged(pages, ps) && k < |pages|
    ensures |Flat(pages)| == |pages| * ps && 0 <= k * ps && k * ps + ps <= |pages| * ps
    ensures |Flat(pages[..k])| == k * ps
    ensures Flat(pages) == Flat(pages[..k]) + pages[k] + Flat(pages[k + 1..])
  {
    FlatLength(pages, ps);
    FlatLength(pages[..k], ps);
    MulStep(k, |pages|, ps);
    FlatAround(pages, k);
  }

  lemma FlatAround(pages: seq<seq<byte>>, k: nat)
    requires k < |pages|
    ensures Flat(pages) == Flat(pages[..k]) + pages[k] + Flat(pages[k + 1..])
  {
    assert pages == pages[..k] + pages[k..];
    FlatAppend(pages[..k], pages[k..]);
    assert pages[k..][1..] == pages[k + 1..];
  }

  /** Overwriting part of page k overwrites the stream there. */
  lemma PageSplice(pages: seq<seq<byte>>, ps: nat, k: nat, o: nat, d: seq<byte>)
    requires Paged(pages, ps) && k < |pages| && o + |d| <= ps
    ensures Paged(pages[k := Splice(pages[k], o, d)], ps)
    ensures 0 <= k * ps && k * ps + o + |d| <= |Flat(pages)|
    ensures Flat(pages[k := Splice(pages[k], o, d)]) == Splice(Flat(pages), k * ps + o, d)
  {
    var q := pages[k := Splice(pages[k], o, d)];
    FlatSplit(pages, ps, k);
    FlatSplit(q, ps, k);
    assert q[..k] == pages[..k] && q[k + 1..] == pages[k + 1..];
    var a, b := Flat(pages[..k]), Flat(pages[k + 1..]);
    SpliceMiddle(a, pages[k], b, o, d);
  }

  lemma SpliceMiddle(a: seq<byte>, p: seq<byte>, b: seq<byte>, o: nat, d: seq<byte>)
    requires o + |d| <= |p|
    ensures a + Splice(p, o, d) + b == Splice(a + p + b, |a| + o, d)
  {
  }

  // ---------------------------------------------------------------- block arithmetic

  lemma MulStep(a: int, b: int, c: nat)
    requires a < b
    ensures a * c + c <= b * c
  {
    var d := b - a - 1;
    assert b * c == (a + 1 + d) * c == a * c + c + d * c;
    assert d * c >= 0;
  }

  lemma MulNext(a: int, c: int)
    ensures (a + 1) * c == a * c + c
  {
  }

  lemma DivMod(x: nat, ps: nat)
    requires ps > 0
    ensures x / ps >= 0 && 0 <= x % ps < ps && x == (x / ps) * ps + x % ps
  {
  }

  lemma QuotientUnique(ps: nat, q: int, r: nat, q': int, r': nat)
    requires r < ps && r' < ps && q * ps + r == q' * ps + r'
    ensures q == q' && r == r'
  {
    if q < q' { MulStep(q, q', ps); }
    if q' < q { MulStep(q', q, ps); }
  }

  lemma DivUnique(x: nat, ps: nat, q: nat, r: nat)
    requires r < ps && x == q * ps + r
    ensures x / ps == q && x % ps == r
  {
    DivMod(x, ps);
    QuotientUnique(ps, q, r, x / ps, x % ps);
  }

  lemma QuotientBelow(ps: nat, q: int, r: nat, n: int)
    requires r < ps
    ensures q < n <==> q * ps + r < n * ps
  {
    if q < n { MulStep(q, n, ps); }
    if n < q { MulStep(n, q, ps); }
  }

  /** S5_DATA_BLOCK against a block boundary. */
  lemma DivBelow(x: nat, ps: nat, n: nat)
    requires ps > 0
    ensures x / ps < n <==> x < n * ps
  {
    DivMod(x, ps);
    QuotientBelow(ps, x / ps, x % ps, n);
  }

  lemma DivMono(x: nat, y: nat, ps: nat)
    requires ps > 0 && x <= y
    ensures x / ps <= y / ps
  {
    DivMod(y, ps);
    MulStep(y / ps, y / ps + 1, ps);
    DivBelow(x, ps, y / ps + 1);
  }

  // ---------------------------------------------------------------- what writing means

  function Zeros(n: nat): seq<byte> {
    seq(n, _ => 0)
  }

  function Max(a: nat, b: nat): nat {
    if a > b then a else b
  }

  /** The file c after writing d at seek: padded with zeros up to seek if it was shorter. */
  function Written(c: seq<byte>, seek: nat, d: seq<byte>): seq<byte> {
    var padded := if seek <= |c| then c else c + Zeros(seek - |c|);
    padded[..seek] + d + if seek + |d| <= |c| then c[seek + |d|..] else []
  }

  /** What is written stands from seek on, what was there elsewhere stays, a gap before seek reads as zeros, and the
      file is as long as both need. */
  lemma WrittenAt(c: seq<byte>, seek: nat, d: seq<byte>, i: nat)
    ensures |Written(c, seek, d)| == if seek + |d| > |c| then seek + |d| else |c|
    ensures i < |Written(c, seek, d)| ==>
      Written(c, seek, d)[i] == if seek <= i < seek + |d| then d[i - seek] else if i < |c| then c[i] else 0
  {
  }

  ghost predicate ZeroFrom(s: seq<byte>, k: nat) {
    forall i :: k <= i < |s| ==> s[i] == 0
  }

  lemma SpliceIsWritten(flat: seq<byte>, size: nat, seek: nat, d: seq<byte>)
    requires size <= |flat| && seek + |d| <= |flat| && ZeroFrom(flat, size)
    ensures var flat', size' := Splice(flat, seek, d), Max(size, seek + |d|);
      ZeroFrom(flat', size') && flat'[..size'] == Written(flat[..size], seek, d)
  {
  }

  // ---------------------------------------------------------------- reading

  /** Never: the loop of s5_read_file does not end.  OverRead: the last copy runs past its page. */
  datatype ReadResult = Count(n: nat, data: seq<byte>) | Failed | OverRead | Never

  /** The copying part of s5_read_file: the pages of startBlock and endBlock are at hand, and boundary
      is where startBlock ends. */
  function ReadPages(flat: seq<byte>, ps: nat, seek: nat, len: nat, endPos: nat,
                     startBlock: nat, endBlock: nat, boundary: nat): ReadResult
    requires seek <= endPos <= |flat|
    requires startBlock < endBlock ==> seek <= boundary <= endPos
    requires startBlock + 1 == endBlock ==> boundary + ps <= |flat|
  {
    if endBlock <= startBlock then Count(endPos - seek, flat[seek..endPos])
    else if endBlock != startBlock + 1 then Never
    else
      // the rest of len, whether or not the file goes on that far
      var rest := len - (boundary - seek);
      if !(0 <= rest <= ps) then OverRead
      else Count(len, flat[seek..boundary] + flat[boundary..boundary + rest])
  }

  /** s5_read_file on a stream of maxBlocks pages of ps bytes holding a file of size bytes. */
  function ReadFile(flat: seq<byte>, ps: nat, maxBlocks: nat, size: nat, seek: nat, len: nat): ReadResult
    requires ps > 0 && |flat| == maxBlocks * ps && size <= |flat|
  {
    if seek >= size then Count(0, [])
    else
      var endPos := if seek + len < size then seek + len else size;
      var startBlock, endBlock := seek / ps, endPos / ps;
      if startBlock >= maxBlocks || endBlock >= maxBlocks then Failed
      else
        BlockFacts(seek, endPos, ps, maxBlocks);
        ReadPages(flat, ps, seek, len, endPos, startBlock, endBlock, (startBlock + 1) * ps)
  }

  lemma BlockFacts(seek: nat, endPos: nat, ps: nat, maxBlocks: nat)
    requires ps > 0 && seek <= endPos
    ensures 0 <= seek / ps <= endPos / ps
    ensures var boundary := (seek / ps + 1) * ps;
      && seek < boundary <= seek + ps && (seek / ps < endPos / ps ==> boundary <= endPos)
      && (endPos / ps == seek / ps + 1 ==> endPos < boundary + ps)
      && (endPos / ps == seek / ps + 1 && endPos / ps < maxBlocks ==> boundary + ps <= maxBlocks * ps)
  {
    DivMono(seek, endPos, ps);
    DivMod(seek, ps);
    DivBelow(seek, ps, seek / ps + 1);
    DivBelow(endPos, ps, seek / ps + 1);
    DivBelow(endPos, ps, seek / ps + 2);
    MulNext(seek / ps, ps);
    MulNext(seek / ps + 1, ps);
    if seek / ps + 1 < maxBlocks { MulStep(seek / ps + 1, maxBlocks, ps); }
  }

  /** The bytes a reader is promised: up to len of them, as far as the file goes. */
  function Promised(flat: seq<byte>, size: nat, seek: nat, len: nat): ReadResult
    requires size <= |flat|
  {
    if seek >= size then Count(0, [])
    else
      var n := if seek + len < size then len else size - seek;
      Count(n, flat[seek..seek + n])
  }

  /** They are the bytes from seek on, len of them or as many as the file has. */
  lemma PromisedIs(flat: seq<byte>, size: nat, seek: nat, len: nat, i: nat)
    requires size <= |flat|
    ensures var r := Promised(flat, size, seek, len);
      && r.Count? && r.n == |r.data| <= len && (seek < size ==> seek + r.n <= size)
      && (r.n < len ==> seek + r.n >= size)
      && (i < r.n ==> r.data[i] == flat[seek + i])
  {
  }

  /** When the code keeps that promise: the bytes to read end in the block where they start, or in the
      next one and then not beyond the end of the file. */
  predicate ReadInReach(ps: nat, size: nat, seek: nat, len: nat)
    requires ps > 0
  {
    var endPos := if seek + len < size then seek + len else size;
    seek >= size || endPos / ps == seek / ps || (endPos / ps == seek / ps + 1 && seek + len <= size)
  }

  /** s5_read_file keeps its promise exactly then (for files that s5_write_file can make). */
  lemma ReadFileCorrectIff(flat: seq<byte>, ps: nat, maxBlocks: nat, size: nat, seek: nat, len: nat)
    requires ps > 0 && |flat| == maxBlocks * ps && size < |flat|
    ensures ReadFile(flat, ps, maxBlocks, size, seek, len) == Promised(flat, size, seek, len)
      <==> ReadInReach(ps, size, seek, len)
  {
    if seek < size {
      var endPos := if seek + len < size then seek + len else size;
      DivBelow(seek, ps, maxBlocks);
      DivBelow(endPos, ps, maxBlocks);
      BlockFacts(seek, endPos, ps, maxBlocks);
      ReadPagesIff(flat, ps, size, seek, len, seek / ps, endPos / ps, (seek / ps + 1) * ps);
    }
  }

  lemma ReadPagesIff(flat: seq<byte>, ps: nat, size: nat, seek: nat, len: nat,
                     startBlock: nat, endBlock: nat, boundary: nat)
    requires seek < size <= |flat| && startBlock <= endBlock
    requires var endPos := if seek + len < size then seek + len else size;
      && (startBlock < endBlock ==> seek < boundary <= endPos)
      && (startBlock + 1 == endBlock ==> endPos < boundary + ps <= |flat|)
    ensures var endPos := if seek + len < size then seek + len else size;
      ReadPages(flat, ps, seek, len, endPos, startBlock, endBlock, boundary) == Promised(flat, size, seek, len)
      <==> endBlock == startBlock || (endBlock == startBlock + 1 && seek + len <= size)
  {
    if startBlock + 1 == endBlock && seek + len <= size {
      assert flat[seek..boundary] + flat[boundary..seek + len] == flat[seek..seek + len];
    }
  }

  /** What a read comes to that crosses block boundaries, for files that s5_write_file can make: across two it does not
      come back; across one it copies len bytes, whether or not the file goes on that far, unless they end beyond the
      second block, where it reads past the page. */
  lemma ReadAcross(flat: seq<byte>, ps: nat, maxBlocks: nat, size: nat, seek: nat, len: nat)
    requires ps > 0 && |flat| == maxBlocks * ps && seek < size < |flat|
    ensures var endPos, q := if seek + len < size then seek + len else size, seek / ps;
      var r := ReadFile(flat, ps, maxBlocks, size, seek, len);
      && (endPos / ps >= q + 2 ==> r == Never)
      && (endPos / ps == q + 1 && seek + len > (q + 2) * ps ==> r == OverRead)
      && (endPos / ps == q + 1 && seek + len <= (q + 2) * ps ==>
            seek + len <= |flat| && r == Count(len, flat[seek..seek + len]))
  {
    var endPos, q := if seek + len < size then seek + len else size, seek / ps;
    DivBelow(seek, ps, maxBlocks);
    DivBelow(endPos, ps, maxBlocks);
    BlockFacts(seek, endPos, ps, maxBlocks);
    MulNext(q + 1, ps);
    if endPos / ps == q + 1 && seek + len <= (q + 2) * ps {
      var boundary := (q + 1) * ps;
      assert flat[seek..boundary] + flat[boundary..seek + len] == flat[seek..seek + len];
    }
  }

  /** A read that spans three blocks never comes back. */
  lemma ReadMayNotReturn()
    ensures ReadFile(Zeros(8), 2, 4, 6, 0, 5) == Never
  {
  }

  // ---------------------------------------------------------------- the file

  class VnodeFile {
    const ps: nat
    const maxBlocks: nat
    var pages: seq<seq<byte>>
    /** s5_size in the inode. */
    var size: nat
    /** vn_len in the vnode. */
    var vnLen: nat
    /** The pages end to end. */
    ghost var stream: seq<byte>

    ghost predicate Valid()
      reads this
    {
      && Paged(pages, ps) && |pages| == maxBlocks && stream == Flat(pages)
      && vnLen == size <= |stream|
    }

    ghost function Contents(): seq<byte>
      requires Valid()
      reads this
    {
      stream[..size]
    }

    constructor (ps: nat, maxBlocks: nat)
      requires ps > 0
      ensures Valid() && Contents() == [] && ZeroFrom(stream, 0)
      ensures this.ps == ps && this.maxBlocks == maxBlocks
    {
      this.ps := ps;
      this.maxBlocks := maxBlocks;
      pages := seq(maxBlocks, _ => Zeros(ps));
      size, vnLen := 0, 0;
      stream := Flat(seq(maxBlocks, _ => Zeros(ps)));
      new;
      FlatZero(pages);
      FlatLength(pages, ps);
    }

    /** s5_read_file where it keeps its promise. */
    method Read(seek: nat, len: nat) returns (r: ReadResult)
      requires Valid() && size < |stream| && ReadInReach(ps, size, seek, len)
      ensures r == Promised(stream, size, seek, len)
    {
      FlatLength(pages, ps);
      ReadFileCorrectIff(stream, ps, maxBlocks, size, seek, len);
      r := ReadFile(Flat(pages), ps, maxBlocks, size, seek, len);
    }

    /** s5_write_file.  It fails, changing nothing, exactly when the end position is not below the
        maximum file size; otherwise every byte is written and nothing else changes. */
    method WriteFile(seek: nat, bytes: seq<byte>) returns (r: int)
      requires Valid()
      modifies this
      ensures Valid()
      ensures |stream| == |old(stream)|
      ensures seek + |bytes| >= |stream| ==> r == -1 && stream == old(stream) && size == old(size)
      ensures seek + |bytes| < |stream| ==>
        && r == |bytes|
        && stream == Splice(old(stream), seek, bytes)
        && size == Max(old(size), seek + |bytes|)
    {
      FlatLength(pages, ps);
      var max := maxBlocks * ps;
      var endPos := if seek + |bytes| < max then seek + |bytes| else max;
      var startBlock, startOffset, endBlock := seek / ps, seek % ps, endPos / ps;
      DivMod(seek, ps);
      DivMod(endPos, ps);
      DivBelow(seek, ps, maxBlocks);
      DivBelow(endPos, ps, maxBlocks);
      if startBlock >= maxBlocks {
        return -1;
      }
      if endBlock >= maxBlocks {
        return -1;
      }
      DivMono(seek, endPos, ps);
      if startBlock == endBlock {
        WriteInPage(startBlock, startOffset, bytes, seek);
        size := Max(endPos, vnLen);
        vnLen := size;
        r := |bytes|;
      } else {
        WriteAcross(seek, bytes);
        r := |bytes|;
      }
    }

    /** s5fs_write: on a file with nothing but zeros behind its end, the contents afterwards are those
        before, padded with zeros up to seek, with the range replaced. */
    method Write(seek: nat, bytes: seq<byte>) returns (r: int)
      requires Valid() && ZeroFrom(stream, size)
      modifies this
      ensures Valid() && ZeroFrom(stream, size)
      ensures if seek + |bytes| < |stream|
        then r == |bytes| && Contents() == Written(old(Contents()), seek, bytes)
        else r == -1 && Contents() == old(Contents())
    {
      r := WriteFile(seek, bytes);
      if r >= 0 { SpliceIsWritten(old(stream), old(size), seek, bytes); }
    }

    /** One memcpy into a page. */
    method WriteInPage(block: nat, offset: nat, d: seq<byte>, ghost at: nat)
      requires Valid() && block < maxBlocks && offset + |d| <= ps && at == block * ps + offset
      modifies this`pages, this`stream
      ensures Valid() && |stream| == |old(stream)| && at + |d| <= |stream|
      ensures stream == Splice(old(stream), at, d)
    {
      FlatLength(pages, ps);
      PageSplice(pages, ps, block, offset, d);
      pages := pages[block := Splice(pages[block], offset, d)];
      stream := Splice(stream, at, d);
    }

    /** The branch of s5_write_file for a range that leaves its first block. */
    method WriteAcross(seek: nat, bytes: seq<byte>)
      requires Valid() && seek + |bytes| < |stream| && seek / ps < (seek + |bytes|) / ps
      modifies this
      ensures Valid()
      ensures stream == Splice(old(stream), seek, bytes)
      ensures size == Max(old(size), seek + |bytes|)
    {
      FlatLength(pages, ps);
      var endPos := seek + |bytes|;
      var startBlock, startOffset, endBlock := seek / ps, seek % ps, endPos / ps;
      DivMod(seek, ps);
      DivMod(endPos, ps);
      DivBelow(endPos, ps, maxBlocks);
      MulStep(startBlock, endBlock, ps);
      MulNext(startBlock, ps);
      var numBytes := ps - startOffset;
      WriteInPage(startBlock, startOffset, bytes[..numBytes], seek);
      size := Max(seek + numBytes, vnLen);
      vnLen := size;
      numBytes := CopyBlocks(seek, bytes, numBytes, startBlock + 1, endBlock, old(stream));
      WriteInPage(endBlock, 0, bytes[numBytes..], seek + numBytes);
      SpliceNext(old(stream), seek, bytes, numBytes, |bytes|);
      size := Max(endPos, vnLen);
      vnLen := size;
    }

    /** The loop of s5_write_file: whole blocks up to the last one, which is left to the caller. */
    method CopyBlocks(seek: nat, bytes: seq<byte>, start: nat, ghost first: nat, endBlock: nat, ghost before: seq<byte>)
        returns (numBytes: nat)
      requires Valid() && first <= endBlock < maxBlocks && seek + |bytes| <= |stream| == |before|
      requires seek + start == first * ps && endBlock * ps <= seek + |bytes|
      requires start <= |bytes| && stream == Splice(before, seek, bytes[..start])
      modifies this`pages, this`stream
      ensures Valid() && numBytes <= |bytes| && seek + numBytes == endBlock * ps
      ensures stream == Splice(before, seek, bytes[..numBytes])
    {
      numBytes := start;
      ghost var next := first;
      while true
        invariant first <= next <= endBlock && seek + numBytes == next * ps && numBytes <= |bytes|
        invariant Valid() && |stream| == |before|
        invariant stream == Splice(before, seek, bytes[..numBytes])
        decreases endBlock - next
      {
        DivUnique(seek + numBytes, ps, next, 0);
        var block := (seek + numBytes) / ps;
        if block == endBlock {
          break;
        }
        MulStep(next, endBlock, ps);
        WriteInPage(block, 0, bytes[numBytes..numBytes + ps], seek + numBytes);
        SpliceNext(before, seek, bytes, numBytes, numBytes + ps);
        numBytes := numBytes + ps;
        MulNext(next, ps);
        next := next + 1;
      }
    }

    /** Copies the last n bytes of the file over the n bytes at offset, unless that is where they are,
        and cuts them off the end. */
    method MoveLast(offset: nat, n: nat)
      requires Valid() && size < |stream| && n > 0 && offset + n <= size
      requires ReadInReach(ps, size, size - n, n)
      modifies this
      ensures Valid() && size == old(size) - n && |stream| == |old(stream)|
      ensures Contents() == Splice(old(Contents()), offset, old(Contents())[size..])[..size]
    {
      CutMoved(stream, size, offset, n);
      if offset + n < vnLen {
        CopyLast(offset, n);
      }
      vnLen := vnLen - n;
      size := vnLen;
    }

    method CopyLast(offset: nat, n: nat)
      requires Valid() && size < |stream| && n > 0 && offset + n <= size
      requires ReadInReach(ps, size, size - n, n)
      modifies this
      ensures Valid() && size == old(size)
      ensures stream == Splice(old(stream), offset, old(stream)[size - n..size])
    {
      var last := Read(vnLen - n, n);
      assert last == Count(n, stream[size - n..size]);
      var w := WriteFile(offset, last.data);
    }
  }

  lemma CutMoved(s: seq<byte>, size: nat, offset: nat, n: nat)
    requires offset + n <= size <= |s|
    ensures var cut := Splice(s[..size], offset, s[..size][size - n..])[..size - n];
      && Splice(s, offset, s[size - n..size])[..size - n] == cut
      && (offset + n == size ==> s[..size - n] == cut)
  {
    var c, d := s[..size], s[size - n..size];
    assert c[size - n..] == d;
    assert Splice(s, offset, d)[..size] == Splice(c, offset, d);
    assert Splice(s, offset, d)[..size][..size - n] == Splice(s, offset, d)[..size - n];
    assert offset + n == size ==> Splice(c, offset, d) == c;
  }

  /** One turn of the copying loop. */
  lemma SpliceNext(s: seq<byte>, at: nat, d: seq<byte>, n: nat, m: nat)
    requires n <= m <= |d| && at + |d| <= |s|
    ensures Splice(Splice(s, at, d[..n]), at + n, d[n..m]) == Splice(s, at, d[..m])
    ensures m == |d| ==> Splice(Splice(s, at, d[..n]), at + n, d[n..]) == Splice(s, at, d)
  {
    SpliceSplice(s, at, d[..n], d[n..m]);
    assert d[..n] + d[n..m] == d[..m];
    if m == |d| { assert d[n..m] == d[n..] && d[..m] == d; }
  }

  lemma {:induction false} FlatZero(pages: seq<seq<byte>>)
    requires forall k :: 0 <= k < |pages| ==> ZeroFrom(pages[k], 0)
    ensures ZeroFrom(Flat(pages), 0)
  {
    if pages != [] { FlatZero(pages[1..]); }
  }
}
