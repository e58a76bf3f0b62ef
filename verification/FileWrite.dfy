/** filewrite of file.c: writes a few blocks at a time so that each operation
    fits its share of the log.
 */
module FileWrite {
  import opened Lists
  import Disk
  import opened Volume
  import opened FileSys

  /** At most this many bytes go into one operation. */
  const CHUNK: nat := ((Disk.MAXOPBLOCKS - 1 - 1 - 2) / 2) * 512

  // ----- How much one chunk logs -----

  lemma {:induction false} MembersBound(s: seq<nat>)
    ensures |Members(s)| <= |s|
    decreases |s|
  {
    if s == [] {
      assert Members(s) == {};
    } else {
      var n := |s| - 1;
      MembersBound(s[..n]);
      assert s == s[..n] + [s[n]];
      assert Members(s) == Members(s[..n]) + {s[n]};
    }
  }

  lemma {:induction false} BitmapBound(start: nat, s: seq<nat>)
    ensures |BitmapBlocks(start, s)| <= |s|
    decreases |s|
  {
    if s != [] {
      BitmapBound(start, s[..|s| - 1]);
    }
  }

  lemma PairBound(a: set<nat>, b: set<nat>)
    ensures |a + b| <= |a| + |b|
  {
    assert a + b == a + (b - a) && b == (b - a) + (b * a);
  }

  lemma UnionBound(a: set<nat>, b: set<nat>, c: set<nat>, d: set<nat>)
    ensures |a + b + c + d| <= |a| + |b| + |c| + |d|
  {
    PairBound(a, b);
    PairBound(a + b, c);
    PairBound(a + b + c, d);
  }

  /** The blocks counted one by one: data, newly mapped, indirect, inode. */
  function LogCost(size: nat, off: nat, n: nat): nat {
    var had := Blocks(size);
    var has := if n == 0 then had else Max(had, Blocks(off + n));
    Span(off, n) + (has - had) + (if had <= NDIRECT < has then 1 else 0)
    + (if has > had && has > NDIRECT then 1 else 0) + (if n > 0 && off + n > size then 1 else 0)
  }

  /** A chunk costs at most MAXOPBLOCKS.  When it straddles four blocks the
      first is unaligned, so it was mapped already. */
  lemma ChunkCost(size: nat, off: nat, n: nat)
    requires off <= size && n <= CHUNK
    ensures LogCost(size, off, n) <= Disk.MAXOPBLOCKS
  {
    if n > 0 {
      assert (off + n - 1) / BSIZE <= off / BSIZE + 3;
      if (off + n - 1) / BSIZE == off / BSIZE + 3 {
        assert off % BSIZE != 0;
        assert off / BSIZE < Blocks(off) <= Blocks(size);
      }
      assert off / BSIZE <= Blocks(off) <= Blocks(size);
      assert Blocks(off + n) == (off + n - 1) / BSIZE + 1;
    }
  }

  /** A write logs no more than its cost. */
  lemma WriteCost(v0: Vol, v: Vol, i: nat, off: nat, n: nat, touched: seq<nat>, alloc: seq<nat>, logged: set<nat>, bmapstart: nat, iblock: nat)
    requires WriteLogs(v0, v, i, off, n, touched, alloc, {}, logged, bmapstart, iblock)
    ensures |logged| <= LogCost(v0.inodes[i].size, off, n)
  {
    var had := Blocks(v0.inodes[i].size);
    var has := if n == 0 then had else Max(had, Blocks(off + n));
    var c := if has > had && has > NDIRECT then {At(v, Ind(i))} else {};
    var d := if n > 0 && off + n > v0.inodes[i].size then {iblock} else {};
    MembersBound(touched);
    BitmapBound(bmapstart, alloc);
    UnionBound(Members(touched), BitmapBlocks(bmapstart, alloc), c, d);
    assert logged == Members(touched) + BitmapBlocks(bmapstart, alloc) + c + d;
  }

  /** The bound is reached: a full chunk from one byte into block 11 of a file
      that ends there maps three blocks and the indirect block, and if those
      four lie under different bitmap blocks it logs ten blocks. */
  lemma ChunkCostTight(v0: Vol, v: Vol, owner: map<nat, Slot>, i: nat, touched: seq<nat>, alloc: seq<nat>, logged: set<nat>, bmapstart: nat, iblock: nat)
    requires Owned(v, owner) && i < |v0.inodes| && v0.inodes[i].size == 11 * BSIZE + 1
    requires WriteLogs(v0, v, i, 11 * BSIZE + 1, CHUNK, touched, alloc, {}, logged, bmapstart, iblock)
    requires |BitmapBlocks(bmapstart, alloc)| == |alloc|
    requires iblock < v.nmeta && iblock !in BitmapBlocks(bmapstart, alloc)
    requires forall b :: b in BitmapBlocks(bmapstart, alloc) ==> b < v.nmeta
    requires At(v, Ind(i)) != 0
    ensures |logged| == Disk.MAXOPBLOCKS
  {
    hide Owned, At, Members, BitmapBlocks, Blocks, Span;
    TightNumbers();
    assert |alloc| == 4 && |touched| == 4;
    FileBlocksDistinct(v, owner, i, 11, touched);
    FourAndMore(v.nmeta, touched, BitmapBlocks(bmapstart, alloc), At(v, Ind(i)), iblock);
    assert logged == Members(touched) + BitmapBlocks(bmapstart, alloc) + {At(v, Ind(i))} + {iblock};
  }

  lemma TightNumbers()
    ensures CHUNK == 1536 && (11 * BSIZE + 1) / BSIZE == 11
    ensures Span(11 * BSIZE + 1, CHUNK) == 4 && Blocks(11 * BSIZE + 1) == 12 && Blocks(11 * BSIZE + 1 + CHUNK) == 15
  {
  }

  /** The data blocks of a file and its indirect block are all different. */
  lemma FileBlocksDistinct(v: Vol, owner: map<nat, Slot>, i: nat, first: nat, touched: seq<nat>)
    requires Owned(v, owner) && At(v, Ind(i)) != 0
    requires forall x :: 0 <= x < |touched| ==> touched[x] == At(v, Data(i, first + x)) && touched[x] != 0
    ensures At(v, Ind(i)) >= v.nmeta
    ensures forall x :: 0 <= x < |touched| ==> touched[x] >= v.nmeta && touched[x] != At(v, Ind(i))
    ensures forall x, y :: 0 <= x < y < |touched| ==> touched[x] != touched[y]
  {
    var ind := At(v, Ind(i));
    assert owner[ind] == Ind(i);
    forall x | 0 <= x < |touched| ensures touched[x] in owner && owner[touched[x]] == Data(i, first + x) {
      assert touched[x] == At(v, Data(i, first + x)) != 0;
    }
  }

  lemma FourAndMore(nmeta: nat, touched: seq<nat>, bitmaps: set<nat>, ind: nat, iblock: nat)
    requires |touched| == 4 && |bitmaps| == 4 && iblock < nmeta <= ind && iblock !in bitmaps
    requires forall b :: b in bitmaps ==> b < nmeta
    requires forall x :: 0 <= x < 4 ==> touched[x] >= nmeta && touched[x] != ind
    requires forall x, y :: 0 <= x < y < 4 ==> touched[x] != touched[y]
    ensures |Members(touched) + bitmaps + {ind} + {iblock}| == 10
  {
    var a := Members(touched);
    assert a == {touched[0], touched[1], touched[2], touched[3]};
    assert a !! bitmaps && ind !in a + bitmaps && iblock !in a + bitmaps + {ind};
    assert |a + bitmaps| == |a| + |bitmaps|;
  }

  // ----- filewrite -----

  lemma SpliceNone(c: seq<Byte>, off: nat)
    requires off <= |c|
    ensures Splice(c, off, []) == c
  {
  }

  lemma SpliceConcat(c: seq<Byte>, off: nat, a: seq<Byte>, b: seq<Byte>)
    requires off <= |c|
    ensures |Splice(c, off, a)| >= off + |a|
    ensures Splice(Splice(c, off, a), off + |a|, b) == Splice(c, off, a + b)
  {
    var d := Splice(c, off, a);
    assert d[..off + |a|] == c[..off] + a;
    if off + |a| + |b| <= |d| && off + |a| <= |c| {
      assert d[off + |a| + |b|..] == c[off + |a| + |b|..];
    }
  }

  /** The next chunk of a write continues the splice. */
  lemma ChunkNext(c: seq<Byte>, off: nat, src: seq<Byte>, k: nat, n1: nat)
    requires off <= |c| && k + n1 <= |src|
    ensures |Splice(c, off, src[..k])| >= off + k
    ensures Splice(Splice(c, off, src[..k]), off + k, src[k..k + n1]) == Splice(c, off, src[..k + n1])
  {
    SpliceConcat(c, off, src[..k], src[k..k + n1]);
    assert src[..k] + src[k..k + n1] == src[..k + n1];
  }

  /** One chunk as an operation of its own: what it logs fits a reservation. */
  method WriteChunk(fs: FileSystem, i: nat, part: seq<Byte>, off: nat) returns (panic: bool, r: int)
    requires fs.Settled() && i < |fs.inodes| && off < 0x1_0000_0000 && |part| <= CHUNK
    modifies fs
    ensures panic <==>
              && off <= old(fs.inodes[i].size) && off + |part| < 0x1_0000_0000 && off + |part| <= MAXFILE * BSIZE
              && FreeCount(old(fs.bits)) < Needed(Blocks(old(fs.inodes[i].size)), Max(Blocks(old(fs.inodes[i].size)), Blocks(off + |part|)))
    ensures !panic && r != -1 ==>
              FreeCount(old(fs.bits)) == FreeCount(fs.bits) + Needed(Blocks(old(fs.inodes[i].size)), Max(Blocks(old(fs.inodes[i].size)), Blocks(off + |part|)))
    ensures !panic ==> fs.Settled() && |fs.inodes| == |old(fs.inodes)|
    ensures !panic ==> (r == -1 <==> off > old(fs.inodes[i].size) || off + |part| >= 0x1_0000_0000 || off + |part| > MAXFILE * BSIZE)
    ensures !panic && r == -1 ==> fs.V() == old(fs.V()) && fs.logged == {}
    ensures !panic && r != -1 ==> r == |part| && |fs.logged| <= Disk.MAXOPBLOCKS
    ensures !panic && r != -1 ==> Contents(fs.V(), i) == Splice(old(Contents(fs.V(), i)), off, part)
    ensures !panic && r != -1 ==> forall j :: 0 <= j < |fs.inodes| && j != i ==> Contents(fs.V(), j) == old(Contents(fs.V(), j))
  {
    hide Owned, Shape, Tidy, Contents, Splice, WriteLogs, LogCost, FreeCount, Needed, Blocks;
    fs.logged := {};                        // begin_op
    ghost var v0 := fs.V();
    ghost var touched, alloc;
    panic, r, touched, alloc := fs.Writei(i, part, off);
    if !panic && r != -1 {
      WriteCost(v0, fs.V(), i, off, |part|, touched, alloc, fs.logged, fs.bmapstart, i / fs.IPB + fs.inodestart);
      ChunkCost(v0.inodes[i].size, off, |part|);
    }
  }

  /** How many of n bytes from off on filewrite writes: all of them, or as many
      whole chunks as the largest file holds. */
  function Fits(off: nat, n: nat): (k: nat)
    ensures k <= n
  {
    if off + n <= MAXFILE * BSIZE then n
    else if off > MAXFILE * BSIZE then 0
    else (MAXFILE * BSIZE - off) / CHUNK * CHUNK
  }

  /** A chunk that is accepted is part of that, and one that is refused comes after it. */
  lemma FitsChunk(off: nat, n: nat, k: nat, n1: nat)
    requires k < n && k <= Fits(off, n) && k % CHUNK == 0 && n1 == if n - k > CHUNK then CHUNK else n - k
    ensures off + k + n1 <= MAXFILE * BSIZE ==> k + n1 <= Fits(off, n) && (k + n1 == n || (k + n1) % CHUNK == 0)
    ensures off + k + n1 > MAXFILE * BSIZE ==> off <= MAXFILE * BSIZE ==> k == Fits(off, n)
  {
    hide Fits;
    TightNumbers();
    FitsIs(off, n);
    if MAXFILE * BSIZE - n < off <= MAXFILE * BSIZE {
      WholeChunks(MAXFILE * BSIZE - off, n, k, n1);
    }
    NextMultiple(k);
  }

  lemma FitsIs(off: nat, n: nat)
    ensures Fits(off, n) == if off + n <= MAXFILE * BSIZE then n
                            else if off > MAXFILE * BSIZE then 0
                            else (MAXFILE * BSIZE - off) / 1536 * 1536
  {
  }

  lemma NextMultiple(k: nat)
    requires k % 1536 == 0
    ensures (k + 1536) % 1536 == 0
  {
  }

  lemma WholeChunks(room: nat, n: nat, k: nat, n1: nat)
    requires room < n && k < n && k % 1536 == 0 && k <= room / 1536 * 1536 && n1 == if n - k > 1536 then 1536 else n - k
    ensures k + n1 <= room ==> n1 == 1536 && k + n1 <= room / 1536 * 1536
    ensures k + n1 > room ==> k == room / 1536 * 1536
  {
    var q, r, j := room / 1536, room % 1536, k / 1536;
    assert room == 1536 * q + r && k == 1536 * j;
  }

  lemma NeededSum(a: nat, b: nat, c: nat)
    requires a <= b <= c
    ensures Needed(a, b) + Needed(b, c) == Needed(a, c)
  {
  }

  lemma BlocksGrow(a: nat, b: nat)
    requires a <= b
    ensures Blocks(a) <= Blocks(b) && Blocks(Max(a, b)) == Max(Blocks(a), Blocks(b))
  {
  }

  /** The blocks taken by the chunks so far and by the next one. */
  lemma NextNeed(size: nat, off: nat, k: nat, n1: nat)
    requires off <= size
    ensures var had, now := Blocks(size), Blocks(Max(size, off + k));
            && now == Max(had, Blocks(off + k))
            && Needed(had, now) + Needed(now, Max(now, Blocks(off + k + n1))) == Needed(had, Max(had, Blocks(off + k + n1)))
  {
    hide Needed;
    BlocksGrow(off + k, off + k + n1);
    if size <= off + k { BlocksGrow(size, off + k); } else { BlocksGrow(off + k, size); }
    NeededSum(Blocks(size), Max(Blocks(size), Blocks(off + k)), Max(Blocks(size), Blocks(off + k + n1)));
  }

  lemma NeedGrows(size: nat, off: nat, k: nat, m: nat)
    requires k <= m
    ensures Needed(Blocks(size), Max(Blocks(size), Blocks(off + k))) <= Needed(Blocks(size), Max(Blocks(size), Blocks(off + m)))
  {
    BlocksGrow(off + k, off + m);
  }

  lemma NoNeed(size: nat, off: nat)
    requires off <= size
    ensures Needed(Blocks(size), Max(Blocks(size), Blocks(off))) == 0
  {
    BlocksGrow(off, size);
  }

  lemma SpliceSize(c: seq<Byte>, off: nat, src: seq<Byte>)
    requires off <= |c|
    ensures |Splice(c, off, src)| == Max(|c|, off + |src|)
  {
  }

  /** filewrite on an inode: one operation per chunk.  `peak` is the largest
      number of blocks any of them logged. */
  method Filewrite(fs: FileSystem, i: nat, src: seq<Byte>, off: nat) returns (panic: bool, r: int, newoff: nat, peak: nat)
    requires fs.Settled() && i < |fs.inodes| && off < 0x1_0000_0000 && |src| < 0x8000_0000
    modifies fs
    ensures panic <==>
              && off <= old(fs.inodes[i].size)
              && FreeCount(old(fs.bits)) < Needed(Blocks(old(fs.inodes[i].size)), Max(Blocks(old(fs.inodes[i].size)), Blocks(off + Fits(off, |src|))))
    ensures !panic ==> fs.Settled() && |fs.inodes| == |old(fs.inodes)| && peak <= Disk.MAXOPBLOCKS
    ensures !panic ==> newoff == off + if off <= old(fs.inodes[i].size) then Fits(off, |src|) else 0
    ensures !panic ==> r == (if |src| == 0 || (off <= old(fs.inodes[i].size) && off + |src| <= MAXFILE * BSIZE) then |src| else -1)
    ensures !panic && newoff > off ==>
              && off <= old(fs.inodes[i].size)
              && Contents(fs.V(), i) == Splice(old(Contents(fs.V(), i)), off, src[..newoff - off])
    ensures !panic && newoff == off ==> Contents(fs.V(), i) == old(Contents(fs.V(), i))
    ensures !panic ==> forall j :: 0 <= j < |fs.inodes| && j != i ==> Contents(fs.V(), j) == old(Contents(fs.V(), j))
  {
    hide Owned, Shape, Tidy, Contents, Splice, FreeCount, Needed, Blocks, Fits;
    panic, peak := false, 0;
    var k := 0;
    ghost var c := Contents(fs.V(), i);
    SizeFits(fs.V(), fs.lens, i);
    if off <= |c| { SpliceNone(c, off); NoNeed(|c|, off); NeedGrows(|c|, off, 0, Fits(off, |src|)); }
    assert src[..0] == [];
    while k < |src|
      invariant 0 <= k <= |src| && fs.Settled() && |fs.inodes| == |old(fs.inodes)| && peak <= Disk.MAXOPBLOCKS && !panic
      invariant k % CHUNK == 0 || k == |src|
      invariant k == 0 ==> fs.inodes[i].size == |c| && Contents(fs.V(), i) == c && fs.bits == old(fs.bits)
      invariant k > 0 ==> off <= |c| && Contents(fs.V(), i) == Splice(c, off, src[..k]) && fs.inodes[i].size == Max(|c|, off + k)
      invariant off <= |c| ==> k <= Fits(off, |src|)
      invariant off <= |c| ==> FreeCount(old(fs.bits)) == FreeCount(fs.bits) + Needed(Blocks(|c|), Max(Blocks(|c|), Blocks(off + k)))
      invariant forall j :: 0 <= j < |fs.inodes| && j != i ==> Contents(fs.V(), j) == old(Contents(fs.V(), j))
    {
      var n1 := if |src| - k > CHUNK then CHUNK else |src| - k;
      if off <= |c| {
        ChunkNext(c, off, src, k, n1);
        FitsChunk(off, |src|, k, n1);
        NextNeed(|c|, off, k, n1);
        SpliceSize(c, off, src[..k + n1]);
        if k + n1 <= Fits(off, |src|) { NeedGrows(|c|, off, k + n1, Fits(off, |src|)); }
      }
      var rr;
      panic, rr := WriteChunk(fs, i, src[k..k + n1], off + k);
      if panic {
        r, newoff := -1, off + k;
        return;
      }
      if rr < 0 {
        break;
      }
      if |fs.logged| > peak { peak := |fs.logged|; }
      k := k + rr;
    }
    assert src[..|src|] == src;
    FitsAll(off, |src|);
    r := if k == |src| then |src| else -1;
    newoff := off + k;
  }

  lemma FitsAll(off: nat, n: nat)
    ensures off + n <= MAXFILE * BSIZE ==> Fits(off, n) == n
    ensures off + n > MAXFILE * BSIZE && n > 0 ==> Fits(off, n) < n
  {
  }
}
