/** balloc, bfree, bmap, itrunc, readi, writei and iupdate of fs.c over a volume
    that they change in place.  `logged` collects the blocks passed to log_write
    by the current operation.
 */
module FileSys {
  import opened Lists
  import opened Volume

  /** The bitmap blocks that hold the bits of some blocks. */
  ghost function BitmapBlocks(start: nat, bs: seq<nat>): set<nat> {
    if bs == [] then {} else BitmapBlocks(start, bs[..|bs| - 1]) + {bs[|bs| - 1] / BPB + start}
  }

  /** How many blocks the free map shows as free. */
  ghost function FreeCount(bits: seq<bool>): nat { |FreeBlocks(bits)| }

  ghost function FreeBlocks(bits: seq<bool>): set<nat> {
    set b | 0 <= b < |bits| && !bits[b]
  }

  lemma FreeCountTaken(bits: seq<bool>, b: nat)
    requires b < |bits| && !bits[b]
    ensures FreeCount(bits) == FreeCount(bits[b := true]) + 1
  {
    assert FreeBlocks(bits) == FreeBlocks(bits[b := true]) + {b};
  }

  lemma FreeCountNone(bits: seq<bool>)
    requires forall b :: 0 <= b < |bits| ==> bits[b]
    ensures FreeCount(bits) == 0
  {
    assert FreeBlocks(bits) == {};
  }

  /** How many blocks it takes to map file block bn: itself, and perhaps the indirect block. */
  ghost function Need(v: Vol, i: nat, bn: nat): nat {
    if bn >= NDIRECT && At(v, Ind(i)) == 0 then 2 else 1
  }

  /** How many it takes to grow a file from had blocks to has. */
  function Needed(had: nat, has: nat): nat {
    if has <= had then 0 else has - had + if had <= NDIRECT < has then 1 else 0
  }

  class FileSystem {
    const nmeta: nat            // blocks before the data blocks
    const bmapstart: nat
    const inodestart: nat
    const IPB: nat := 8         // BSIZE / sizeof(struct dinode)
    var bits: seq<bool>         // the free map
    var blocks: seq<Block>
    var inodes: seq<Inode>      // in-memory copies
    var dinodes: seq<Inode>     // copies in the inode blocks
    var logged: set<nat>
    ghost var got: seq<nat>     // blocks allocated, oldest first
    ghost var owner: map<nat, Slot>
    ghost var lens: seq<nat>

    /** A settled file system as it is mounted. */
    constructor (v: Vol, bmapstart: nat, inodestart: nat, ghost owner: map<nat, Slot>, ghost lens: seq<nat>)
      requires Owned(v, owner) && Tidy(v, lens)
      ensures V() == v && Settled() && logged == {} && this.bmapstart == bmapstart && this.inodestart == inodestart
      ensures this.owner == owner && this.lens == lens
    {
      nmeta, this.bmapstart, this.inodestart := v.nmeta, bmapstart, inodestart;
      bits, blocks, inodes, dinodes, logged := v.bits, v.blocks, v.inodes, v.inodes, {};
      got, this.owner, this.lens := [], owner, lens;
    }

    function V(): Vol
      reads this`bits, this`blocks, this`inodes
    {
      Vol(nmeta, bits, blocks, inodes)
    }

    /** The bitmap and the block maps agree, and no file has holes. */
    ghost predicate Valid()
      reads this
    {
      Owned(V(), owner) && Shape(V(), lens) && |dinodes| == |inodes|
    }

    /** Between operations: also, exactly the blocks the size needs are mapped
        and the inode blocks hold what is in memory. */
    ghost predicate Settled()
      reads this
    {
      Valid() && Tidy(V(), lens) && dinodes == inodes
    }

    /** balloc: the lowest free block, marked, zeroed and logged. */
    method Balloc() returns (panic: bool, addr: nat)
      requires WellFormed(V())
      modifies this`bits, this`blocks, this`logged, this`got
      ensures panic ==> (forall x :: 0 <= x < |bits| ==> bits[x]) && V() == old(V()) && logged == old(logged) && got == old(got)
      ensures !panic ==> Free(old(V()), addr) && (forall x :: 0 <= x < addr ==> old(bits)[x])
      ensures !panic ==> V() == Taken(old(V()), addr)
      ensures !panic ==> logged == old(logged) + {addr / BPB + bmapstart, addr} && got == old(got) + [addr]
      ensures if panic then FreeCount(old(bits)) == 0 else FreeCount(old(bits)) == FreeCount(bits) + 1
    {
      hide FreeCount;
      var b := 0;
      while b < |bits|
        invariant b % BPB == 0
        invariant bits == old(bits) && blocks == old(blocks) && logged == old(logged) && got == old(got)
        invariant forall x :: 0 <= x < b && x < |bits| ==> bits[x]
      {
        var bi := 0;
        while bi < BPB && b + bi < |bits|
          invariant 0 <= bi <= BPB
          invariant bits == old(bits) && blocks == old(blocks) && logged == old(logged) && got == old(got)
          invariant forall x :: 0 <= x < b + bi && x < |bits| ==> bits[x]
        {
          if !bits[b + bi] {
            addr := b + bi;
            assert addr / BPB == b / BPB;
            FreeCountTaken(bits, addr);
            bits := bits[addr := true];
            logged := logged + {b / BPB + bmapstart};
            blocks := blocks[addr := ZeroBlock()];
            logged := logged + {addr};
            got := got + [addr];
            return false, addr;
          }
          bi := bi + 1;
        }
        b := b + BPB;
      }
      FreeCountNone(bits);
      return true, 0;
    }

    /** bmap's direct slot: take a block for the next file block. */
    method TakeDirect(i: nat, bn: nat) returns (panic: bool, addr: nat)
      requires Valid() && i < |inodes| && bn == lens[i] < NDIRECT
      modifies this`bits, this`blocks, this`inodes, this`logged, this`got, this`owner, this`lens
      ensures panic ==> forall x :: 0 <= x < |bits| ==> bits[x]
      ensures if panic then FreeCount(old(bits)) == 0 else FreeCount(old(bits)) == FreeCount(bits) + 1
      ensures !panic ==> Valid() && lens == old(lens)[i := old(lens)[i] + 1] && Keeps(old(V()), V(), old(lens), i)
      ensures !panic ==> addr == At(V(), Data(i, old(lens)[i])) && addr != 0 && At(V(), Ind(i)) == old(At(V(), Ind(i)))
      ensures !panic ==> got == old(got) + [addr] && logged == old(logged) + {addr / BPB + bmapstart, addr}
    {
      hide FreeCount, Owned, Shape, Keeps, At;
      LensFit(V(), owner, lens);
      panic, addr := Balloc();
      if panic {
        return;
      }
      GrowDirect(old(V()), owner, lens, i, addr);
      inodes := inodes[i := inodes[i].(addrs := inodes[i].addrs[bn := addr])];
      owner := owner[addr := Data(i, lens[i])];
      lens := lens[i := lens[i] + 1];
    }

    /** bmap's indirect block. */
    method TakeInd(i: nat) returns (panic: bool, addr: nat)
      requires Valid() && i < |inodes| && lens[i] >= NDIRECT && At(V(), Ind(i)) == 0
      modifies this`bits, this`blocks, this`inodes, this`logged, this`got, this`owner
      ensures panic ==> forall x :: 0 <= x < |bits| ==> bits[x]
      ensures if panic then FreeCount(old(bits)) == 0 else FreeCount(old(bits)) == FreeCount(bits) + 1
      ensures !panic ==> Valid() && Keeps(old(V()), V(), lens, i) && addr == At(V(), Ind(i)) && addr != 0
      ensures !panic ==> got == old(got) + [addr] && logged == old(logged) + {addr / BPB + bmapstart, addr}
    {
      hide FreeCount, Owned, Shape, Keeps, At;
      LensFit(V(), owner, lens);
      panic, addr := Balloc();
      if panic {
        return;
      }
      GrowInd(old(V()), owner, lens, i, addr);
      inodes := inodes[i := inodes[i].(addrs := inodes[i].addrs[NDIRECT := addr])];
      owner := owner[addr := Ind(i)];
    }

    /** bmap's entry in the indirect block. */
    method TakeEntry(i: nat, bn: nat) returns (panic: bool, addr: nat)
      requires Valid() && i < |inodes| && NDIRECT <= bn == lens[i] < MAXFILE && At(V(), Ind(i)) != 0
      modifies this`bits, this`blocks, this`inodes, this`logged, this`got, this`owner, this`lens
      ensures panic ==> forall x :: 0 <= x < |bits| ==> bits[x]
      ensures if panic then FreeCount(old(bits)) == 0 else FreeCount(old(bits)) == FreeCount(bits) + 1
      ensures !panic ==> Valid() && lens == old(lens)[i := old(lens)[i] + 1] && Keeps(old(V()), V(), old(lens), i)
      ensures !panic ==> addr == At(V(), Data(i, old(lens)[i])) && addr != 0 && At(V(), Ind(i)) == old(At(V(), Ind(i)))
      ensures !panic ==> got == old(got) + [addr]
      ensures !panic ==> logged == old(logged) + {addr / BPB + bmapstart, addr, At(V(), Ind(i))}
    {
      hide FreeCount, Owned, Shape, Keeps, At, PutWord;
      LensFit(V(), owner, lens);
      IndIs(V(), i);
      panic, addr := Balloc();
      if panic {
        return;
      }
      GrowEntry(old(V()), owner, lens, i, addr);
      var ind := inodes[i].addrs[NDIRECT];
      blocks := blocks[ind := PutWord(blocks[ind], bn - NDIRECT, addr)];
      logged := logged + {ind};
      assert V() == MapEntry(old(V()), i, lens[i] - NDIRECT, addr);
      owner := owner[addr := Data(i, lens[i])];
      lens := lens[i := lens[i] + 1];
    }

    /** bmap: the block of file block bn, allocated if it is the next one. */
    method Bmap(i: nat, bn: nat) returns (panic: bool, addr: nat)
      requires Valid() && i < |inodes| && bn <= lens[i] && bn < MAXFILE
      modifies this`bits, this`blocks, this`inodes, this`logged, this`got, this`owner, this`lens
      ensures panic ==> forall x :: 0 <= x < |bits| ==> bits[x]
      ensures panic <==> bn == old(lens)[i] && FreeCount(old(bits)) < Need(old(V()), i, bn)
      ensures !panic ==> FreeCount(old(bits)) == FreeCount(bits) + |got| - |old(got)|
      ensures !panic ==> Valid() && addr == At(V(), Data(i, bn)) && addr != 0
      ensures bn < old(lens)[i] ==>
                !panic && V() == old(V()) && lens == old(lens) && owner == old(owner) && logged == old(logged) && got == old(got)
      ensures !panic && bn == old(lens)[i] ==> lens == old(lens)[i := bn + 1]
      ensures !panic ==> Keeps(old(V()), V(), old(lens), i)
      ensures !panic && bn == old(lens)[i] ==>
                BmapLogs(old(V()), V(), i, bn, addr, old(got), got, old(logged), logged, bmapstart)
    {
      hide FreeCount, Owned, Shape, Keeps;
      LensFit(V(), owner, lens);
      SlotFacts(V(), lens, i, bn);
      KeepsSelf(V(), lens, i);
      if bn < NDIRECT {
        addr := inodes[i].addrs[bn];
        panic := false;
        if addr == 0 {
          panic, addr := TakeDirect(i, bn);
        }
        return;
      }
      panic := false;
      if inodes[i].addrs[NDIRECT] == 0 {
        panic, addr := TakeInd(i);
        if panic {
          return;
        }
        SlotFacts(V(), lens, i, bn);
      }
      ghost var mid := V();
      var ind := inodes[i].addrs[NDIRECT];
      IndInRange(V(), owner, i);
      addr := Word(blocks[ind], bn - NDIRECT);
      assert addr == At(V(), Data(i, bn));
      if addr == 0 {
        panic, addr := TakeEntry(i, bn);
        if panic {
          return;
        }
        KeepsTrans(old(V()), mid, V(), old(lens), i);
      }
    }

    /** Inode i has as many blocks as the first off + done bytes and its old
        size need; the other inodes have theirs. */
    ghost predicate Grew(lens0: seq<nat>, i: nat, end: nat)
      reads this`lens
    {
      && |lens| == |lens0| && i < |lens|
      && (forall j :: 0 <= j < |lens| && j != i ==> lens[j] == lens0[j])
      && lens[i] == Max(lens0[i], Blocks(end))
    }

    /** One turn of writei's loop. */
    method WriteBlock(i: nat, src: seq<Byte>, off: nat, done: nat, m: nat, ghost v0: Vol, ghost lens0: seq<nat>)
      returns (panic: bool, ghost addr: nat)
      requires Valid() && Written(v0, lens0, V(), i, off, src, done) && Grew(lens0, i, off + done)
      requires off <= lens0[i] * BSIZE && done < |src| && off + |src| <= MAXFILE * BSIZE
      requires m == (if |src| - done < BSIZE - (off + done) % BSIZE then |src| - done else BSIZE - (off + done) % BSIZE)
      modifies this`bits, this`blocks, this`inodes, this`logged, this`got, this`owner, this`lens
      ensures !panic ==> Valid() && Written(v0, lens0, V(), i, off, src, done + m) && Grew(lens0, i, off + done + m)
      ensures !panic ==> dinodes == old(dinodes) && (lens == old(lens) ==> inodes == old(inodes))
      ensures !panic ==> BlockLogs(old(V()), V(), old(lens), i, (off + done) / BSIZE, addr, old(got), got, old(logged), logged, bmapstart)
      ensures panic ==> forall x :: 0 <= x < |bits| ==> bits[x]
      ensures panic ==> (off + done) / BSIZE == old(lens)[i] && FreeCount(old(bits)) < Need(old(V()), i, (off + done) / BSIZE)
      ensures !panic ==> FreeCount(old(bits)) == FreeCount(bits) + |got| - |old(got)|
    {
      hide FreeCount, Need, Owned, Shape, Written, Keeps, At;
      LensFit(V(), owner, lens);
      LensBound(V(), owner, lens);
      var bn := (off + done) / BSIZE;
      var b;
      panic, b := Bmap(i, bn);
      addr := b;
      if panic {
        return;
      }
      KeepsSlots(old(V()), V(), old(lens), i);
      WrittenMap(v0, lens0, old(V()), old(lens), V(), i, off, src, done);
      WrittenPut(v0, lens0, V(), lens, owner, i, off, src, done, m);
      blocks := blocks[b := Overwrite(blocks[b], (off + done) % BSIZE, src[done..done + m])];
      logged := logged + {b};
    }

    /** writei's loop.  `touched` lists the data blocks written and `alloc` the
        blocks allocated. */
    method WriteAll(i: nat, src: seq<Byte>, off: nat) returns (panic: bool, ghost touched: seq<nat>, ghost alloc: seq<nat>)
      requires Settled() && i < |inodes| && off <= inodes[i].size && off + |src| <= MAXFILE * BSIZE
      modifies this`bits, this`blocks, this`inodes, this`logged, this`got, this`owner, this`lens
      ensures panic ==> forall x :: 0 <= x < |bits| ==> bits[x]
      ensures panic <==> FreeCount(old(bits)) < Needed(old(lens)[i], Max(old(lens)[i], Blocks(off + |src|)))
      ensures !panic ==> FreeCount(old(bits)) == FreeCount(bits) + Needed(old(lens)[i], Max(old(lens)[i], Blocks(off + |src|)))
      ensures !panic ==> Valid() && Written(old(V()), old(lens), V(), i, off, src, |src|) && Grew(old(lens), i, off + |src|)
      ensures !panic ==> lens == old(lens) ==> inodes == old(inodes)
      ensures !panic ==> |touched| == Span(off, |src|)
      ensures !panic ==> Ledger(old(V()), V(), old(lens), lens, i, off / BSIZE, touched, alloc, old(got), got, old(logged), logged, bmapstart)
    {
      hide FreeCount, Need, Needed, Owned, Shape, Written, Keeps, At, Ledger, Tidy, BlockLogs, NewBlocks, Blocks, Span;
      touched, alloc := [], [];
      TidyFacts(V(), lens);
      StartArith(off, inodes[i].size);
      WrittenNone(V(), lens, i, off, src);
      LedgerNone(V(), lens, i, off / BSIZE, got, logged, bmapstart);
      var tot := 0;
      while tot < |src|
        invariant 0 <= tot <= |src| && Valid() && Written(old(V()), old(lens), V(), i, off, src, tot) && Grew(old(lens), i, off + tot)
        invariant lens == old(lens) ==> inodes == old(inodes)
        invariant Ledger(old(V()), V(), old(lens), lens, i, off / BSIZE, touched, alloc, old(got), got, old(logged), logged, bmapstart)
        invariant |touched| == Span(off, tot)
        invariant FreeCount(old(bits)) == FreeCount(bits) + |got| - |old(got)|
        invariant 0 < tot < |src| ==> (off + tot) % BSIZE == 0
      {
        var m := if |src| - tot < BSIZE - (off + tot) % BSIZE then |src| - tot else BSIZE - (off + tot) % BSIZE;
        ghost var addr;
        ghost var v, ls, g, lg := V(), lens, got, logged;
        TurnArith(off, |src|, tot, m, old(lens)[i]);
        panic, addr := WriteBlock(i, src, off, tot, m, old(V()), old(lens));
        if panic {
          TooFew(old(V()), v, old(lens), ls, i, off, touched, alloc, old(got), g, old(logged), lg, bmapstart, off + tot, off + |src|);
          return;
        }
        IndThere(V(), lens, i);
        LedgerStep(old(V()), v, V(), old(lens), ls, lens, i, off / BSIZE, touched, alloc, old(got), g, got,
                   old(logged), lg, logged, addr, bmapstart);
        alloc := alloc + NewBlocks(v, V(), ls, i, off / BSIZE + |touched|, addr);
        touched := touched + [addr];
        tot := tot + m;
      }
      LedgerNeeded(old(V()), V(), old(lens), lens, i, off / BSIZE, touched, alloc, old(got), got, old(logged), logged, bmapstart);
      panic := false;
    }

    /** iupdate: copy the inode in memory to its block. */
    method Iupdate(i: nat)
      requires i < |inodes| == |dinodes|
      modifies this`dinodes, this`logged
      ensures dinodes == old(dinodes)[i := inodes[i]] && logged == old(logged) + {i / IPB + inodestart}
    {
      dinodes := dinodes[i := inodes[i]];
      logged := logged + {i / IPB + inodestart};
    }

    /** writei on a file or directory.  Offsets and counts are 32-bit, so the
        code's off + n < off is a sum of 2^32 or more. */
    method Writei(i: nat, src: seq<Byte>, off: nat) returns (panic: bool, r: int, ghost touched: seq<nat>, ghost alloc: seq<nat>)
      requires Settled() && i < |inodes| && off < 0x1_0000_0000 && |src| < 0x1_0000_0000
      modifies this
      ensures panic ==> forall x :: 0 <= x < |bits| ==> bits[x]
      ensures panic <==>
                && off <= old(inodes[i].size) && off + |src| < 0x1_0000_0000 && off + |src| <= MAXFILE * BSIZE
                && FreeCount(old(bits)) < Needed(Blocks(old(inodes[i].size)), Max(Blocks(old(inodes[i].size)), Blocks(off + |src|)))
      ensures !panic && r != -1 ==>
                FreeCount(old(bits)) == FreeCount(bits) + Needed(Blocks(old(inodes[i].size)), Max(Blocks(old(inodes[i].size)), Blocks(off + |src|)))
      ensures !panic ==> Settled() && |inodes| == |old(inodes)| && |blocks| == |old(blocks)|
      ensures !panic ==> (r == -1 <==> off > old(inodes[i].size) || off + |src| >= 0x1_0000_0000 || off + |src| > MAXFILE * BSIZE)
      ensures !panic && r == -1 ==> V() == old(V()) && logged == old(logged)
      ensures !panic && r != -1 ==> r == |src| && Contents(V(), i) == Splice(old(Contents(V(), i)), off, src)
      ensures !panic && r != -1 ==> forall j :: 0 <= j < |inodes| && j != i ==> Contents(V(), j) == old(Contents(V(), j))
      ensures !panic && r != -1 ==>
                WriteLogs(old(V()), V(), i, off, |src|, touched, alloc, old(logged), logged, bmapstart, i / IPB + inodestart)
    {
      hide FreeCount, Needed, Blocks, Owned, Shape, Written, Keeps, At, Ledger, Tidy, Contents, Splice, WriteLogs, SetSize;
      touched, alloc := [], [];
      if off > inodes[i].size || off + |src| >= 0x1_0000_0000 {
        return false, -1, touched, alloc;
      }
      if off + |src| > MAXFILE * BSIZE {
        return false, -1, touched, alloc;
      }
      TidyFacts(V(), lens);
      panic, touched, alloc := WriteAll(i, src, off);
      if panic {
        return true, -1, touched, alloc;
      }
      TidyFacts(old(V()), old(lens));
      ghost var v := V();
      LensFit(v, owner, lens);
      WriteDone(old(V()), old(lens), v, lens, owner, i, off, src, old(got), got, old(logged), logged, bmapstart,
                i / IPB + inodestart, touched, alloc);
      assert logged + {} == logged;
      if |src| > 0 && off + |src| > inodes[i].size {
        inodes := inodes[i := inodes[i].(size := off + |src|)];
        assert V() == SetSize(v, i, off + |src|) by { SetSizeIs(v, i, off + |src|); }
        Iupdate(i);
      }
      r := |src|;
    }

    /** readi on a file or directory.  Its calls of bmap never allocate: the
        volume and the log are untouched. */
    method Readi(i: nat, off: nat, n: nat) returns (r: int, dst: seq<Byte>)
      requires Settled() && i < |inodes| && off < 0x1_0000_0000 && n < 0x1_0000_0000
      modifies this`bits, this`blocks, this`inodes, this`logged, this`got, this`owner, this`lens
      ensures Settled() && V() == old(V()) && logged == old(logged) && got == old(got)
      ensures r == -1 <==> off > inodes[i].size || off + n >= 0x1_0000_0000
      ensures r == -1 ==> dst == []
      ensures r != -1 ==> r == (if off + n > inodes[i].size then inodes[i].size - off else n)
      ensures r != -1 ==> dst == Contents(V(), i)[off..off + r]
    {
      hide Owned, Shape, Keeps, At, Tidy, Contents, Blocks;
      dst := [];
      if off > inodes[i].size || off + n >= 0x1_0000_0000 {
        return -1, [];
      }
      r := if off + n > inodes[i].size then inodes[i].size - off else n;
      TidyFacts(V(), lens);
      LensBound(V(), owner, lens);
      ghost var c := Contents(V(), i);
      assert |c| == inodes[i].size;
      var tot := 0;
      while tot < r
        invariant 0 <= tot <= r && i < |inodes| && off + r <= inodes[i].size
        invariant V() == old(V()) && lens == old(lens) && owner == old(owner) && logged == old(logged) && got == old(got)
        invariant dst == c[off..off + tot]
      {
        var o := off + tot;
        InsideIsMapped(o, inodes[i].size);
        var panic, b := Bmap(i, o / BSIZE);
        var m := if r - tot < BSIZE - o % BSIZE then r - tot else BSIZE - o % BSIZE;
        BlockOwned(V(), owner, Data(i, o / BSIZE));
        BlockIsContents(V(), i, o, m, b);
        dst := dst + blocks[b][o % BSIZE..o % BSIZE + m];
        SliceNext(c, off, tot, m);
        tot := tot + m;
      }
    }

    /** bfree; panics on a block that is already free. */
    method Bfree(b: nat) returns (panic: bool)
      requires b < |bits|
      modifies this`bits, this`logged
      ensures panic <==> !old(bits)[b]
      ensures bits == old(bits)[b := false]
      ensures logged == old(logged) + if panic then {} else {b / BPB + bmapstart}
    {
      if !bits[b] {
        return true;
      }
      bits := bits[b := false];
      logged := logged + {b / BPB + bmapstart};
      panic := false;
    }

    /** itrunc's first loop: the direct blocks. */
    method FreeDirect(i: nat)
      requires Valid() && i < |inodes|
      modifies this`bits, this`inodes, this`logged
      ensures |inodes| == |old(inodes)| && inodes == old(inodes)[i := inodes[i]] && inodes[i].size == old(inodes)[i].size
      ensures WellFormed(old(V())) && |inodes[i].addrs| == NDIRECT + 1
      ensures forall x :: 0 <= x <= NDIRECT ==> inodes[i].addrs[x] == if x < NDIRECT then 0 else old(inodes)[i].addrs[x]
      ensures Freed(old(V()), owner, i, NDIRECT, false, bits)
      ensures logged == old(logged) + Cleared(old(bits), bits, bmapstart)
    {
      hide Owned, Shape, At, Cleared;
      ghost var v0 := V();
      LensFit(v0, owner, lens);
      FreedNone(v0, owner, i);
      ClearedNone(bits, bmapstart);
      var k := 0;
      while k < NDIRECT
        invariant 0 <= k <= NDIRECT && |bits| == |v0.bits|
        invariant |inodes| == |v0.inodes| && inodes == v0.inodes[i := inodes[i]] && inodes[i].size == v0.inodes[i].size
        invariant |inodes[i].addrs| == NDIRECT + 1
        invariant forall x :: 0 <= x <= NDIRECT ==> inodes[i].addrs[x] == if x < k then 0 else v0.inodes[i].addrs[x]
        invariant Freed(v0, owner, i, k, false, bits) && logged == old(logged) + Cleared(v0.bits, bits, bmapstart)
      {
        DirectIs(v0, i, k);
        if inodes[i].addrs[k] != 0 {
          FreeNext(v0, owner, i, k, bits);
          ClearedNext(v0.bits, bits, inodes[i].addrs[k], bmapstart);
          var panic := Bfree(inodes[i].addrs[k]);
          assert !panic;
          inodes := inodes[i := inodes[i].(addrs := inodes[i].addrs[k := 0])];
        } else {
          FreeSkip(v0, owner, i, k, bits);
        }
        k := k + 1;
      }
    }

    /** itrunc's second loop: the blocks the indirect block names. */
    method FreeEntries(i: nat, ind: nat, ghost v0: Vol)
      requires Owned(v0, owner) && i < |v0.inodes| && ind == At(v0, Ind(i)) && ind != 0
      requires blocks == v0.blocks && |bits| == |v0.bits| && Freed(v0, owner, i, NDIRECT, false, bits)
      modifies this`bits, this`logged
      ensures Freed(v0, owner, i, MAXFILE, true, bits) && Below(bits, old(bits))
      ensures logged == old(logged) + Cleared(old(bits), bits, bmapstart)
    {
      hide Owned, At, Cleared;
      ClearedNone(bits, bmapstart);
      OwnedFacts(v0, owner);
      IndIs(v0, i);
      IndInRange(v0, owner, i);
      var a := blocks[ind];
      var j := 0;
      while j < NINDIRECT
        invariant 0 <= j <= NINDIRECT && |bits| == |v0.bits|
        invariant Freed(v0, owner, i, NDIRECT + j, false, bits) && Below(bits, old(bits))
        invariant logged == old(logged) + Cleared(old(bits), bits, bmapstart)
      {
        EntryIs(v0, i, j);
        if Word(a, j) != 0 {
          FreeNext(v0, owner, i, NDIRECT + j, bits);
          ClearedNext(old(bits), bits, Word(a, j), bmapstart);
          var panic := Bfree(Word(a, j));
          assert !panic;
        } else {
          FreeSkip(v0, owner, i, NDIRECT + j, bits);
        }
        j := j + 1;
      }
      FreeIndNext(v0, owner, i, bits);
      ClearedNext(old(bits), bits, ind, bmapstart);
      var panic := Bfree(ind);
      assert !panic;
    }

    /** itrunc: free every block of inode i.  Its calls of bfree cannot panic. */
    method Itrunc(i: nat)
      requires Settled() && i < |inodes|
      modifies this
      ensures Settled() && |inodes| == |old(inodes)| && |bits| == |old(bits)|
      ensures Contents(V(), i) == [] && forall j :: 0 <= j < |inodes| && j != i ==> Contents(V(), j) == old(Contents(V(), j))
      ensures forall b :: 0 <= b < |bits| ==> (bits[b] <==> old(bits)[b] && !(exists s: Slot :: s.inum == i && b != 0 && old(At(V(), s)) == b))
      ensures logged == old(logged) + {i / IPB + inodestart} + Cleared(old(bits), bits, bmapstart)
    {
      hide Owned, Shape, Tidy, At, Contents, Freed, Emptied, Disown, Cleared, Below;
      ghost var v0 := V();
      LensFit(v0, owner, lens);
      IndIs(v0, i);
      FreedSize(v0, owner, i);
      FreeDirect(i);
      FreedBelow(v0, owner, i, NDIRECT, bits);
      var ind := inodes[i].addrs[NDIRECT];
      if ind != 0 {
        ghost var mid := bits;
        FreeEntries(i, ind, v0);
        ClearedTwice(v0.bits, mid, bits, bmapstart);
        inodes := inodes[i := inodes[i].(addrs := inodes[i].addrs[NDIRECT := 0])];
      } else {
        FreeNoInd(v0, owner, lens, i, bits);
      }
      inodes := inodes[i := inodes[i].(size := 0)];
      assert inodes[i] == Inode(seq(NDIRECT + 1, _ => 0), 0);
      EmptiedIs(v0, i, bits);
      EmptiedOk(v0, owner, lens, i, bits);
      FreedMeans(v0, owner, i, bits);
      owner := Disown(owner, i);
      lens := lens[i := 0];
      Iupdate(i);
      assert inodes == v0.inodes[i := inodes[i]];
      assert dinodes == inodes;
    }
  }

  /** The bitmap blocks of the bits that were set and are not any more. */
  ghost function Cleared(was: seq<bool>, now: seq<bool>, bmapstart: nat): set<nat> {
    set b | 0 <= b < |was| && b < |now| && was[b] && !now[b] :: b / BPB + bmapstart
  }

  /** Every bit that is set now was set. */
  predicate Below(now: seq<bool>, was: seq<bool>) {
    |now| == |was| && forall b :: 0 <= b < |now| ==> now[b] ==> was[b]
  }

  lemma ClearedNone(bits: seq<bool>, bmapstart: nat)
    ensures Cleared(bits, bits, bmapstart) == {}
  {
  }

  lemma ClearedNext(was: seq<bool>, now: seq<bool>, b: nat, bmapstart: nat)
    requires b < |now| == |was| && now[b] && was[b]
    ensures Cleared(was, now[b := false], bmapstart) == Cleared(was, now, bmapstart) + {b / BPB + bmapstart}
  {
  }

  lemma ClearedTwice(a: seq<bool>, b: seq<bool>, c: seq<bool>, bmapstart: nat)
    requires Below(b, a) && Below(c, b)
    ensures Cleared(a, c, bmapstart) == Cleared(a, b, bmapstart) + Cleared(b, c, bmapstart)
  {
  }

  lemma FreedBelow(v: Vol, owner: map<nat, Slot>, i: nat, n: nat, bits: seq<bool>)
    requires Freed(v, owner, i, n, false, bits)
    ensures Below(bits, v.bits)
  {
  }

  lemma FreedSize(v: Vol, owner: map<nat, Slot>, i: nat)
    ensures forall n, all, bits :: Freed(v, owner, i, n, all, bits) ==> |bits| == |v.bits|
  {
  }

  lemma EmptiedIs(v: Vol, i: nat, bits: seq<bool>)
    requires i < |v.inodes|
    ensures Emptied(v, i, bits) == v.(bits := bits, inodes := v.inodes[i := Inode(seq(NDIRECT + 1, _ => 0), 0)])
  {
  }

  /** owner without the blocks of inode i. */
  ghost function Disown(owner: map<nat, Slot>, i: nat): map<nat, Slot> {
    map b | b in owner && owner[b].inum != i :: owner[b]
  }

  /** The bits once the first n data blocks of inode i are free, and the
      indirect block too if `all`. */
  ghost predicate Freed(v: Vol, owner: map<nat, Slot>, i: nat, n: nat, all: bool, bits: seq<bool>) {
    && |bits| == |v.bits|
    && forall b :: 0 <= b < |bits| ==>
         (bits[b] <==> v.bits[b] && !(b in owner && owner[b].inum == i && (if owner[b].Data? then owner[b].bn < n else all)))
  }

  /** Inode i emptied. */
  ghost function Emptied(v: Vol, i: nat, bits: seq<bool>): Vol
    requires i < |v.inodes|
  {
    v.(bits := bits, inodes := v.inodes[i := Inode(seq(NDIRECT + 1, _ => 0), 0)])
  }

  lemma FreedNone(v: Vol, owner: map<nat, Slot>, i: nat)
    ensures Freed(v, owner, i, 0, false, v.bits)
  {
  }

  lemma DirectIs(v: Vol, i: nat, k: nat)
    requires WellFormed(v) && i < |v.inodes| && k < NDIRECT
    ensures At(v, Data(i, k)) == v.inodes[i].addrs[k]
  {
  }

  lemma EntryIs(v: Vol, i: nat, j: nat)
    requires WellFormed(v) && i < |v.inodes| && j < NINDIRECT && 0 < v.inodes[i].addrs[NDIRECT] < |v.blocks|
    ensures At(v, Data(i, NDIRECT + j)) == Word(v.blocks[v.inodes[i].addrs[NDIRECT]], j)
  {
  }

  /** The next block of inode i is still marked, so freeing it does not panic. */
  lemma FreeNext(v: Vol, owner: map<nat, Slot>, i: nat, n: nat, bits: seq<bool>)
    requires Owned(v, owner) && Freed(v, owner, i, n, false, bits) && At(v, Data(i, n)) != 0
    ensures At(v, Data(i, n)) < |bits| && bits[At(v, Data(i, n))]
    ensures Freed(v, owner, i, n + 1, false, bits[At(v, Data(i, n)) := false])
  {
    assert owner[At(v, Data(i, n))] == Data(i, n);
  }

  lemma FreeSkip(v: Vol, owner: map<nat, Slot>, i: nat, n: nat, bits: seq<bool>)
    requires Owned(v, owner) && Freed(v, owner, i, n, false, bits) && At(v, Data(i, n)) == 0
    ensures Freed(v, owner, i, n + 1, false, bits)
  {
    forall b | 0 <= b < |bits| && b in owner ensures owner[b] != Data(i, n) {}
  }

  lemma FreeIndNext(v: Vol, owner: map<nat, Slot>, i: nat, bits: seq<bool>)
    requires Owned(v, owner) && Freed(v, owner, i, MAXFILE, false, bits) && At(v, Ind(i)) != 0
    ensures At(v, Ind(i)) < |bits| && bits[At(v, Ind(i))]
    ensures Freed(v, owner, i, MAXFILE, true, bits[At(v, Ind(i)) := false])
  {
    assert owner[At(v, Ind(i))] == Ind(i);
  }

  lemma FreeNoInd(v: Vol, owner: map<nat, Slot>, lens: seq<nat>, i: nat, bits: seq<bool>)
    requires Owned(v, owner) && Shape(v, lens) && i < |lens| && Freed(v, owner, i, NDIRECT, false, bits) && At(v, Ind(i)) == 0
    ensures Freed(v, owner, i, MAXFILE, true, bits)
  {
    forall b | 0 <= b < |bits| && b in owner && owner[b].inum == i ensures owner[b].Data? && owner[b].bn < NDIRECT {
      assert At(v, owner[b]) == b;
    }
  }

  lemma EmptiedOwned(v: Vol, owner: map<nat, Slot>, i: nat, bits: seq<bool>)
    requires Owned(v, owner) && i < |v.inodes| && Freed(v, owner, i, MAXFILE, true, bits)
    ensures forall s :: At(Emptied(v, i, bits), s) == if s.inum == i then 0 else At(v, s)
    ensures Owned(Emptied(v, i, bits), Disown(owner, i))
  {
    var v' := Emptied(v, i, bits);
    var owner' := Disown(owner, i);
    forall s ensures At(v', s) == if s.inum == i then 0 else At(v, s) {}
    forall b | b in owner && owner[b].inum == i && owner[b].Data? ensures owner[b].bn < MAXFILE {
      assert At(v, owner[b]) == b;
    }
    forall b ensures b in owner' <==> v'.nmeta <= b < |v'.bits| && v'.bits[b] {
      if v.nmeta <= b < |v.bits| && v.bits[b] {
        assert b in owner;
      }
    }
    forall b | b in owner' ensures At(v', owner'[b]) == b {}
    forall s | At(v', s) != 0 ensures At(v', s) in owner' && owner'[At(v', s)] == s {
      assert At(v, s) == At(v', s) && owner[At(v, s)] == s;
    }
  }

  lemma EmptiedOk(v: Vol, owner: map<nat, Slot>, lens: seq<nat>, i: nat, bits: seq<bool>)
    requires Owned(v, owner) && Tidy(v, lens) && i < |lens| && Freed(v, owner, i, MAXFILE, true, bits)
    ensures |lens| == |v.inodes|
    ensures var v' := Emptied(v, i, bits);
            && Owned(v', Disown(owner, i)) && Shape(v', lens[i := 0]) && Tidy(v', lens[i := 0])
            && Contents(v', i) == [] && forall j :: 0 <= j < |lens| && j != i ==> Contents(v', j) == Contents(v, j)
  {
    EmptiedOwned(v, owner, i, bits);
    hide Owned, Freed;
    var v' := Emptied(v, i, bits);
    var lens' := lens[i := 0];
    forall j, bn | 0 <= j < |lens'| && 0 <= bn ensures At(v', Data(j, bn)) != 0 <==> bn < lens'[j] {
      assert At(v, Data(j, bn)) != 0 <==> bn < lens[j];
    }
    forall j | 0 <= j < |lens'| ensures At(v', Ind(j)) != 0 <==> lens'[j] > NDIRECT {
      assert At(v, Ind(j)) != 0 <==> lens[j] > NDIRECT;
    }
    forall j | 0 <= j < |lens| && j != i ensures Contents(v', j) == Contents(v, j) {
      forall k | 0 <= k < v.inodes[j].size ensures Contents(v', j)[k] == Contents(v, j)[k] {
        assert At(v', Data(j, k / BSIZE)) == At(v, Data(j, k / BSIZE));
      }
    }
  }

  lemma FreedMeans(v: Vol, owner: map<nat, Slot>, i: nat, bits: seq<bool>)
    requires Owned(v, owner) && Freed(v, owner, i, MAXFILE, true, bits)
    ensures forall b :: 0 <= b < |bits| ==> (bits[b] <==> v.bits[b] && !(exists s: Slot :: s.inum == i && b != 0 && At(v, s) == b))
  {
    forall b | 0 <= b < |bits| ensures bits[b] <==> v.bits[b] && !(exists s: Slot :: s.inum == i && b != 0 && At(v, s) == b) {
      if b in owner && owner[b].inum == i {
        assert At(v, owner[b]) == b;
      }
      if s: Slot :| s.inum == i && b != 0 && At(v, s) == b {
        assert owner[b] == s;
        if s.Data? { assert s.bn < MAXFILE; }
      }
    }
  }

  lemma InsideIsMapped(o: nat, size: nat)
    requires o < size
    ensures o / BSIZE < Blocks(size)
  {
  }

  lemma SliceNext(c: seq<Byte>, off: nat, tot: nat, m: nat)
    requires off + tot + m <= |c|
    ensures c[off..off + tot] + c[off + tot..off + tot + m] == c[off..off + (tot + m)]
  {
  }

  lemma BlockOwned(v: Vol, owner: map<nat, Slot>, s: Slot)
    requires Owned(v, owner)
    ensures At(v, s) < |v.blocks|
  {
    assert At(v, s) != 0 ==> At(v, s) in owner;
  }

  /** The bytes readi copies from one block. */
  lemma BlockIsContents(v: Vol, i: nat, o: nat, m: nat, b: nat)
    requires i < |v.inodes| && o + m <= v.inodes[i].size && o % BSIZE + m <= BSIZE
    requires b == At(v, Data(i, o / BSIZE)) && b < |v.blocks|
    ensures v.blocks[b][o % BSIZE..o % BSIZE + m] == Contents(v, i)[o..o + m]
  {
    var c := Contents(v, i);
    var have, want := v.blocks[b][o % BSIZE..o % BSIZE + m], c[o..o + m];
    forall k | 0 <= k < m ensures have[k] == want[k] {
      assert (o + k) / BSIZE == o / BSIZE && (o + k) % BSIZE == o % BSIZE + k;
      assert c[o + k] == ByteAt(v, i, o + k);
    }
  }

  lemma SetSizeIs(v: Vol, i: nat, size: nat)
    requires i < |v.inodes|
    ensures SetSize(v, i, size) == v.(inodes := v.inodes[i := v.inodes[i].(size := size)])
  {
  }

  /** The volume after a write: the size set when the write went past the end. */
  ghost function Finish(v: Vol, i: nat, off: nat, n: nat): Vol
    requires i < |v.inodes|
  {
    if n > 0 && off + n > v.inodes[i].size then SetSize(v, i, off + n) else v
  }

  lemma WrittenFacts(v0: Vol, lens0: seq<nat>, v: Vol, i: nat, off: nat, src: seq<Byte>, done: nat)
    requires Written(v0, lens0, v, i, off, src, done)
    ensures |v.inodes| == |v0.inodes| == |lens0| && i < |lens0| && v.inodes[i].size == v0.inodes[i].size && |v.blocks| == |v0.blocks|
    ensures forall j :: 0 <= j < |lens0| && j != i ==> v.inodes[j] == v0.inodes[j]
    ensures forall s :: At(v0, s) != 0 ==> At(v, s) == At(v0, s)
  {
  }

  lemma FinishContents(v0: Vol, lens0: seq<nat>, v: Vol, lens: seq<nat>, owner: map<nat, Slot>, i: nat, off: nat, src: seq<Byte>)
    requires Tidy(v0, lens0) && Owned(v, owner) && Shape(v, lens) && Written(v0, lens0, v, i, off, src, |src|)
    requires off <= v0.inodes[i].size
    ensures |Finish(v, i, off, |src|).inodes| == |v0.inodes|
    ensures Contents(Finish(v, i, off, |src|), i) == Splice(Contents(v0, i), off, src)
    ensures forall j :: 0 <= j < |lens0| && j != i ==> Contents(Finish(v, i, off, |src|), j) == Contents(v0, j)
  {
    hide At, ByteAt, Owned, Shape;
    TidyFacts(v0, lens0);
    SetSizeOwned(v, owner, lens, i, off + |src|);
    var v' := Finish(v, i, off, |src|);
    var c, want := Contents(v', i), Splice(Contents(v0, i), off, src);
    assert forall k :: 0 <= k < |c| ==> c[k] == want[k];
    forall j | 0 <= j < |lens0| && j != i ensures Contents(v', j) == Contents(v0, j) {
      assert v'.inodes[j] == v0.inodes[j];
      assert forall k :: 0 <= k < v0.inodes[j].size ==> Contents(v', j)[k] == Contents(v0, j)[k];
    }
  }

  /** The indirect slots after a write. */
  lemma IndTight(v0: Vol, lens0: seq<nat>, v: Vol, lens: seq<nat>, i: nat, j: nat)
    requires Tidy(v0, lens0) && Shape(v, lens) && |lens| == |lens0| == |v.inodes| && i < |lens|
    requires forall k :: 0 <= k < |lens| && k != i ==> lens[k] == lens0[k] && v.inodes[k] == v0.inodes[k]
    requires lens[i] >= lens0[i] && (lens[i] <= NDIRECT ==> At(v, Ind(i)) == At(v0, Ind(i)))
    requires j < |lens|
    ensures At(v, Ind(j)) != 0 <==> lens[j] > NDIRECT
  {
    assert At(v0, Ind(j)) != 0 <==> lens0[j] > NDIRECT;
  }

  lemma FinishTidy(v0: Vol, lens0: seq<nat>, v: Vol, lens: seq<nat>, owner: map<nat, Slot>, i: nat, off: nat, src: seq<Byte>)
    requires Tidy(v0, lens0) && Owned(v, owner) && Shape(v, lens) && Written(v0, lens0, v, i, off, src, |src|)
    requires off <= v0.inodes[i].size && |lens| == |lens0|
    requires forall j :: 0 <= j < |lens| && j != i ==> lens[j] == lens0[j]
    requires lens[i] == Max(lens0[i], Blocks(off + |src|))
    requires lens[i] <= NDIRECT ==> At(v, Ind(i)) == At(v0, Ind(i))
    ensures Tidy(Finish(v, i, off, |src|), lens) && Owned(Finish(v, i, off, |src|), owner)
    ensures forall s :: At(Finish(v, i, off, |src|), s) == At(v, s)
  {
    hide Owned, Shape, Written, At;
    WrittenFacts(v0, lens0, v, i, off, src, |src|);
    TidyFacts(v0, lens0);
    SetSizeOwned(v, owner, lens, i, off + |src|);
    var v' := Finish(v, i, off, |src|);
    forall j | 0 <= j < |lens| ensures At(v', Ind(j)) != 0 <==> lens[j] > NDIRECT {
      IndTight(v0, lens0, v, lens, i, j);
      assert At(v', Ind(j)) == At(v, Ind(j));
    }
  }

  lemma LedgerInd(v0: Vol, v: Vol, lens0: seq<nat>, lens: seq<nat>, i: nat, first: nat, touched: seq<nat>, alloc: seq<nat>,
                  got0: seq<nat>, got: seq<nat>, logged0: set<nat>, logged: set<nat>, bmapstart: nat)
    requires Ledger(v0, v, lens0, lens, i, first, touched, alloc, got0, got, logged0, logged, bmapstart)
    ensures i < |lens0| == |lens| && (lens[i] <= NDIRECT ==> At(v, Ind(i)) == At(v0, Ind(i)))
  {
  }

  lemma WriteDone(v0: Vol, lens0: seq<nat>, v: Vol, lens: seq<nat>, owner: map<nat, Slot>, i: nat, off: nat, src: seq<Byte>,
                  got0: seq<nat>, got: seq<nat>, logged0: set<nat>, logged: set<nat>, bmapstart: nat, iblock: nat,
                  touched: seq<nat>, alloc: seq<nat>)
    requires Tidy(v0, lens0) && Owned(v, owner) && Shape(v, lens) && Written(v0, lens0, v, i, off, src, |src|)
    requires i < |v0.inodes| && off <= v0.inodes[i].size && |lens| == |lens0| && i < |lens|
    requires forall j :: 0 <= j < |lens| && j != i ==> lens[j] == lens0[j]
    requires lens[i] == Max(lens0[i], Blocks(off + |src|)) && |touched| == Span(off, |src|)
    requires Ledger(v0, v, lens0, lens, i, off / BSIZE, touched, alloc, got0, got, logged0, logged, bmapstart)
    ensures |v.inodes| == |v0.inodes| && v.inodes[i].size == v0.inodes[i].size && |v.blocks| == |v0.blocks|
    ensures var v' := Finish(v, i, off, |src|);
            && |v'.inodes| == |v0.inodes|
            && Owned(v', owner) && Shape(v', lens) && Tidy(v', lens)
            && Contents(v', i) == Splice(Contents(v0, i), off, src)
            && (forall j :: 0 <= j < |v0.inodes| && j != i ==> Contents(v', j) == Contents(v0, j))
            && WriteLogs(v0, v', i, off, |src|, touched, alloc, logged0,
                         logged + (if |src| > 0 && off + |src| > v0.inodes[i].size then {iblock} else {}), bmapstart, iblock)
    ensures off + |src| <= v0.inodes[i].size ==> lens == lens0
    ensures forall j :: 0 <= j < |v.inodes| && j != i ==> v.inodes[j] == v0.inodes[j]
  {
    hide Owned, Shape, Written, At, Ledger, Contents, Splice, WriteLogs, Finish;
    WrittenFacts(v0, lens0, v, i, off, src, |src|);
    LedgerInd(v0, v, lens0, lens, i, off / BSIZE, touched, alloc, got0, got, logged0, logged, bmapstart);
    FinishTidy(v0, lens0, v, lens, owner, i, off, src);
    FinishContents(v0, lens0, v, lens, owner, i, off, src);
    CloseLedger(v0, v, lens0, lens, i, off, |src|, touched, alloc, got0, got, logged0, logged, bmapstart, iblock, Finish(v, i, off, |src|));
  }

  lemma StartArith(off: nat, size: nat)
    requires off <= size
    ensures Span(off, 0) == 0 && Blocks(off) <= Blocks(size) && off <= Blocks(size) * BSIZE
  {
  }

  /** The block arithmetic of one turn. */
  lemma TurnArith(off: nat, n: nat, tot: nat, m: nat, had: nat)
    requires tot < n && off <= had * BSIZE && (tot > 0 ==> (off + tot) % BSIZE == 0)
    requires m == if n - tot < BSIZE - (off + tot) % BSIZE then n - tot else BSIZE - (off + tot) % BSIZE
    ensures 0 < m && tot + m <= n && (tot + m < n ==> (off + tot + m) % BSIZE == 0)
    ensures off / BSIZE + Span(off, tot) == (off + tot) / BSIZE && Span(off, tot + m) == Span(off, tot) + 1
    ensures var was, now, bn := Max(had, Blocks(off + tot)), Max(had, Blocks(off + tot + m)), (off + tot) / BSIZE;
            bn <= was && now == if bn < was then was else was + 1
  {
    assert (off + tot + m - 1) / BSIZE == (off + tot) / BSIZE;
  }

  lemma IndThere(v: Vol, lens: seq<nat>, i: nat)
    requires Shape(v, lens) && i < |lens|
    ensures lens[i] > NDIRECT ==> At(v, Ind(i)) != 0
  {
  }

  /** The blocks a turn of the loop allocated. */
  ghost function NewBlocks(v: Vol, v': Vol, lens: seq<nat>, i: nat, bn: nat, addr: nat): seq<nat>
    requires i < |lens|
  {
    if bn < lens[i] then []
    else (if bn >= NDIRECT && At(v, Ind(i)) == 0 then [At(v', Ind(i))] else []) + [addr]
  }

  /** The account of what a write has logged so far: the data blocks touched,
      the bitmap blocks of the blocks allocated, and the indirect block once an
      entry has been added to it. */
  ghost predicate Ledger(v0: Vol, v: Vol, lens0: seq<nat>, lens: seq<nat>, i: nat, first: nat, touched: seq<nat>, alloc: seq<nat>,
                         got0: seq<nat>, got: seq<nat>, logged0: set<nat>, logged: set<nat>, bmapstart: nat)
  {
    && i < |lens0| == |lens| && lens0[i] <= lens[i]
    && got == got0 + alloc
    && (forall x :: 0 <= x < |touched| ==> touched[x] == At(v, Data(i, first + x)) && touched[x] != 0)
    && logged == logged0 + Members(touched) + BitmapBlocks(bmapstart, alloc)
                 + (if lens[i] > lens0[i] && lens[i] > NDIRECT then {At(v, Ind(i))} else {})
    && (lens[i] <= NDIRECT ==> At(v, Ind(i)) == At(v0, Ind(i)))
    && (lens[i] > NDIRECT ==> At(v, Ind(i)) != 0)
    && (At(v0, Ind(i)) == 0 <==> lens0[i] <= NDIRECT)
    && (forall bn :: 0 <= bn < lens[i] ==> At(v, Data(i, bn)) != 0)
    && alloc == Filled(v, i, lens0[i], lens[i])
  }

  /** The blocks of the slots filled when a file grows from had blocks to has,
      in the order bmap fills them. */
  ghost function Filled(v: Vol, i: nat, had: nat, has: nat): (bs: seq<nat>)
    ensures |bs| == Needed(had, has)
    decreases has
  {
    if has <= had then []
    else Filled(v, i, had, has - 1) + (if has - 1 == NDIRECT then [At(v, Ind(i))] else []) + [At(v, Data(i, has - 1))]
  }

  /** Slots that keep their blocks keep the list. */
  lemma {:induction false} FilledKept(v: Vol, v': Vol, i: nat, had: nat, has: nat)
    requires forall bn :: 0 <= bn < has ==> At(v', Data(i, bn)) == At(v, Data(i, bn))
    requires has > NDIRECT ==> At(v', Ind(i)) == At(v, Ind(i))
    ensures Filled(v', i, had, has) == Filled(v, i, had, has)
    decreases has
  {
    if has > had {
      FilledKept(v, v', i, had, has - 1);
    }
  }

  lemma LedgerNeeded(v0: Vol, v: Vol, lens0: seq<nat>, lens: seq<nat>, i: nat, first: nat, touched: seq<nat>, alloc: seq<nat>,
                     got0: seq<nat>, got: seq<nat>, logged0: set<nat>, logged: set<nat>, bmapstart: nat)
    requires Ledger(v0, v, lens0, lens, i, first, touched, alloc, got0, got, logged0, logged, bmapstart)
    ensures i < |lens0| == |lens| && |got| - |got0| == |alloc| == Needed(lens0[i], lens[i])
  {
  }

  /** A turn that finds too few free blocks: so did the whole write. */
  lemma TooFew(v0: Vol, v: Vol, lens0: seq<nat>, lens: seq<nat>, i: nat, off: nat, touched: seq<nat>, alloc: seq<nat>,
               got0: seq<nat>, got: seq<nat>, logged0: set<nat>, logged: set<nat>, bmapstart: nat, here: nat, end: nat)
    requires Ledger(v0, v, lens0, lens, i, off / BSIZE, touched, alloc, got0, got, logged0, logged, bmapstart)
    requires lens[i] == Max(lens0[i], Blocks(here)) == here / BSIZE && here < end
    ensures |got| - |got0| + Need(v, i, lens[i]) <= Needed(lens0[i], Max(lens0[i], Blocks(end)))
  {
    assert Blocks(end) >= here / BSIZE + 1;
  }

  lemma LedgerNone(v: Vol, lens: seq<nat>, i: nat, first: nat, got: seq<nat>, logged: set<nat>, bmapstart: nat)
    requires Tidy(v, lens) && i < |lens|
    ensures Ledger(v, v, lens, lens, i, first, [], [], got, got, logged, logged, bmapstart)
  {
  }

  lemma MembersAppend(s: seq<nat>, t: seq<nat>)
    ensures Members(s + t) == Members(s) + Members(t)
  {
  }

  lemma {:induction false} BitmapAppend(start: nat, s: seq<nat>, t: seq<nat>)
    ensures BitmapBlocks(start, s + t) == BitmapBlocks(start, s) + BitmapBlocks(start, t)
    decreases |t|
  {
    if t == [] {
      assert s + t == s;
    } else {
      assert (s + t)[..|s + t| - 1] == s + t[..|t| - 1];
      BitmapAppend(start, s, t[..|t| - 1]);
    }
  }

  lemma BitmapOne(start: nat, b: nat)
    ensures BitmapBlocks(start, [b]) == {b / BPB + start}
  {
    assert [b][..0] == [];
  }

  /** The new logged blocks, in the ledger's terms. */
  lemma NewBlocksLogged(v: Vol, v': Vol, lens: seq<nat>, i: nat, bn: nat, addr: nat, got: seq<nat>, got': seq<nat>,
                        logged: set<nat>, logged': set<nat>, bmapstart: nat)
    requires BlockLogs(v, v', lens, i, bn, addr, got, got', logged, logged', bmapstart)
    ensures var more := NewBlocks(v, v', lens, i, bn, addr);
            && got' == got + more
            && logged' == logged + {addr} + BitmapBlocks(bmapstart, more) + (if bn >= lens[i] && bn >= NDIRECT then {At(v', Ind(i))} else {})
  {
    hide At;
    var ind := At(v', Ind(i));
    BitmapOne(bmapstart, addr);
    BitmapOne(bmapstart, ind);
    BitmapAppend(bmapstart, [ind], [addr]);
    assert BitmapBlocks(bmapstart, []) == {};
    assert [] + [addr] == [addr];
  }

  lemma LedgerStep(v0: Vol, v: Vol, v': Vol, lens0: seq<nat>, lens: seq<nat>, lens': seq<nat>, i: nat, first: nat,
                   touched: seq<nat>, alloc: seq<nat>, got0: seq<nat>, got: seq<nat>, got': seq<nat>,
                   logged0: set<nat>, logged: set<nat>, logged': set<nat>, addr: nat, bmapstart: nat)
    requires Ledger(v0, v, lens0, lens, i, first, touched, alloc, got0, got, logged0, logged, bmapstart)
    requires BlockLogs(v, v', lens, i, first + |touched|, addr, got, got', logged, logged', bmapstart)
    requires |lens'| == |lens| && first + |touched| <= lens[i]
    requires lens'[i] == if first + |touched| < lens[i] then lens[i] else lens[i] + 1
    requires lens'[i] > NDIRECT ==> At(v', Ind(i)) != 0
    ensures Ledger(v0, v', lens0, lens', i, first, touched + [addr], alloc + NewBlocks(v, v', lens, i, first + |touched|, addr),
                   got0, got', logged0, logged', bmapstart)
  {
    hide At, Members, BitmapBlocks, BmapLogs, Filled, NewBlocks;
    var bn := first + |touched|;
    var more := NewBlocks(v, v', lens, i, bn, addr);
    NewBlocksLogged(v, v', lens, i, bn, addr, got, got', logged, logged', bmapstart);
    MembersAppend(touched, [addr]);
    MembersOne(addr);
    BitmapAppend(bmapstart, alloc, more);
    IndStays(v, v', lens, i, bn, addr, got, got', logged, logged', bmapstart);
    FilledStep(v, v', lens, i, lens0[i], bn, addr);
    assert forall k :: 0 <= k < lens[i] ==> At(v', Data(i, k)) == At(v, Data(i, k));
  }

  /** A turn of the loop adds the slots it filled. */
  lemma FilledStep(v: Vol, v': Vol, lens: seq<nat>, i: nat, had: nat, bn: nat, addr: nat)
    requires i < |lens| && had <= lens[i] && bn <= lens[i] && addr == At(v', Data(i, bn))
    requires forall k :: 0 <= k < lens[i] ==> At(v', Data(i, k)) == At(v, Data(i, k))
    requires lens[i] > NDIRECT ==> At(v, Ind(i)) != 0 && At(v', Ind(i)) == At(v, Ind(i))
    requires had <= lens[i] == NDIRECT ==> At(v, Ind(i)) == 0
    ensures Filled(v', i, had, if bn < lens[i] then lens[i] else lens[i] + 1)
         == Filled(v, i, had, lens[i]) + NewBlocks(v, v', lens, i, bn, addr)
  {
    hide At;
    FilledKept(v, v', i, had, lens[i]);
  }

  lemma MembersOne(x: nat)
    ensures Members([x]) == {x}
  {
  }

  lemma IndStays(v: Vol, v': Vol, lens: seq<nat>, i: nat, bn: nat, addr: nat, got: seq<nat>, got': seq<nat>,
                 logged: set<nat>, logged': set<nat>, bmapstart: nat)
    requires BlockLogs(v, v', lens, i, bn, addr, got, got', logged, logged', bmapstart)
    ensures !(bn >= lens[i] && bn >= NDIRECT && At(v, Ind(i)) == 0) ==> At(v', Ind(i)) == At(v, Ind(i))
  {
  }

  lemma TidyFacts(v: Vol, lens: seq<nat>)
    requires Tidy(v, lens)
    ensures Shape(v, lens) && |lens| == |v.inodes|
    ensures forall i :: 0 <= i < |lens| ==> lens[i] == Blocks(v.inodes[i].size)
  {
  }

  lemma SizeFits(v: Vol, lens: seq<nat>, i: nat)
    requires Tidy(v, lens) && i < |v.inodes|
    ensures v.inodes[i].size <= MAXFILE * BSIZE
  {
    assert lens[i] == Blocks(v.inodes[i].size);
  }

  lemma WrittenNone(v: Vol, lens: seq<nat>, i: nat, off: nat, src: seq<Byte>)
    requires |lens| == |v.inodes| && i < |lens| && off <= lens[i] * BSIZE
    ensures Written(v, lens, v, i, off, src, 0)
  {
  }

  function Span(off: nat, n: nat): nat {
    if n == 0 then 0 else (off + n - 1) / BSIZE - off / BSIZE + 1
  }

  function Max(a: nat, b: nat): nat {
    if a > b then a else b
  }

  /** What a whole write logs: the data blocks it touches, the bitmap blocks of
      the blocks it allocates, the indirect block if it gained entries, and the
      inode's block if the file grew. */
  ghost predicate WriteLogs(v0: Vol, v: Vol, i: nat, off: nat, n: nat, touched: seq<nat>, alloc: seq<nat>,
                            logged0: set<nat>, logged: set<nat>, bmapstart: nat, iblock: nat)
  {
    && i < |v0.inodes|
    && var had := Blocks(v0.inodes[i].size);
    var has := if n == 0 then had else Max(had, Blocks(off + n));
    && |touched| == Span(off, n)
    && (forall x :: 0 <= x < |touched| ==> touched[x] == At(v, Data(i, off / BSIZE + x)) && touched[x] != 0)
    && alloc == Filled(v, i, had, has)
    && (forall s :: At(v0, s) != 0 ==> At(v, s) == At(v0, s))
    && logged == logged0 + Members(touched) + BitmapBlocks(bmapstart, alloc)
                 + (if has > had && has > NDIRECT then {At(v, Ind(i))} else {})
                 + (if n > 0 && off + n > v0.inodes[i].size then {iblock} else {})
  }

  /** The account closed: the size set, everything settled. */
  lemma CloseLedger(v0: Vol, v: Vol, lens0: seq<nat>, lens: seq<nat>, i: nat, off: nat, n: nat, touched: seq<nat>, alloc: seq<nat>,
                    got0: seq<nat>, got: seq<nat>, logged0: set<nat>, logged: set<nat>, bmapstart: nat, iblock: nat, v': Vol)
    requires Tidy(v0, lens0) && i < |lens0|
    requires Ledger(v0, v, lens0, lens, i, off / BSIZE, touched, alloc, got0, got, logged0, logged, bmapstart)
    requires lens[i] == Max(lens0[i], Blocks(off + n)) && off <= v0.inodes[i].size
    requires |touched| == Span(off, n)
    requires forall s :: At(v', s) == At(v, s)
    requires forall s :: At(v0, s) != 0 ==> At(v, s) == At(v0, s)
    ensures WriteLogs(v0, v', i, off, n, touched, alloc, logged0,
                      logged + (if n > 0 && off + n > v0.inodes[i].size then {iblock} else {}), bmapstart, iblock)
  {
    hide At, BitmapBlocks, Members, Filled, Span;
    TidyFacts(v0, lens0);
    FilledKept(v, v', i, lens0[i], lens[i]);
    StartArith(off, v0.inodes[i].size);
    LedgerHas(v0, v, lens0, lens, i, off / BSIZE, touched, alloc, got0, got, logged0, logged, bmapstart);
  }

  /** The ledger's clauses, one by one. */
  lemma LedgerHas(v0: Vol, v: Vol, lens0: seq<nat>, lens: seq<nat>, i: nat, first: nat, touched: seq<nat>, alloc: seq<nat>,
                  got0: seq<nat>, got: seq<nat>, logged0: set<nat>, logged: set<nat>, bmapstart: nat)
    requires Ledger(v0, v, lens0, lens, i, first, touched, alloc, got0, got, logged0, logged, bmapstart)
    ensures i < |lens0| == |lens| && alloc == Filled(v, i, lens0[i], lens[i])
    ensures forall x :: 0 <= x < |touched| ==> touched[x] == At(v, Data(i, first + x)) && touched[x] != 0
  {
  }

  /** Setting the size keeps the block maps. */
  function SetSize(v: Vol, i: nat, size: nat): Vol
    requires i < |v.inodes|
  {
    v.(inodes := v.inodes[i := v.inodes[i].(size := size)])
  }

  lemma SetSizeOwned(v: Vol, owner: map<nat, Slot>, lens: seq<nat>, i: nat, size: nat)
    requires Owned(v, owner) && Shape(v, lens) && i < |v.inodes|
    ensures forall s :: At(SetSize(v, i, size), s) == At(v, s)
    ensures Owned(SetSize(v, i, size), owner) && Shape(SetSize(v, i, size), lens)
    ensures forall j, k :: ByteAt(SetSize(v, i, size), j, k) == ByteAt(v, j, k)
  {
    var v' := SetSize(v, i, size);
    forall s ensures At(v', s) == At(v, s) {}
    forall j, bn | 0 <= j < |lens| && 0 <= bn ensures At(v', Data(j, bn)) != 0 <==> bn < lens[j] {
      assert At(v, Data(j, bn)) != 0 <==> bn < lens[j];
    }
    forall j | 0 <= j < |lens| ensures At(v', Ind(j)) == At(v, Ind(j)) {}
  }

  lemma LensBound(v: Vol, owner: map<nat, Slot>, lens: seq<nat>)
    requires Owned(v, owner) && Shape(v, lens)
    ensures |lens| == |v.inodes| && forall i :: 0 <= i < |lens| ==> lens[i] <= MAXFILE
  {
  }

  lemma KeepsSlots(v: Vol, v': Vol, lens: seq<nat>, i: nat)
    requires Keeps(v, v', lens, i)
    ensures forall s :: At(v, s) != 0 ==> At(v', s) == At(v, s)
  {
  }

  /** What one turn of writei's loop logs. */
  ghost predicate BlockLogs(v: Vol, v': Vol, lens: seq<nat>, i: nat, bn: nat, addr: nat, got: seq<nat>, got': seq<nat>,
                            logged: set<nat>, logged': set<nat>, bmapstart: nat)
  {
    && i < |lens| && addr == At(v', Data(i, bn)) && addr != 0
    && (forall s :: At(v, s) != 0 ==> At(v', s) == At(v, s))
    && (bn < lens[i] ==> got' == got && logged' == logged + {addr} && At(v', Ind(i)) == At(v, Ind(i)))
    && (bn >= lens[i] ==> BmapLogs(v, v', i, bn, addr, got, got', logged, logged', bmapstart))
  }

  /** What a growing bmap logs: for every block it takes, its bitmap block and
      the block itself; and the indirect block when the new entry is in it. */
  ghost predicate BmapLogs(v: Vol, v': Vol, i: nat, bn: nat, addr: nat, got: seq<nat>, got': seq<nat>,
                           logged: set<nat>, logged': set<nat>, bmapstart: nat)
  {
    var ind := At(v', Ind(i));
    var isNew := bn >= NDIRECT && At(v, Ind(i)) == 0;
    && got' == got + (if isNew then [ind] else []) + [addr]
    && logged' == logged + {addr / BPB + bmapstart, addr}
                  + (if bn >= NDIRECT then {ind} else {}) + (if isNew then {ind / BPB + bmapstart} else {})
    && (!isNew ==> ind == At(v, Ind(i)))
  }

  lemma LensFit(v: Vol, owner: map<nat, Slot>, lens: seq<nat>)
    requires Owned(v, owner) && Shape(v, lens)
    ensures WellFormed(v) && |lens| == |v.inodes|
  {
  }

  lemma IndIs(v: Vol, i: nat)
    requires WellFormed(v) && i < |v.inodes|
    ensures At(v, Ind(i)) == v.inodes[i].addrs[NDIRECT]
  {
  }

  lemma IndInRange(v: Vol, owner: map<nat, Slot>, i: nat)
    requires Owned(v, owner) && At(v, Ind(i)) != 0
    ensures 0 < At(v, Ind(i)) < |v.blocks|
  {
    IndOwned(v, owner, i);
  }

  lemma SlotFacts(v: Vol, lens: seq<nat>, i: nat, bn: nat)
    requires Shape(v, lens) && i < |lens|
    ensures At(v, Data(i, bn)) != 0 <==> bn < lens[i]
    ensures lens[i] > NDIRECT ==> At(v, Ind(i)) != 0
    ensures lens[i] < NDIRECT ==> At(v, Ind(i)) == 0
  {
  }

  lemma KeepsSelf(v: Vol, lens: seq<nat>, i: nat)
    requires |lens| == |v.inodes| && i < |lens|
    ensures Keeps(v, v, lens, i)
  {
  }

  lemma KeepsTrans(v: Vol, w: Vol, x: Vol, lens: seq<nat>, i: nat)
    requires Keeps(v, w, lens, i) && Keeps(w, x, lens, i)
    ensures Keeps(v, x, lens, i)
  {
  }
}
