/** mkfs.c: the first image.  Blocks are handed out in order from `freeblock` on
    and the bitmap is written once, at the end; the volume it describes meets
    what the kernel's block and inode layer keeps.  An inode record is changed
    in place here, where the program changes a copy and writes it back.
 */
module Mkfs {
  import opened Volume
  import opened FileSys

  /** The bitmap of an image whose first n blocks are in use. */
  function FirstBits(n: nat, size: nat): (bits: seq<bool>)
    ensures |bits| == size
    ensures forall b {:trigger bits[b]} :: 0 <= b < size ==> bits[b] == (b < n)
  {
    seq(size, b => b < n)
  }

  lemma NextBit(n: nat, size: nat)
    requires n < size
    ensures FirstBits(n, size)[n := true] == FirstBits(n + 1, size)
  {
  }

  lemma SameBlock(blocks: seq<Block>, b: nat)
    requires b < |blocks| && blocks[b] == ZeroBlock()
    ensures blocks[b := ZeroBlock()] == blocks
  {
  }

  /** Growing a file by its next block takes as many blocks as its length says. */
  lemma NeedIs(v: Vol, lens: seq<nat>, i: nat)
    requires Shape(v, lens) && i < |lens| && (lens[i] <= NDIRECT ==> At(v, Ind(i)) == 0)
    ensures Need(v, i, lens[i]) == Needed(lens[i], lens[i] + 1)
  {
    IndThere(v, lens, i);
  }

  lemma IndIfLong(v: Vol, lens: seq<nat>, i: nat)
    requires Tidy(v, lens) && i < |lens|
    ensures lens[i] <= NDIRECT ==> At(v, Ind(i)) == 0
  {
  }

  lemma NeededSums(a: nat, b: nat, c: nat, d: nat)
    requires a <= b
    ensures Needed(a, a) == 0 && (b <= c ==> Needed(a, b) + Needed(b, c) == Needed(a, c))
    ensures c <= d ==> Needed(a, c) <= Needed(a, d)
  {
  }

  /** One turn of iappend goes on to the end of the block or of the bytes. */
  lemma TurnFacts(start: nat, n: nat, done: nat, had: nat)
    requires done < n && start <= had * BSIZE && (done > 0 ==> (start + done) % BSIZE == 0)
    ensures var m := if n - done < BSIZE - (start + done) % BSIZE then n - done else BSIZE - (start + done) % BSIZE;
            0 < m && done + m <= n && (done + m < n ==> (start + done + m) % BSIZE == 0)
  {
    var m := if n - done < BSIZE - (start + done) % BSIZE then n - done else BSIZE - (start + done) % BSIZE;
    TurnArith(start, n, done, m, had);
  }

  lemma LimitArith(off: nat)
    ensures if off / BSIZE >= MAXFILE then off >= MAXFILE * BSIZE else off + (BSIZE - off % BSIZE) <= MAXFILE * BSIZE
  {
  }

  lemma BlocksGrow(m: nat, n: nat)
    requires m <= n
    ensures Blocks(m) <= Blocks(n)
  {
  }

  class Builder {
    const nmeta: nat
    const fsize: nat
    var freeblock: nat
    var blocks: seq<Block>
    var inodes: seq<Inode>
    ghost var owner: map<nat, Slot>
    ghost var lens: seq<nat>

    /** The volume this image will be once its bitmap is written. */
    function V(): Vol
      reads this`freeblock, this`blocks, this`inodes
    {
      Vol(nmeta, FirstBits(freeblock, fsize), blocks, inodes)
    }

    ghost predicate Valid()
      reads this
    {
      && nmeta <= freeblock <= fsize && Owned(V(), owner) && Shape(V(), lens)
      && (forall b :: freeblock <= b < |blocks| ==> blocks[b] == ZeroBlock())
    }

    /** The blank image. */
    constructor (nmeta: nat, fsize: nat, ninodes: nat)
      requires 0 < nmeta <= fsize < 0x1_0000_0000
      ensures Valid() && Tidy(V(), lens) && freeblock == nmeta && this.fsize == fsize && |inodes| == ninodes
      ensures forall i :: 0 <= i < ninodes ==> Contents(V(), i) == []
    {
      this.nmeta, this.fsize, freeblock := nmeta, fsize, nmeta;
      blocks := seq(fsize, _ => ZeroBlock());
      inodes := seq(ninodes, _ => Inode(seq(NDIRECT + 1, _ => 0), 0));
      owner, lens := map[], seq(ninodes, _ => 0);
      new;
      forall s ensures At(V(), s) == 0 {}
    }

    method NewDirect(i: nat, fbn: nat) returns (failed: bool)
      requires Valid() && i < |inodes| && fbn == lens[i] < NDIRECT
      modifies this
      ensures failed <==> old(freeblock) == fsize
      ensures !failed ==> Valid() && freeblock == old(freeblock) + 1 && lens == old(lens)[i := old(lens)[i] + 1]
      ensures !failed ==> Keeps(old(V()), V(), old(lens), i) && At(V(), Ind(i)) == old(At(V(), Ind(i)))
    {
      hide Owned, Shape, Keeps, At;
      LensFit(V(), owner, lens);
      if freeblock == fsize { return true; }
      TakeNext();
      GrowDirect(V(), owner, lens, i, freeblock);
      inodes := inodes[i := inodes[i].(addrs := inodes[i].addrs[fbn := freeblock])];
      owner := owner[freeblock := Data(i, lens[i])];
      lens := lens[i := lens[i] + 1];
      freeblock := freeblock + 1;
      failed := false;
    }

    method NewInd(i: nat) returns (failed: bool)
      requires Valid() && i < |inodes| && lens[i] >= NDIRECT && At(V(), Ind(i)) == 0
      modifies this
      ensures failed <==> old(freeblock) == fsize
      ensures !failed ==> Valid() && freeblock == old(freeblock) + 1 && lens == old(lens)
      ensures !failed ==> Keeps(old(V()), V(), lens, i) && At(V(), Ind(i)) != 0
    {
      hide Owned, Shape, Keeps, At;
      LensFit(V(), owner, lens);
      if freeblock == fsize { return true; }
      TakeNext();
      GrowInd(V(), owner, lens, i, freeblock);
      inodes := inodes[i := inodes[i].(addrs := inodes[i].addrs[NDIRECT := freeblock])];
      owner := owner[freeblock := Ind(i)];
      freeblock := freeblock + 1;
      failed := false;
    }

    method NewEntry(i: nat, fbn: nat) returns (failed: bool)
      requires Valid() && i < |inodes| && NDIRECT <= fbn == lens[i] < MAXFILE && At(V(), Ind(i)) != 0
      modifies this
      ensures failed <==> old(freeblock) == fsize
      ensures !failed ==> Valid() && freeblock == old(freeblock) + 1 && lens == old(lens)[i := old(lens)[i] + 1]
      ensures !failed ==> Keeps(old(V()), V(), old(lens), i) && At(V(), Ind(i)) == old(At(V(), Ind(i)))
      ensures !failed ==> At(V(), Data(i, old(lens)[i])) == old(freeblock)
    {
      hide Owned, Shape, Keeps, At, PutWord;
      LensFit(V(), owner, lens);
      IndIs(V(), i);
      if freeblock == fsize { return true; }
      TakeNext();
      GrowEntry(V(), owner, lens, i, freeblock);
      var ind := inodes[i].addrs[NDIRECT];
      IndInRange(V(), owner, i);
      NamedBelow(Ind(i));
      blocks := blocks[ind := PutWord(blocks[ind], fbn - NDIRECT, freeblock)];
      owner := owner[freeblock := Data(i, lens[i])];
      lens := lens[i := lens[i] + 1];
      freeblock := freeblock + 1;
      failed := false;
    }

    /** iappend's choice of a block for file block fbn. */
    method PickBlock(i: nat, fbn: nat) returns (failed: bool, x: nat)
      requires Valid() && i < |inodes| && fbn <= lens[i] && fbn < MAXFILE
      modifies this
      ensures failed <==> fsize - old(freeblock) < (if fbn < old(lens)[i] then 0 else Need(old(V()), i, fbn))
      ensures !failed ==> freeblock == old(freeblock) + (if fbn < old(lens)[i] then 0 else Need(old(V()), i, fbn))
      ensures !failed ==> Valid() && x == At(V(), Data(i, fbn)) && x != 0
      ensures !failed ==> lens == (if fbn == old(lens)[i] then old(lens)[i := fbn + 1] else old(lens))
      ensures !failed ==> Keeps(old(V()), V(), old(lens), i)
      ensures !failed && lens[i] <= NDIRECT ==> At(V(), Ind(i)) == old(At(V(), Ind(i)))
    {
      hide Owned, Shape, Keeps;
      LensFit(V(), owner, lens);
      SlotFacts(V(), lens, i, fbn);
      KeepsSelf(V(), lens, i);
      failed, x := false, 0;
      if fbn < NDIRECT {
        if inodes[i].addrs[fbn] == 0 {
          failed := NewDirect(i, fbn);
          if failed { return; }
          LensFit(V(), owner, lens);
          SlotFacts(V(), lens, i, fbn);
        }
        x := inodes[i].addrs[fbn];
        return;
      }
      if inodes[i].addrs[NDIRECT] == 0 {
        failed := NewInd(i);
        if failed { return; }
        LensFit(V(), owner, lens);
        SlotFacts(V(), lens, i, fbn);
      }
      ghost var mid := V();
      IndInRange(mid, owner, i);
      x := Word(blocks[inodes[i].addrs[NDIRECT]], fbn - NDIRECT);
      assert x == At(mid, Data(i, fbn));
      if x == 0 {
        x := freeblock;
        failed := NewEntry(i, fbn);
        if failed { return; }
        KeepsTrans(old(V()), mid, V(), old(lens), i);
      }
    }

    /** The next block is free, and taking it is moving freeblock on. */
    lemma TakeNext()
      requires Valid() && freeblock < fsize
      ensures Free(V(), freeblock)
      ensures Taken(V(), freeblock) == V().(bits := FirstBits(freeblock + 1, fsize))
    {
      NextBit(freeblock, fsize);
      SameBlock(blocks, freeblock);
    }

    lemma NamedBelow(s: Slot)
      requires Valid() && At(V(), s) != 0
      ensures At(V(), s) < freeblock
    {
      assert At(V(), s) in owner;
    }

    /** Inode i holds its first `done` new bytes and the blocks they need. */
    ghost predicate PartDone(v0: Vol, lens0: seq<nat>, i: nat, p: seq<Byte>, done: nat)
      requires i < |v0.inodes|
      reads this
    {
      var start := v0.inodes[i].size;
      && Valid() && Written(v0, lens0, V(), i, start, p, done)
      && |lens| == |lens0| && (forall j :: 0 <= j < |lens| && j != i ==> lens[j] == lens0[j])
      && i < |lens| && lens[i] == Max(lens0[i], Blocks(start + done))
      && (lens[i] <= NDIRECT ==> At(V(), Ind(i)) == At(v0, Ind(i)))
    }

    /** One turn of iappend's loop. */
    method AppendBlock(i: nat, p: seq<Byte>, off: nat, done: nat, n1: nat, ghost v0: Vol, ghost lens0: seq<nat>)
      returns (failed: bool)
      requires i < |v0.inodes| && PartDone(v0, lens0, i, p, done)
      requires v0.inodes[i].size <= lens0[i] * BSIZE && off == v0.inodes[i].size + done
      requires done < |p| && (done > 0 ==> off % BSIZE == 0) && off / BSIZE < MAXFILE
      requires lens0[i] <= NDIRECT ==> At(v0, Ind(i)) == 0
      requires n1 == if |p| - done < BSIZE - off % BSIZE then |p| - done else BSIZE - off % BSIZE
      modifies this
      ensures failed <==> fsize - old(freeblock) < Needed(old(lens)[i], Max(lens0[i], Blocks(off + n1)))
      ensures !failed ==> PartDone(v0, lens0, i, p, done + n1) && freeblock == old(freeblock) + Needed(old(lens)[i], lens[i])
    {
      hide Owned, Shape, Written, Keeps, At, Blocks, Overwrite;
      LensFit(V(), owner, lens);
      TurnArith(v0.inodes[i].size, |p|, done, n1, lens0[i]);
      NeedIs(V(), lens, i);
      var x;
      failed, x := PickBlock(i, off / BSIZE);
      if failed {
        return;
      }
      WrittenMap(v0, lens0, old(V()), old(lens), V(), i, v0.inodes[i].size, p, done);
      PutPart(i, p, off, done, n1, x, v0, lens0);
    }

    /** Its copy into the block. */
    method PutPart(i: nat, p: seq<Byte>, off: nat, done: nat, n1: nat, x: nat, ghost v0: Vol, ghost lens0: seq<nat>)
      requires i < |v0.inodes| && Valid() && Written(v0, lens0, V(), i, v0.inodes[i].size, p, done) && off == v0.inodes[i].size + done
      requires |lens| == |lens0| && i < |lens| && (forall j :: 0 <= j < |lens| && j != i ==> lens[j] == lens0[j])
      requires lens[i] == Max(lens0[i], Blocks(off + n1)) && (lens[i] <= NDIRECT ==> At(V(), Ind(i)) == At(v0, Ind(i)))
      requires off / BSIZE < lens[i] && done + n1 <= |p| && off % BSIZE + n1 <= BSIZE && x == At(V(), Data(i, off / BSIZE)) != 0
      modifies this`blocks
      ensures PartDone(v0, lens0, i, p, done + n1)
    {
      hide Owned, Shape, Written, At, Blocks, Overwrite;
      WrittenPut(v0, lens0, V(), lens, owner, i, v0.inodes[i].size, p, done, n1);
      NamedBelow(Data(i, off / BSIZE));
      blocks := blocks[x := Overwrite(blocks[x], off % BSIZE, p[done..done + n1])];
    }

    /** iappend.  It fails when the file is too big, which stops the program, or
        the image full, which the program does not notice. */
    method Iappend(i: nat, p: seq<Byte>) returns (failed: bool)
      requires Valid() && Tidy(V(), lens) && i < |inodes|
      modifies this
      ensures failed <==>
                || old(inodes[i].size) + |p| > MAXFILE * BSIZE
                || fsize - old(freeblock) < Needed(Blocks(old(inodes[i].size)), Blocks(old(inodes[i].size) + |p|))
      ensures !failed ==> Valid() && Tidy(V(), lens) && |inodes| == |old(inodes)|
      ensures !failed ==> freeblock == old(freeblock) + Needed(Blocks(old(inodes[i].size)), Blocks(old(inodes[i].size) + |p|))
      ensures !failed ==> Contents(V(), i) == old(Contents(V(), i)) + p
      ensures !failed ==> forall j :: 0 <= j < |inodes| && j != i ==> Contents(V(), j) == old(Contents(V(), j))
    {
      hide Needed, Owned, Shape, Written, Keeps, At, Tidy, Contents, Blocks, Span, FirstBits;
      LensFit(V(), owner, lens);
      TidyFacts(V(), lens);
      SizeFits(V(), lens, i);
      IndIfLong(V(), lens, i);
      ghost var v0, lens0 := V(), lens;
      var start := inodes[i].size;
      StartArith(start, start);
      WrittenNone(v0, lens, i, start, p);
      NeededSums(lens[i], lens[i], lens[i], Blocks(start + |p|));
      BlocksGrow(start, start + |p|);
      var done := 0;
      while done < |p|
        invariant 0 <= done <= |p| && PartDone(v0, lens0, i, p, done)
        invariant freeblock == old(freeblock) + Needed(lens0[i], lens[i]) && start + done <= MAXFILE * BSIZE
        invariant 0 < done < |p| ==> (start + done) % BSIZE == 0
      {
        var off := start + done;
        LimitArith(off);
        TurnFacts(start, |p|, done, lens0[i]);
        if off / BSIZE >= MAXFILE {
          return true;
        }
        var n1 := if |p| - done < BSIZE - off % BSIZE then |p| - done else BSIZE - off % BSIZE;
        NeededSums(lens0[i], lens[i], Max(lens0[i], Blocks(off + n1)), Blocks(start + |p|));
        BlocksGrow(off, off + n1);
        BlocksGrow(off + n1, start + |p|);
        failed := AppendBlock(i, p, off, done, n1, v0, lens0);
        if failed {
          return;
        }
        done := done + n1;
      }
      AppendDone(v0, lens0, V(), lens, owner, i, p);
      inodes := inodes[i := inodes[i].(size := start + |p|)];
      failed := false;
    }

    /** balloc: the bitmap block, written once. */
    method Balloc() returns (failed: bool, bits: seq<bool>)
      requires Valid()
      ensures failed <==> freeblock >= BPB
      ensures !failed ==> |bits| == BPB && forall b :: 0 <= b < BPB ==> bits[b] == (b < freeblock)
    {
      bits := seq(BPB, _ => false);
      if freeblock >= BPB {
        return true, bits;
      }
      var i := 0;
      while i < freeblock
        invariant 0 <= i <= freeblock && |bits| == BPB
        invariant forall b :: 0 <= b < BPB ==> bits[b] == (b < i)
      {
        bits := bits[i := true];
        i := i + 1;
      }
      failed := false;
    }
  }

  lemma FinishIs(v: Vol, i: nat, p: seq<Byte>)
    requires i < |v.inodes|
    ensures var size := v.inodes[i].size;
            Finish(v, i, size, |p|) == v.(inodes := v.inodes[i := v.inodes[i].(size := size + |p|)])
  {
    if p == [] {
      assert v.inodes == v.inodes[i := v.inodes[i]];
    }
  }

  lemma Appended(c: seq<Byte>, p: seq<Byte>)
    ensures Splice(c, |c|, p) == c + p
  {
  }

  /** Setting the size makes the bytes appended part of the file. */
  lemma AppendDone(v0: Vol, lens0: seq<nat>, v: Vol, lens: seq<nat>, owner: map<nat, Slot>, i: nat, p: seq<Byte>)
    requires Tidy(v0, lens0) && i < |v0.inodes| && Owned(v, owner) && Shape(v, lens)
    requires Written(v0, lens0, v, i, v0.inodes[i].size, p, |p|) && |lens| == |lens0|
    requires forall j :: 0 <= j < |lens| && j != i ==> lens[j] == lens0[j]
    requires i < |lens| && lens[i] == Max(lens0[i], Blocks(v0.inodes[i].size + |p|))
    requires lens[i] <= NDIRECT ==> At(v, Ind(i)) == At(v0, Ind(i))
    ensures |v.inodes| == |v0.inodes| && v.inodes[i].size == v0.inodes[i].size
    ensures var v' := v.(inodes := v.inodes[i := v.inodes[i].(size := v.inodes[i].size + |p|)]);
            && Owned(v', owner) && Shape(v', lens) && Tidy(v', lens) && Contents(v', i) == Contents(v0, i) + p
            && forall j :: 0 <= j < |v0.inodes| && j != i ==> Contents(v', j) == Contents(v0, j)
  {
    hide Owned, Shape, Written, At, Tidy, Contents, Splice, Blocks, Finish;
    var size := v0.inodes[i].size;
    TidyFacts(v0, lens0);
    WrittenFacts(v0, lens0, v, i, size, p, |p|);
    FinishIs(v, i, p);
    FinishContents(v0, lens0, v, lens, owner, i, size, p);
    FinishTidy(v0, lens0, v, lens, owner, i, size, p);
    TidyFacts(Finish(v, i, size, |p|), lens);
    Appended(Contents(v0, i), p);
  }

  /** The finished image, its bitmap read as the kernel does: later bitmap
      blocks stay zero.  It starts the kernel's invariant. */
  lemma ImageIsExact(b: Builder, bits: seq<bool>)
    requires b.Valid() && Tidy(b.V(), b.lens)
    requires |bits| == BPB && b.freeblock < BPB && forall x :: 0 <= x < BPB ==> bits[x] == (x < b.freeblock)
    ensures var all := seq(b.fsize, x requires 0 <= x => x < BPB && bits[x]);
            var v := Vol(b.nmeta, all, b.blocks, b.inodes);
            Owned(v, b.owner) && Tidy(v, b.lens) && BitmapExact(v)
  {
    var all := seq(b.fsize, x requires 0 <= x => x < BPB && bits[x]);
    assert all == FirstBits(b.freeblock, b.fsize);
    OwnedIsExact(b.V(), b.owner);
  }
}
