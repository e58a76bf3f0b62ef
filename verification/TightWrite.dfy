/** A settled volume on which one chunk of filewrite logs exactly MAXOPBLOCKS
    blocks: 16384 blocks, as mkfs lays them out with 1424 inodes, full but for
    four blocks that lie under four different bitmap blocks.
 */
module TightWrite {
  import opened Lists
  import Disk
  import opened Volume
  import opened FileSys
  import opened FileWrite

  const FSSIZE: nat := 4 * BPB
  const NINODES: nat := 1424
  const INODESTART: nat := 2 + Disk.LOGSIZE
  const BMAPSTART: nat := INODESTART + NINODES / 8 + 1
  const NMETA: nat := BMAPSTART + FSSIZE / BPB + 1
  const FILES: nat := 1347                           // inodes 1 to FILES have twelve blocks each

  /** The last block under each bitmap block is free. */
  predicate Spare(b: nat) { b == 4095 || b == 8191 || b == 12287 || b == 16383 }

  /** The u-th of the other data blocks. */
  function Nth(u: nat): nat {
    NMETA + u + (if u >= 3879 then 1 else 0) + (if u >= 7974 then 1 else 0) + (if u >= 12069 then 1 else 0)
  }

  function Place(b: nat): int {
    b - NMETA - (if b > 4095 then 1 else 0) - (if b > 8191 then 1 else 0) - (if b > 12287 then 1 else 0)
  }

  lemma PlaceOf(b: nat)
    requires NMETA <= b < FSSIZE && !Spare(b)
    ensures 0 <= Place(b) < 12 * FILES && Nth(Place(b)) == b
  {
  }

  lemma NthOf(u: nat)
    requires u < 12 * FILES
    ensures NMETA <= Nth(u) < FSSIZE && !Spare(Nth(u)) && Place(Nth(u)) == u
  {
  }

  lemma SplitTwelve(u: nat)
    ensures u == 12 * (u / 12) + u % 12
    ensures u < 12 * FILES ==> u / 12 < FILES
  {
  }

  lemma JoinTwelve(q: nat, r: nat)
    requires r < 12
    ensures (12 * q + r) / 12 == q && (12 * q + r) % 12 == r
  {
  }

  function Twelve(q: nat): (a: seq<nat>)
    ensures |a| == NDIRECT + 1 && a[NDIRECT] == 0
    ensures forall k {:trigger a[k]} :: 0 <= k < NDIRECT ==> a[k] == Nth(12 * q + k)
  {
    seq<nat>(NDIRECT, k requires k >= 0 => Nth(12 * q + k)) + [0]
  }

  /** Inode 1 ends one byte into its last block. */
  function InodeAt(i: nat): Inode {
    if 1 <= i <= FILES then Inode(Twelve(i - 1), if i == 1 then 11 * BSIZE + 1 else 12 * BSIZE)
    else Inode(seq(NDIRECT + 1, _ => 0), 0)
  }

  function FullVol(): (v: Vol)
    ensures v.nmeta == NMETA && |v.bits| == |v.blocks| == FSSIZE && |v.inodes| == NINODES
    ensures forall b {:trigger v.bits[b]} :: 0 <= b < FSSIZE ==> v.bits[b] == !Spare(b)
    ensures forall i {:trigger v.inodes[i]} :: 0 <= i < NINODES ==> v.inodes[i] == InodeAt(i)
  {
    Vol(NMETA, seq(FSSIZE, b requires b >= 0 => !Spare(b)), seq(FSSIZE, _ => ZeroBlock()), seq(NINODES, i requires i >= 0 => InodeAt(i)))
  }

  ghost function FullOwner(): map<nat, Slot> {
    map b: nat | NMETA <= b < FSSIZE && !Spare(b) :: if Place(b) >= 0 then Data(Place(b) / 12 + 1, Place(b) % 12) else Ind(0)
  }

  ghost function FullLens(): (lens: seq<nat>)
    ensures |lens| == NINODES && forall i {:trigger lens[i]} :: 0 <= i < NINODES ==> lens[i] == if 1 <= i <= FILES then 12 else 0
  {
    seq(NINODES, i => if 1 <= i <= FILES then 12 else 0)
  }

  lemma FullAt(s: Slot)
    ensures At(FullVol(), s) == if s.Data? && 1 <= s.inum <= FILES && s.bn < NDIRECT then Nth(12 * (s.inum - 1) + s.bn) else 0
  {
    hide FullVol, Nth, Twelve;
    if s.inum < NINODES {
      assert FullVol().inodes[s.inum] == InodeAt(s.inum);
    }
  }

  lemma FullOwned()
    ensures Owned(FullVol(), FullOwner())
  {
    hide FullVol, Nth, Place, Twelve, At;
    var v, owner := FullVol(), FullOwner();
    forall b | b in owner ensures At(v, owner[b]) == b {
      PlaceOf(b);
      SplitTwelve(Place(b));
      FullAt(owner[b]);
    }
    forall s | At(v, s) != 0 ensures At(v, s) in owner && owner[At(v, s)] == s {
      FullAt(s);
      NthOf(12 * (s.inum - 1) + s.bn);
      JoinTwelve(s.inum - 1, s.bn);
    }
    forall i | 0 <= i < |v.inodes| ensures |v.inodes[i].addrs| == NDIRECT + 1 {
      assert v.inodes[i] == InodeAt(i);
    }
  }

  lemma FullTidy()
    ensures Tidy(FullVol(), FullLens())
  {
    hide FullVol, Nth, Place, Twelve, At, FullLens;
    var v, lens := FullVol(), FullLens();
    forall i, bn | 0 <= i < |lens| && 0 <= bn ensures At(v, Data(i, bn)) != 0 <==> bn < lens[i] {
      FullAt(Data(i, bn));
      if 1 <= i <= FILES && bn < NDIRECT { NthOf(12 * (i - 1) + bn); }
    }
    forall i | 0 <= i < |lens| ensures At(v, Ind(i)) == 0 && lens[i] == Blocks(v.inodes[i].size) {
      FullAt(Ind(i));
      assert v.inodes[i] == InodeAt(i);
    }
  }

  lemma FullFree()
    ensures FreeBlocks(FullVol().bits) == {4095, 8191, 12287, 16383} && FreeCount(FullVol().bits) == 4
  {
    hide FullVol;
    var v := FullVol();
    forall b: nat ensures b in FreeBlocks(v.bits) <==> b in {4095, 8191, 12287, 16383} {
      if b < FSSIZE { assert v.bits[b] == !Spare(b); }
    }
    assert FreeBlocks(v.bits) == {4095, 8191, 12287, 16383};
  }

  // ----- What a write allocates -----

  /** The blocks filled in were free, and are all different. */
  lemma {:induction false} FilledWereFree(v0: Vol, owner0: map<nat, Slot>, v: Vol, owner: map<nat, Slot>, i: nat, had: nat, has: nat)
    requires Owned(v0, owner0) && Owned(v, owner) && v.nmeta == v0.nmeta && |v.blocks| == |v0.blocks|
    requires forall s :: At(v0, s) != 0 ==> At(v, s) == At(v0, s)
    requires forall bn :: had <= bn < has ==> At(v0, Data(i, bn)) == 0 && At(v, Data(i, bn)) != 0
    requires had <= NDIRECT < has ==> At(v0, Ind(i)) == 0 && At(v, Ind(i)) != 0
    ensures Members(Filled(v, i, had, has)) <= FreeBlocks(v0.bits)
    ensures forall x :: x in Filled(v, i, had, has) ==>
              x in owner && owner[x].inum == i && (if owner[x].Ind? then had <= NDIRECT < has else had <= owner[x].bn < has)
    ensures |Members(Filled(v, i, had, has))| == Needed(had, has)
    decreases has
  {
    hide Owned, At, FreeBlocks, Members;
    if has <= had {
      NoMembers();
    } else {
      FilledWereFree(v0, owner0, v, owner, i, had, has - 1);
      var rest, last := Filled(v, i, had, has - 1), At(v, Data(i, has - 1));
      WasFree(v0, owner0, v, owner, Data(i, has - 1));
      assert last !in rest;
      MembersMore(rest, last);
      if has - 1 == NDIRECT {
        var ind := At(v, Ind(i));
        WasFree(v0, owner0, v, owner, Ind(i));
        assert ind !in rest;
        MembersMore(rest, ind);
        MembersMore(rest + [ind], last);
        assert Filled(v, i, had, has) == rest + [ind] + [last];
      } else {
        assert Filled(v, i, had, has) == rest + [last];
      }
    }
  }

  lemma NoMembers()
    ensures Members([]) == {}
  {
  }

  lemma MembersMore(s: seq<nat>, x: nat)
    ensures Members(s + [x]) == Members(s) + {x}
    ensures x in Members(s) <==> x in s
  {
  }

  lemma WasFree(v0: Vol, owner0: map<nat, Slot>, v: Vol, owner: map<nat, Slot>, s: Slot)
    requires Owned(v0, owner0) && Owned(v, owner) && v.nmeta == v0.nmeta && |v.blocks| == |v0.blocks|
    requires forall t :: At(v0, t) != 0 ==> At(v, t) == At(v0, t)
    requires At(v0, s) == 0 && At(v, s) != 0
    ensures At(v, s) in FreeBlocks(v0.bits) && At(v, s) in owner && owner[At(v, s)] == s
  {
    assert At(v, s) !in owner0;
  }

  lemma {:induction false} BitmapIs(start: nat, bs: seq<nat>)
    ensures BitmapBlocks(start, bs) == set b | b in Members(bs) :: b / BPB + start
    decreases |bs|
  {
    if bs != [] {
      var n := |bs| - 1;
      BitmapIs(start, bs[..n]);
      MembersMore(bs[..n], bs[n]);
      assert bs == bs[..n] + [bs[n]];
    }
  }

  lemma FourBitmaps(bs: seq<nat>)
    requires Members(bs) == {4095, 8191, 12287, 16383}
    ensures |BitmapBlocks(BMAPSTART, bs)| == 4
    ensures forall y :: y in BitmapBlocks(BMAPSTART, bs) ==> INODESTART < y < NMETA
  {
    hide Members, BitmapBlocks;
    BitmapIs(BMAPSTART, bs);
    var r := BitmapBlocks(BMAPSTART, bs);
    forall y | y in r ensures y in {BMAPSTART, BMAPSTART + 1, BMAPSTART + 2, BMAPSTART + 3} {
      var b :| b in Members(bs) && y == b / BPB + BMAPSTART;
    }
    assert 4095 / BPB + BMAPSTART in r && 8191 / BPB + BMAPSTART in r && 12287 / BPB + BMAPSTART in r && 16383 / BPB + BMAPSTART in r;
    assert r == {BMAPSTART, BMAPSTART + 1, BMAPSTART + 2, BMAPSTART + 3};
  }

  lemma SameSize(a: set<nat>, b: set<nat>)
    requires a <= b && |a| >= |b|
    ensures a == b
  {
    assert b == a + (b - a);
  }

  /** On this volume the chunk takes the four free blocks, and logs ten. */
  lemma FullCost(v: Vol, owner: map<nat, Slot>, lens: seq<nat>, touched: seq<nat>, alloc: seq<nat>, logged: set<nat>)
    requires Owned(v, owner) && Tidy(v, lens) && v.nmeta == NMETA && |v.blocks| == FSSIZE && |v.inodes| == NINODES
    requires v.inodes[1].size == 11 * BSIZE + 1 + CHUNK
    requires WriteLogs(FullVol(), v, 1, 11 * BSIZE + 1, CHUNK, touched, alloc, {}, logged, BMAPSTART, INODESTART)
    ensures |logged| == Disk.MAXOPBLOCKS
  {
    hide Owned, At, FullVol, Members, BitmapBlocks, Filled, Tidy, Blocks, WriteLogs;
    TightNumbers();
    assert FullVol().inodes[1] == InodeAt(1);
    TidyMapped(v, lens, 1);
    FullLogs(v, touched, alloc, logged);
    FullTakes(v, owner, lens);
    FourBitmaps(alloc);
    ChunkCostTight(FullVol(), v, owner, 1, touched, alloc, logged, BMAPSTART, INODESTART);
  }

  lemma FullLogs(v: Vol, touched: seq<nat>, alloc: seq<nat>, logged: set<nat>)
    requires WriteLogs(FullVol(), v, 1, 11 * BSIZE + 1, CHUNK, touched, alloc, {}, logged, BMAPSTART, INODESTART)
    ensures alloc == Filled(v, 1, 12, 15) && |alloc| == 4
    ensures forall s :: At(FullVol(), s) != 0 ==> At(v, s) == At(FullVol(), s)
  {
    hide At, FullVol, Members, BitmapBlocks, Filled, Blocks, Span;
    TightNumbers();
    assert FullVol().inodes[1] == InodeAt(1);
  }

  lemma FullTakes(v: Vol, owner: map<nat, Slot>, lens: seq<nat>)
    requires Owned(v, owner) && Tidy(v, lens) && v.nmeta == NMETA && |v.blocks| == FSSIZE && |v.inodes| == NINODES
    requires v.inodes[1].size == 11 * BSIZE + 1 + CHUNK
    requires forall s :: At(FullVol(), s) != 0 ==> At(v, s) == At(FullVol(), s)
    ensures Members(Filled(v, 1, 12, 15)) == {4095, 8191, 12287, 16383}
  {
    hide Owned, At, FullVol, FullOwner, FullLens, Members, FreeBlocks, Filled, Tidy, Blocks;
    var v0 := FullVol();
    FullOwned();
    FullTidy();
    FullFree();
    TightNumbers();
    assert v0.inodes[1] == InodeAt(1);
    TidyMapped(v0, FullLens(), 1);
    TidyMapped(v, lens, 1);
    FilledWereFree(v0, FullOwner(), v, owner, 1, 12, 15);
    SameSize(Members(Filled(v, 1, 12, 15)), FreeBlocks(v0.bits));
  }

  lemma TidyMapped(v: Vol, lens: seq<nat>, i: nat)
    requires Tidy(v, lens) && i < |v.inodes|
    ensures forall bn :: 0 <= bn ==> (At(v, Data(i, bn)) != 0 <==> bn < Blocks(v.inodes[i].size))
    ensures At(v, Ind(i)) != 0 <==> Blocks(v.inodes[i].size) > NDIRECT
  {
    hide At;
    assert lens[i] == Blocks(v.inodes[i].size);
  }

  /** writei of one chunk to inode 1, at its end, on the full volume. */
  method TightChunk() returns (panic: bool, r: int, logged: set<nat>)
    ensures !panic && r == CHUNK && |logged| == Disk.MAXOPBLOCKS
  {
    hide Owned, Tidy, FullVol, FullOwner, FullLens, WriteLogs, FreeCount;
    FullOwned();
    FullTidy();
    FullFree();
    TightNumbers();
    var fs := new FileSystem(FullVol(), BMAPSTART, INODESTART, FullOwner(), FullLens());
    assert FullVol().inodes[1] == InodeAt(1);
    ghost var touched, alloc;
    panic, r, touched, alloc := fs.Writei(1, seq(CHUNK, _ => 0), 11 * BSIZE + 1);
    logged := fs.logged;
    FullCost(fs.V(), fs.owner, fs.lens, touched, alloc, logged);
  }
}
