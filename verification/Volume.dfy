/** The block layer of fs.c as data: bitmap, blocks and inodes, the slots that
    can name a block, and what it means for the bitmap to agree with them.
 */
module Volume {

  const BSIZE: nat := 512
  const NDIRECT: nat := 12
  const NINDIRECT: nat := 128    // BSIZE / sizeof(uint)
  const MAXFILE: nat := NDIRECT + NINDIRECT
  const BPB: nat := BSIZE * 8

  type Byte = x: int | 0 <= x < 256
  type Block = b: seq<Byte> | |b| == BSIZE witness ZeroBlock()

  function ZeroBlock(): (b: seq<Byte>)
    ensures |b| == BSIZE
  {
    seq(BSIZE, _ => 0)
  }

  // ----- Block numbers stored in an indirect block -----

  /** The i-th little-endian word of a block. */
  function Word(b: Block, i: nat): (w: nat)
    requires i < NINDIRECT
  {
    (b[4 * i] as int) + 256 * (b[4 * i + 1] as int) + 65536 * (b[4 * i + 2] as int) + 16777216 * (b[4 * i + 3] as int)
  }

  function PutWord(b: Block, i: nat, w: nat): (r: Block)
    requires i < NINDIRECT && w < 0x1_0000_0000
  {
    b[4 * i := w % 256][4 * i + 1 := w / 256 % 256][4 * i + 2 := w / 65536 % 256][4 * i + 3 := w / 16777216]
  }

  lemma SplitWord(w: nat)
    requires w < 0x1_0000_0000
    ensures w / 16777216 < 256
    ensures w == w % 256 + 256 * (w / 256 % 256) + 65536 * (w / 65536 % 256) + 16777216 * (w / 16777216)
  {
    assert w / 65536 == 256 * (w / 16777216) + w / 65536 % 256;
    assert w / 256 == 256 * (w / 65536) + w / 256 % 256;
  }

  lemma WordPut(b: Block, i: nat, w: nat, j: nat)
    requires i < NINDIRECT && j < NINDIRECT && w < 0x1_0000_0000
    ensures Word(PutWord(b, i, w), j) == if i == j then w else Word(b, j)
  {
    SplitWord(w);
  }

  lemma WordZero(i: nat)
    requires i < NINDIRECT
    ensures Word(ZeroBlock(), i) == 0
  {
  }

  // ----- Volumes -----

  /** The fields of an inode that name its contents. */
  datatype Inode = Inode(addrs: seq<nat>, size: nat)

  /** What the cache shows of a file system: nmeta metadata blocks, then data. */
  datatype Vol = Vol(nmeta: nat, bits: seq<bool>, blocks: seq<Block>, inodes: seq<Inode>)

  /** The places that can hold a block number. */
  datatype Slot = Data(inum: nat, bn: nat) | Ind(inum: nat)

  /** The block a slot names, 0 for none. */
  function At(v: Vol, s: Slot): nat {
    if s.inum >= |v.inodes| || |v.inodes[s.inum].addrs| != NDIRECT + 1 then 0
    else
      var addrs := v.inodes[s.inum].addrs;
      match s
      case Ind(_) => addrs[NDIRECT]
      case Data(_, bn) =>
        if bn < NDIRECT then addrs[bn]
        else if bn < MAXFILE && 0 < addrs[NDIRECT] < |v.blocks| then Word(v.blocks[addrs[NDIRECT]], bn - NDIRECT)
        else 0
  }

  ghost predicate WellFormed(v: Vol) {
    && 0 < v.nmeta <= |v.bits| == |v.blocks| && |v.bits| < 0x1_0000_0000
    && (forall i :: 0 <= i < |v.inodes| ==> |v.inodes[i].addrs| == NDIRECT + 1)
    && (forall b :: 0 <= b < v.nmeta ==> v.bits[b])
  }

  /** `owner` gives the slot of every allocated data block, and every slot that
      names a block owns it: a bit is set exactly when its block is metadata or
      belongs to exactly one slot. */
  ghost predicate Owned(v: Vol, owner: map<nat, Slot>) {
    && WellFormed(v)
    && (forall b :: b in owner <==> v.nmeta <= b < |v.bits| && v.bits[b])
    && (forall b :: b in owner ==> At(v, owner[b]) == b)
    && (forall s :: At(v, s) != 0 ==> At(v, s) in owner && owner[At(v, s)] == s)
  }

  /** The same, said without the owner map. */
  ghost predicate BitmapExact(v: Vol) {
    && WellFormed(v)
    && (forall b :: v.nmeta <= b < |v.bits| ==> (v.bits[b] <==> exists s :: At(v, s) == b))
    && (forall s :: At(v, s) != 0 ==> v.nmeta <= At(v, s) < |v.bits|)
    && (forall s, t :: At(v, s) != 0 && At(v, s) == At(v, t) ==> s == t)
  }

  lemma OwnedIsExact(v: Vol, owner: map<nat, Slot>)
    requires Owned(v, owner)
    ensures BitmapExact(v)
  {
    forall b | v.nmeta <= b < |v.bits| ensures v.bits[b] <==> exists s :: At(v, s) == b {
      if v.bits[b] {
        assert At(v, owner[b]) == b;
      }
    }
  }

  /** Giving a free block to an empty slot, all other slots unchanged. */
  lemma Attach(v: Vol, owner: map<nat, Slot>, s: Slot, b: nat, v': Vol)
    requires Owned(v, owner) && v.nmeta <= b < |v.bits| && !v.bits[b] && At(v, s) == 0
    requires WellFormed(v') && v'.nmeta == v.nmeta && v'.bits == v.bits[b := true] && At(v', s) == b
    requires forall t :: t != s ==> At(v', t) == At(v, t)
    ensures Owned(v', owner[b := s])
  {
    forall t | At(v', t) != 0 ensures At(v', t) in owner[b := s] && owner[b := s][At(v', t)] == t {}
  }

  // ----- No holes -----

  /** lens[i] blocks of inode i are mapped, from the first on; the indirect
      block is there when it is needed. */
  ghost predicate Shape(v: Vol, lens: seq<nat>) {
    && |lens| == |v.inodes|
    && (forall i :: 0 <= i < |lens| ==> lens[i] <= MAXFILE)
    && (forall i, bn :: 0 <= i < |lens| && 0 <= bn ==> (At(v, Data(i, bn)) != 0 <==> bn < lens[i]))
    && (forall i :: 0 <= i < |lens| && lens[i] > NDIRECT ==> At(v, Ind(i)) != 0)
    && (forall i :: 0 <= i < |lens| && At(v, Ind(i)) != 0 ==> lens[i] >= NDIRECT)
  }

  function Blocks(size: nat): nat {
    (size + BSIZE - 1) / BSIZE
  }

  /** Between operations the mapped blocks are those the size needs. */
  ghost predicate Tidy(v: Vol, lens: seq<nat>) {
    && Shape(v, lens)
    && (forall i :: 0 <= i < |lens| ==> lens[i] == Blocks(v.inodes[i].size))
    && (forall i :: 0 <= i < |lens| ==> (At(v, Ind(i)) != 0 <==> lens[i] > NDIRECT))
  }

  // ----- File contents -----

  /** Byte k of inode i, through the block map. */
  function ByteAt(v: Vol, i: nat, k: nat): Byte {
    var b := At(v, Data(i, k / BSIZE));
    if b < |v.blocks| then v.blocks[b][k % BSIZE] else 0
  }

  ghost function Contents(v: Vol, i: nat): (c: seq<Byte>)
    requires i < |v.inodes|
    ensures |c| == v.inodes[i].size
    ensures forall k {:trigger c[k]} :: 0 <= k < |c| ==> c[k] == ByteAt(v, i, k)
  {
    seq(v.inodes[i].size, k requires 0 <= k => ByteAt(v, i, k))
  }

  /** The file with n bytes from off on replaced by src, longer if need be. */
  function Splice(c: seq<Byte>, off: nat, src: seq<Byte>): (r: seq<Byte>)
    requires off <= |c|
  {
    c[..off] + src + (if off + |src| <= |c| then c[off + |src|..] else [])
  }

  // ----- Allocating for a slot -----

  /** balloc's effect: the bit set and the block zeroed. */
  function Taken(v: Vol, b: nat): Vol
    requires b < |v.bits| && b < |v.blocks|
  {
    v.(bits := v.bits[b := true], blocks := v.blocks[b := ZeroBlock()])
  }

  ghost predicate Free(v: Vol, b: nat) {
    v.nmeta <= b < |v.bits| && !v.bits[b]
  }

  /** No slot names a free block. */
  lemma FreeIsUnnamed(v: Vol, owner: map<nat, Slot>, b: nat, s: Slot)
    requires Owned(v, owner) && Free(v, b)
    ensures At(v, s) != b
  {
  }

  lemma TakenKeepsSlots(v: Vol, owner: map<nat, Slot>, b: nat, s: Slot)
    requires Owned(v, owner) && Free(v, b)
    ensures At(Taken(v, b), s) == At(v, s)
  {
    if s.inum < |v.inodes| {
      FreeIsUnnamed(v, owner, b, Ind(s.inum));
    }
  }

  /** Put b in entry n of an inode's addrs: a direct slot, or the indirect one. */
  function SetAddr(v: Vol, i: nat, n: nat, b: nat): Vol
    requires i < |v.inodes| && n < |v.inodes[i].addrs|
  {
    v.(inodes := v.inodes[i := v.inodes[i].(addrs := v.inodes[i].addrs[n := b])])
  }

  function SetEntry(v: Vol, i: nat, k: nat, b: nat): Vol
    requires i < |v.inodes| && |v.inodes[i].addrs| == NDIRECT + 1 && v.inodes[i].addrs[NDIRECT] < |v.blocks|
    requires k < NINDIRECT && b < 0x1_0000_0000
  {
    var ind := v.inodes[i].addrs[NDIRECT];
    v.(blocks := v.blocks[ind := PutWord(v.blocks[ind], k, b)])
  }

  lemma SetDirectAt(v: Vol, i: nat, n: nat, b: nat, s: Slot)
    requires WellFormed(v) && i < |v.inodes| && n < NDIRECT
    ensures At(SetAddr(v, i, n, b), s) == if s == Data(i, n) then b else At(v, s)
  {
  }

  lemma SetIndAt(v: Vol, i: nat, b: nat, s: Slot)
    requires WellFormed(v) && i < |v.inodes| && At(v, Ind(i)) == 0
    requires 0 < b < |v.blocks| && v.blocks[b] == ZeroBlock()
    ensures At(SetAddr(v, i, NDIRECT, b), s) == if s == Ind(i) then b else At(v, s)
  {
    if s.Data? && NDIRECT <= s.bn < MAXFILE {
      WordZero(s.bn - NDIRECT);
    }
  }

  lemma SetEntryAt(v: Vol, i: nat, k: nat, b: nat, s: Slot)
    requires WellFormed(v) && i < |v.inodes| && 0 < At(v, Ind(i)) < |v.blocks| && k < NINDIRECT && b < 0x1_0000_0000
    requires forall j :: 0 <= j && j != i ==> At(v, Ind(j)) != At(v, Ind(i))
    ensures At(SetEntry(v, i, k, b), s) == if s == Data(i, NDIRECT + k) then b else At(v, s)
  {
    if s.Data? && s.inum < |v.inodes| && NDIRECT <= s.bn < MAXFILE {
      if s.inum == i {
        WordPut(v.blocks[At(v, Ind(i))], k, b, s.bn - NDIRECT);
      } else {
        assert At(v, Ind(s.inum)) != At(v, Ind(i));
      }
    }
  }

  lemma IndOwned(v: Vol, owner: map<nat, Slot>, i: nat)
    requires Owned(v, owner) && At(v, Ind(i)) != 0
    ensures v.nmeta <= At(v, Ind(i)) < |v.blocks|
    ensures forall j :: 0 <= j && j != i ==> At(v, Ind(j)) != At(v, Ind(i))
  {
    assert owner[At(v, Ind(i))] == Ind(i);
    forall j | 0 <= j && j != i ensures At(v, Ind(j)) != At(v, Ind(i)) {
      if At(v, Ind(j)) != 0 {
        assert owner[At(v, Ind(j))] == Ind(j);
      }
    }
  }

  // ----- bmap's three ways to grow -----

  function MapDirect(v: Vol, i: nat, bn: nat, b: nat): Vol
    requires b < |v.bits| && b < |v.blocks| && i < |v.inodes| && bn < |v.inodes[i].addrs|
  {
    SetAddr(Taken(v, b), i, bn, b)
  }

  function MapEntry(v: Vol, i: nat, k: nat, b: nat): Vol
    requires b < |v.bits| && b < |v.blocks| && i < |v.inodes| && |v.inodes[i].addrs| == NDIRECT + 1
    requires v.inodes[i].addrs[NDIRECT] < |v.blocks| && k < NINDIRECT && b < 0x1_0000_0000
  {
    SetEntry(Taken(v, b), i, k, b)
  }

  lemma MapDirectOwned(v: Vol, owner: map<nat, Slot>, i: nat, bn: nat, b: nat)
    requires Owned(v, owner) && Free(v, b) && i < |v.inodes| && bn < NDIRECT && At(v, Data(i, bn)) == 0
    ensures Owned(MapDirect(v, i, bn, b), owner[b := Data(i, bn)])
    ensures forall s :: At(MapDirect(v, i, bn, b), s) == if s == Data(i, bn) then b else At(v, s)
  {
    var v' := MapDirect(v, i, bn, b);
    forall s ensures At(v', s) == if s == Data(i, bn) then b else At(v, s) {
      TakenKeepsSlots(v, owner, b, s);
      SetDirectAt(Taken(v, b), i, bn, b, s);
    }
    Attach(v, owner, Data(i, bn), b, v');
  }

  lemma MapIndOwned(v: Vol, owner: map<nat, Slot>, i: nat, b: nat)
    requires Owned(v, owner) && Free(v, b) && i < |v.inodes| && At(v, Ind(i)) == 0
    ensures Owned(MapDirect(v, i, NDIRECT, b), owner[b := Ind(i)])
    ensures forall s :: At(MapDirect(v, i, NDIRECT, b), s) == if s == Ind(i) then b else At(v, s)
  {
    var v' := MapDirect(v, i, NDIRECT, b);
    forall s ensures At(v', s) == if s == Ind(i) then b else At(v, s) {
      TakenKeepsSlots(v, owner, b, s);
      TakenKeepsSlots(v, owner, b, Ind(i));
      SetIndAt(Taken(v, b), i, b, s);
    }
    Attach(v, owner, Ind(i), b, v');
  }

  lemma MapEntryOwned(v: Vol, owner: map<nat, Slot>, i: nat, k: nat, b: nat)
    requires Owned(v, owner) && Free(v, b) && i < |v.inodes| && k < NINDIRECT
    requires At(v, Ind(i)) != 0 && At(v, Data(i, NDIRECT + k)) == 0
    ensures At(v, Ind(i)) < |v.blocks|
    ensures Owned(MapEntry(v, i, k, b), owner[b := Data(i, NDIRECT + k)])
    ensures forall s :: At(MapEntry(v, i, k, b), s) == if s == Data(i, NDIRECT + k) then b else At(v, s)
  {
    IndOwned(v, owner, i);
    var v' := MapEntry(v, i, k, b);
    forall s ensures At(v', s) == if s == Data(i, NDIRECT + k) then b else At(v, s) {
      TakenKeepsSlots(v, owner, b, s);
      SetEntryAt(Taken(v, b), i, k, b, s);
    }
    Attach(v, owner, Data(i, NDIRECT + k), b, v');
  }

  /** Growing one inode by one slot that was empty keeps the shape. */
  lemma ShapeGrows(v: Vol, v': Vol, lens: seq<nat>, i: nat)
    requires Shape(v, lens) && i < |lens| && lens[i] < MAXFILE && |v'.inodes| == |v.inodes|
    requires lens[i] >= NDIRECT ==> At(v, Ind(i)) != 0
    requires At(v', Data(i, lens[i])) != 0
    requires forall s :: s != Data(i, lens[i]) ==> At(v', s) == At(v, s)
    ensures Shape(v', lens[i := lens[i] + 1])
  {
    var lens' := lens[i := lens[i] + 1];
    forall j, bn | 0 <= j < |lens'| && 0 <= bn ensures At(v', Data(j, bn)) != 0 <==> bn < lens'[j] {
      assert At(v, Data(j, bn)) != 0 <==> bn < lens[j];
    }
    forall j | 0 <= j < |lens'| ensures At(v', Ind(j)) == At(v, Ind(j)) {}
  }

  lemma ShapeKeeps(v: Vol, v': Vol, lens: seq<nat>, i: nat)
    requires Shape(v, lens) && i < |lens| && lens[i] >= NDIRECT && |v'.inodes| == |v.inodes|
    requires forall s :: s != Ind(i) ==> At(v', s) == At(v, s)
    requires At(v', Ind(i)) != 0
    ensures Shape(v', lens)
  {
    forall j, bn | 0 <= j < |lens| && 0 <= bn ensures At(v', Data(j, bn)) != 0 <==> bn < lens[j] {
      assert At(v, Data(j, bn)) != 0 <==> bn < lens[j];
    }
    forall j | 0 <= j < |lens| && j != i ensures At(v', Ind(j)) == At(v, Ind(j)) {}
  }

  /** Every mapped byte, every size and every other inode is as it was. */
  ghost predicate Keeps(v: Vol, v': Vol, lens: seq<nat>, i: nat) {
    && |v'.inodes| == |v.inodes| == |lens| && i < |lens| && |v'.blocks| == |v.blocks|
    && (forall j :: 0 <= j < |lens| && j != i ==> v'.inodes[j] == v.inodes[j])
    && v'.inodes[i].size == v.inodes[i].size
    && (forall s :: At(v, s) != 0 ==> At(v', s) == At(v, s))
    && (forall j, k :: 0 <= j < |lens| && 0 <= k < lens[j] * BSIZE ==> ByteAt(v', j, k) == ByteAt(v, j, k))
  }

  /** Bytes stay when mapped slots keep their blocks and data blocks their contents. */
  lemma KeepBytes(v: Vol, owner: map<nat, Slot>, lens: seq<nat>, v': Vol)
    requires Owned(v, owner) && Shape(v, lens) && |v'.blocks| == |v.blocks|
    requires forall s :: At(v, s) != 0 ==> At(v', s) == At(v, s)
    requires forall b :: b in owner && owner[b].Data? ==> v'.blocks[b] == v.blocks[b]
    ensures forall j, k :: 0 <= j < |lens| && 0 <= k < lens[j] * BSIZE ==> ByteAt(v', j, k) == ByteAt(v, j, k)
  {
    forall j, k | 0 <= j < |lens| && 0 <= k < lens[j] * BSIZE ensures ByteAt(v', j, k) == ByteAt(v, j, k) {
      var s := Data(j, k / BSIZE);
      assert At(v, s) != 0;
      assert owner[At(v, s)] == s;
    }
  }

  lemma GrowDirect(v: Vol, owner: map<nat, Slot>, lens: seq<nat>, i: nat, b: nat)
    requires Owned(v, owner) && Shape(v, lens) && Free(v, b) && i < |lens| && lens[i] < NDIRECT
    ensures var v' := MapDirect(v, i, lens[i], b);
            && Owned(v', owner[b := Data(i, lens[i])]) && Shape(v', lens[i := lens[i] + 1])
            && At(v', Data(i, lens[i])) == b && At(v', Ind(i)) == At(v, Ind(i)) && Keeps(v, v', lens, i)
  {
    hide Owned, Shape;
    NextIsEmpty(v, lens, i);
    OwnedFacts(v, owner);
    MapDirectOwned(v, owner, i, lens[i], b);
    var v' := MapDirect(v, i, lens[i], b);
    ShapeGrows(v, v', lens, i);
    KeepBytes(v, owner, lens, v');
  }

  lemma NextIsEmpty(v: Vol, lens: seq<nat>, i: nat)
    requires Shape(v, lens) && i < |lens|
    ensures |lens| == |v.inodes| && lens[i] <= MAXFILE
    ensures At(v, Data(i, lens[i])) == 0 && (lens[i] < NDIRECT ==> At(v, Ind(i)) == 0)
  {
  }

  lemma OwnedFacts(v: Vol, owner: map<nat, Slot>)
    requires Owned(v, owner)
    ensures WellFormed(v)
    ensures forall b :: b in owner ==> v.nmeta <= b < |v.bits| && v.bits[b]
  {
  }

  lemma GrowInd(v: Vol, owner: map<nat, Slot>, lens: seq<nat>, i: nat, b: nat)
    requires Owned(v, owner) && Shape(v, lens) && Free(v, b) && i < |lens| && lens[i] >= NDIRECT && At(v, Ind(i)) == 0
    ensures var v' := MapDirect(v, i, NDIRECT, b);
            && Owned(v', owner[b := Ind(i)]) && Shape(v', lens)
            && At(v', Ind(i)) == b && Keeps(v, v', lens, i)
  {
    hide Owned, Shape;
    NextIsEmpty(v, lens, i);
    OwnedFacts(v, owner);
    MapIndOwned(v, owner, i, b);
    var v' := MapDirect(v, i, NDIRECT, b);
    ShapeKeeps(v, v', lens, i);
    KeepBytes(v, owner, lens, v');
  }

  lemma GrowEntry(v: Vol, owner: map<nat, Slot>, lens: seq<nat>, i: nat, b: nat)
    requires Owned(v, owner) && Shape(v, lens) && Free(v, b) && i < |lens| && NDIRECT <= lens[i] < MAXFILE
    requires At(v, Ind(i)) != 0
    ensures At(v, Ind(i)) < |v.blocks| && b != At(v, Ind(i))
    ensures var v' := MapEntry(v, i, lens[i] - NDIRECT, b);
            && Owned(v', owner[b := Data(i, lens[i])]) && Shape(v', lens[i := lens[i] + 1])
            && At(v', Data(i, lens[i])) == b && At(v', Ind(i)) == At(v, Ind(i)) && Keeps(v, v', lens, i)
  {
    hide Owned, Shape;
    NextIsEmpty(v, lens, i);
    OwnedFacts(v, owner);
    MapEntryOwned(v, owner, i, lens[i] - NDIRECT, b);
    FreeIsUnnamed(v, owner, b, Ind(i));
    var v' := MapEntry(v, i, lens[i] - NDIRECT, b);
    ShapeGrows(v, v', lens, i);
    IndIsNotData(v, owner, i);
    KeepBytes(v, owner, lens, v');
  }

  lemma IndIsNotData(v: Vol, owner: map<nat, Slot>, i: nat)
    requires Owned(v, owner) && At(v, Ind(i)) != 0
    ensures At(v, Ind(i)) in owner && owner[At(v, Ind(i))] == Ind(i)
  {
  }

  // ----- Writing bytes -----

  function Overwrite(b: Block, pos: nat, data: seq<Byte>): (r: Block)
    requires pos + |data| <= BSIZE
  {
    b[..pos] + data + b[pos + |data|..]
  }

  function PutBytes(v: Vol, b: nat, pos: nat, data: seq<Byte>): Vol
    requires b < |v.blocks| && pos + |data| <= BSIZE
  {
    v.(blocks := v.blocks[b := Overwrite(v.blocks[b], pos, data)])
  }

  /** Writing into a data block changes no block map. */
  lemma PutBytesSlots(v: Vol, owner: map<nat, Slot>, t: Slot, pos: nat, data: seq<Byte>, s: Slot)
    requires Owned(v, owner) && t.Data? && At(v, t) != 0 && pos + |data| <= BSIZE
    ensures At(v, t) < |v.blocks|
    ensures At(PutBytes(v, At(v, t), pos, data), s) == At(v, s)
  {
    assert owner[At(v, t)] == t;
    if s.inum < |v.inodes| && At(v, Ind(s.inum)) != 0 {
      assert owner[At(v, Ind(s.inum))] == Ind(s.inum);
    }
  }

  lemma PutBytesOwned(v: Vol, owner: map<nat, Slot>, lens: seq<nat>, t: Slot, pos: nat, data: seq<Byte>)
    requires Owned(v, owner) && Shape(v, lens) && t.Data? && At(v, t) != 0 && pos + |data| <= BSIZE
    ensures At(v, t) < |v.blocks|
    ensures var v' := PutBytes(v, At(v, t), pos, data);
            Owned(v', owner) && Shape(v', lens) && forall s :: At(v', s) == At(v, s)
  {
    PutBytesSlots(v, owner, t, pos, data, t);
    var v' := PutBytes(v, At(v, t), pos, data);
    forall s ensures At(v', s) == At(v, s) {
      PutBytesSlots(v, owner, t, pos, data, s);
    }
    forall i, bn | 0 <= i < |lens| && 0 <= bn ensures At(v', Data(i, bn)) != 0 <==> bn < lens[i] {
      assert At(v, Data(i, bn)) != 0 <==> bn < lens[i];
    }
    forall i | 0 <= i < |lens| ensures At(v', Ind(i)) == At(v, Ind(i)) {}
  }

  /** Only the bytes written change. */
  lemma PutBytesAt(v: Vol, owner: map<nat, Slot>, lens: seq<nat>, i: nat, bn: nat, pos: nat, data: seq<Byte>, j: nat, k: nat)
    requires Owned(v, owner) && Shape(v, lens) && i < |lens| && bn < lens[i] && pos + |data| <= BSIZE
    requires j < |lens| && k < lens[j] * BSIZE
    ensures At(v, Data(i, bn)) < |v.blocks|
    ensures var v' := PutBytes(v, At(v, Data(i, bn)), pos, data);
            var at := bn * BSIZE + pos;
            ByteAt(v', j, k) == if j == i && at <= k < at + |data| then data[k - at] else ByteAt(v, j, k)
  {
    var t, s := Data(i, bn), Data(j, k / BSIZE);
    assert At(v, t) != 0 && At(v, s) != 0;
    assert owner[At(v, t)] == t && owner[At(v, s)] == s;
    PutBytesSlots(v, owner, t, pos, data, s);
  }

  // ----- One write, part done -----

  /** v is v0 after the first `done` bytes of src have been written at off. */
  ghost predicate Written(v0: Vol, lens0: seq<nat>, v: Vol, i: nat, off: nat, src: seq<Byte>, done: nat) {
    && |v.inodes| == |v0.inodes| == |lens0| && i < |lens0| && done <= |src| && |v.blocks| == |v0.blocks|
    && (forall j :: 0 <= j < |lens0| && j != i ==> v.inodes[j] == v0.inodes[j])
    && v.inodes[i].size == v0.inodes[i].size
    && (forall s :: At(v0, s) != 0 ==> At(v, s) == At(v0, s))
    && (forall j, k :: 0 <= j < |lens0| && j != i && 0 <= k < lens0[j] * BSIZE ==> ByteAt(v, j, k) == ByteAt(v0, j, k))
    && (forall k :: 0 <= k < lens0[i] * BSIZE || 0 <= k < off + done ==>
          ByteAt(v, i, k) == if off <= k < off + done then src[k - off] else ByteAt(v0, i, k))
  }

  /** Mapping one more block does not disturb what has been written. */
  lemma WrittenMap(v0: Vol, lens0: seq<nat>, v: Vol, lens: seq<nat>, v1: Vol, i: nat, off: nat, src: seq<Byte>, done: nat)
    requires Written(v0, lens0, v, i, off, src, done) && Keeps(v, v1, lens, i) && |lens| == |lens0|
    requires forall j :: 0 <= j < |lens| ==> lens0[j] <= lens[j]
    requires off + done <= lens[i] * BSIZE
    ensures Written(v0, lens0, v1, i, off, src, done)
  {
    hide At, ByteAt;
  }

  /** Copying the next m bytes into their block. */
  lemma WrittenPut(v0: Vol, lens0: seq<nat>, v: Vol, lens: seq<nat>, owner: map<nat, Slot>,
                   i: nat, off: nat, src: seq<Byte>, done: nat, m: nat)
    requires Written(v0, lens0, v, i, off, src, done) && Owned(v, owner) && Shape(v, lens) && |lens| == |lens0|
    requires forall j :: 0 <= j < |lens| ==> lens0[j] <= lens[j]
    requires (off + done) / BSIZE < lens[i] && done + m <= |src| && (off + done) % BSIZE + m <= BSIZE
    ensures At(v, Data(i, (off + done) / BSIZE)) < |v.blocks|
    ensures var v2 := PutBytes(v, At(v, Data(i, (off + done) / BSIZE)), (off + done) % BSIZE, src[done..done + m]);
            Owned(v2, owner) && Shape(v2, lens) && (forall s :: At(v2, s) == At(v, s))
            && Written(v0, lens0, v2, i, off, src, done + m)
  {
    hide At, ByteAt, Owned, Shape, Overwrite;
    var bn, pos := (off + done) / BSIZE, (off + done) % BSIZE;
    var data := src[done..done + m];
    NextMapped(v, lens, i, bn);
    PutBytesOwned(v, owner, lens, Data(i, bn), pos, data);
    var v2 := PutBytes(v, At(v, Data(i, bn)), pos, data);
    forall j, k | 0 <= j < |lens| && 0 <= k < lens[j] * BSIZE
      ensures ByteAt(v2, j, k) == if j == i && off + done <= k < off + done + m then src[k - off] else ByteAt(v, j, k)
    {
      PutBytesAt(v, owner, lens, i, bn, pos, data, j, k);
      assert bn * BSIZE + pos == off + done;
    }
    assert off + done + m <= lens[i] * BSIZE;
  }

  lemma NextMapped(v: Vol, lens: seq<nat>, i: nat, bn: nat)
    requires Shape(v, lens) && i < |lens| && bn < lens[i]
    ensures At(v, Data(i, bn)) != 0
  {
  }
}
