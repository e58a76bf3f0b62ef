/** The `log` of log.c over a disk: the in-memory header, the buffers pinned by
    B_DIRTY, and the loops that copy, install and recover.  Every block write is
    recorded in `writes`, so each method's crash points are the prefixes of what
    it adds there.
 */
module Log {
  import opened Disk
  import opened RedoLog

  /** log.lh.n may not reach this when log_write is called. */
  function Capacity(L: Layout): int {
    if L.size - 1 < LOGSIZE then L.size - 1 else LOGSIZE
  }

  /** Log absorption: a block already in the header is not added again. */
  function Absorb(lh: seq<nat>, b: nat): (r: seq<nat>)
  {
    if b in lh then lh else lh + [b]
  }

  /** The listed blocks with their cached contents. */
  ghost function TxnOf(lh: seq<nat>, cache: map<nat, Block>): (t: Txn)
    requires forall i :: 0 <= i < |lh| ==> lh[i] in cache
    ensures |t| == |lh| && Homes(t) == lh
    ensures forall i {:trigger t[i]} :: 0 <= i < |lh| ==> t[i] == Write(lh[i], cache[lh[i]])
  {
    var t := seq(|lh|, i requires 0 <= i < |lh| => Write(lh[i], cache[lh[i]]));
    assert Homes(t) == lh;
    t
  }

  class FsLog {
    const L: Layout
    var disk: Image
    var lh: seq<nat>            // lh.block[0..lh.n)
    var cache: map<nat, Block>  // buffers newer than the disk
    var outstanding: int
    ghost var writes: seq<Write>

    ghost predicate Geometry()
      reads this`disk
    {
      0 < L.size && L.start + L.size <= |disk| && HeaderSane(disk[L.start])
    }

    ghost predicate Valid()
      reads this`disk, this`lh, this`cache
    {
      && Geometry()
      && GoodHomes(L, disk, lh)
      && (forall b :: b in cache <==> b in lh)
    }

    /** bread: the cached copy if there is one. */
    function Bread(b: nat): Block
      requires b < |disk|
      reads this`disk, this`cache
    {
      if b in cache then cache[b] else disk[b]
    }

    /** The transaction a commit would write. */
    ghost function Pending(): (t: Txn)
      requires Valid()
      reads this`disk, this`lh, this`cache
      ensures Homes(t) == lh
    {
      TxnOf(lh, cache)
    }

    lemma LogNotCached()
      requires Valid()
      ensures forall x :: L.start <= x < L.start + L.size ==> x !in cache
    {
      forall x: nat | L.start <= x < L.start + L.size ensures x !in cache {
        assert InLog(L, x);
      }
    }

    /** bwrite: one atomic disk write; the buffer is clean afterwards. */
    method Bwrite(b: nat, data: Block)
      requires b < |disk|
      modifies this`disk, this`writes, this`cache
      ensures disk == old(disk)[b := data]
      ensures writes == old(writes) + [Write(b, data)]
      ensures cache == old(cache) - {b}
    {
      disk := disk[b := data];
      writes := writes + [Write(b, data)];
      cache := cache - {b};
    }

    /** log_write on a buffer whose data the caller has just changed.  Returns
        true for panic; the guard looks at the count before absorption. */
    method LogWrite(b: nat, data: Block) returns (panic: bool)
      requires Valid() && b < |disk| && !InLog(L, b)
      modifies this`lh, this`cache
      ensures panic <==> |old(lh)| >= 30 || |old(lh)| >= L.size - 1 || outstanding < 1
      ensures panic ==> lh == old(lh) && cache == old(cache)
      ensures !panic ==> Valid() && lh == Absorb(old(lh), b) && cache == old(cache)[b := data]
    {
      if |lh| >= LOGSIZE || |lh| >= L.size - 1 {
        return true;
      }
      if outstanding < 1 {
        return true;
      }
      var i := 0;
      while i < |lh|
        invariant 0 <= i <= |lh|
        invariant forall j :: 0 <= j < i ==> lh[j] != b
      {
        if lh[i] == b {
          break;
        }
        i := i + 1;
      }
      if i == |lh| {
        lh := lh + [b];
      } else {
        lh := lh[i := b];
      }
      assert lh == Absorb(old(lh), b);
      cache := cache[b := data];
      forall x: nat ensures x in cache <==> x in lh {
        assert x in lh <==> x in old(lh) || x == b;
      }
      panic := false;
    }

    /** write_log */
    method WriteLog()
      requires Valid() && FitsLog(L, |lh|)
      modifies this`disk, this`writes, this`cache
      ensures Valid() && lh == old(lh) && cache == old(cache)
      ensures Pending() == old(Pending())
      ensures disk == Apply(old(disk), CopyWrites(L, Pending()))
      ensures writes == old(writes) + CopyWrites(L, Pending())
    {
      hide GoodHomes, Apply;
      ghost var ws := CopyWrites(L, Pending());
      LogNotCached();
      HomesFit(L, disk, lh);
      ApplyNone(disk, ws);
      var tail := 0;
      while tail < |lh|
        invariant 0 <= tail <= |lh|
        invariant |disk| == |old(disk)| && disk[L.start] == old(disk)[L.start]
        invariant cache == old(cache)
        invariant disk == Apply(old(disk), ws[..tail])
        invariant writes == old(writes) + ws[..tail]
      {
        var y := L.start + tail + 1;
        var data := Bread(lh[tail]);
        assert lh[tail] in cache && ws[tail] == Write(y, data);
        ApplyNext(old(disk), ws, tail);
        TraceNext(old(writes), ws, tail);
        Bwrite(y, data);
        assert cache == old(cache);
        tail := tail + 1;
      }
      assert ws[..|lh|] == ws;
      SameSize(L, old(disk), disk, lh);
    }

    /** write_head: overlay the count and entries on the header block. */
    method WriteHead()
      requires Geometry() && |lh| <= LOGSIZE && L.start !in cache
      modifies this`disk, this`writes, this`cache
      ensures var w := Write(L.start, PutHeader(old(disk)[L.start], lh));
              disk == old(disk)[L.start := w.data] && writes == old(writes) + [w]
      ensures cache == old(cache)
    {
      var hb := Bread(L.start);
      ghost var was := hb.block;
      hb := hb.(n := |lh|);
      var i := 0;
      while i < |lh|
        invariant 0 <= i <= |lh|
        invariant hb == disk[L.start].(n := |lh|, block := lh[..i] + was[i..])
      {
        hb := hb.(block := hb.block[i := lh[i]]);
        assert hb.block == lh[..i + 1] + was[i + 1..];
        i := i + 1;
      }
      assert lh[..|lh|] == lh;
      Bwrite(L.start, hb);
      assert cache == old(cache);
    }

    /** install_trans: copy log blocks to the home blocks lh names. */
    method InstallTrans()
      requires Geometry() && GoodHomes(L, disk, lh)
      requires forall x :: L.start <= x < L.start + L.size ==> x !in cache
      modifies this`disk, this`writes, this`cache
      ensures Geometry() && disk[L.start] == old(disk)[L.start]
      ensures disk == Apply(old(disk), InstallWrites(L, old(disk), lh))
      ensures writes == old(writes) + InstallWrites(L, old(disk), lh)
      ensures cache.Keys <= old(cache.Keys) && forall i :: 0 <= i < |lh| ==> lh[i] !in cache
    {
      hide GoodHomes, Apply;
      ghost var ws := InstallWrites(L, disk, lh);
      HomesFit(L, disk, lh);
      ApplyNone(disk, ws);
      var tail := 0;
      while tail < |lh|
        invariant 0 <= tail <= |lh|
        invariant disk == Apply(old(disk), ws[..tail])
        invariant writes == old(writes) + ws[..tail]
        invariant cache.Keys <= old(cache.Keys) && forall i :: 0 <= i < tail ==> lh[i] !in cache
      {
        InstallStep(L, old(disk), lh, tail, ws, disk);
        TraceNext(old(writes), ws, tail);
        var lbuf := Bread(L.start + tail + 1);
        Bwrite(lh[tail], lbuf);
        tail := tail + 1;
      }
      assert ws[..|lh|] == ws;
      InstallKeepsLogBlocks(L, old(disk), lh, |lh|, L.start);
    }

    /** commit up to and including the header write that commits. */
    method CopyAndCommit()
      requires Valid() && Formatted(L, disk)
      modifies this`disk, this`writes, this`cache
      ensures Valid() && cache == old(cache) && Pending() == old(Pending())
      ensures disk == AtCommitPoint(L, old(disk), Pending())
      ensures writes == old(writes) + CopyWrites(L, Pending()) + [HeadWrite(L, old(disk), lh)]
    {
      ghost var t := Pending();
      LogNotCached();
      WriteLog();
      CommitPointIs(L, old(disk), t);
      WriteHead();
      HeaderRoundTrip(old(disk)[L.start], lh);
    }

    /** commit from the commit point on: install, then write the header again. */
    method InstallAndWriteHead(ghost d: Image, ghost t: Txn)
      requires Valid() && Formatted(L, d) && GoodTxn(L, d, t) && t != []
      requires lh == Homes(t) && disk == AtCommitPoint(L, d, t)
      modifies this`disk, this`writes, this`cache
      ensures cache == map[]
      ensures disk == Apply(d, CommitWrites(L, d, t, KeepsCount))
      ensures writes == old(writes) + t + [LastHead(L, d, t, KeepsCount)]
    {
      InstallIsTxn(L, d, t);
      CommitPointAt(L, d, t, L.start);
      LogNotCached();
      InstallTrans();
      assert cache == map[];
      WriteHead();
      CommitEnd(L, d, t, KeepsCount);
    }

    /** commit, host part.  The count in memory is reset only at the end, so
        the second header write still carries it. */
    method Commit()
      requires Valid() && Formatted(L, disk)
      modifies this`disk, this`writes, this`cache, this`lh
      ensures Valid() && Formatted(L, disk) && lh == [] && cache == map[]
      ensures disk == Apply(old(disk), CommitWrites(L, old(disk), old(Pending()), KeepsCount))
      ensures writes == old(writes) + CommitWrites(L, old(disk), old(Pending()), KeepsCount)
    {
      ghost var t := Pending();
      if |lh| > 0 {
        CopyAndCommit();
        InstallAndWriteHead(old(disk), t);
        StillFormatted(L, old(disk), t);
        InOrder(old(writes), CopyWrites(L, t), HeadWrite(L, old(disk), lh), t, LastHead(L, old(disk), t, KeepsCount));
      } else {
        assert cache == map[];
      }
      lh := [];
    }

    /** recover_from_log at boot, when nothing is cached. */
    method RecoverFromLog()
      requires Formatted(L, disk) && cache == map[]
      modifies this`disk, this`writes, this`cache, this`lh
      ensures Valid() && Cleared(L, disk) && lh == [] && cache == map[]
      ensures disk == Recover(L, old(disk))
      ensures writes == old(writes) + RecoverWrites(L, old(disk))
    {
      var hb := Bread(L.start);
      lh := [];
      var i := 0;
      while i < hb.n
        invariant 0 <= i <= hb.n && lh == hb.block[..i]
        invariant disk == old(disk) && cache == map[] && writes == old(writes)
      {
        lh := lh + [hb.block[i]];
        i := i + 1;
      }
      ghost var ws := InstallWrites(L, disk, lh);
      InstallTrans();
      lh := [];
      assert cache == map[];
      WriteHead();
      ghost var w := Write(L.start, PutHeader(old(disk)[L.start], []));
      assert (ws + [w])[..|ws|] == ws;
      RecoverClears(L, old(disk));
      assert writes == old(writes) + (ws + [w]);
    }
  }

  lemma HomesFit(L: Layout, d: Image, es: seq<nat>)
    requires GoodHomes(L, d, es)
    ensures |es| <= LOGSIZE && |es| < L.size && forall i :: 0 <= i < |es| ==> es[i] < |d|
  {
  }

  lemma SameSize(L: Layout, d: Image, e: Image, es: seq<nat>)
    requires GoodHomes(L, d, es) && |d| == |e|
    ensures GoodHomes(L, e, es)
  {
  }

  lemma InOrder(was: seq<Write>, a: seq<Write>, h: Write, t: seq<Write>, z: Write)
    ensures was + a + [h] + t + [z] == was + (a + [h] + t + [z])
  {
  }

  /** Installing does not touch the log it reads. */
  lemma InstallKeepsLogBlocks(L: Layout, d: Image, es: seq<nat>, k: nat, y: nat)
    requires L.start + L.size <= |d| && GoodHomes(L, d, es) && k <= |es| && InLog(L, y)
    ensures Apply(d, InstallWrites(L, d, es)[..k])[y] == d[y]
  {
    var ws := InstallWrites(L, d, es)[..k];
    forall i | 0 <= i < k ensures ws[i].block != y {
      assert ws[i].block == es[i] && !InLog(L, es[i]);
    }
    ApplyFrame(d, ws, y);
  }

  lemma InstallStep(L: Layout, d: Image, es: seq<nat>, k: nat, ws: seq<Write>, e: Image)
    requires L.start + L.size <= |d| && GoodHomes(L, d, es) && k < |es|
    requires ws == InstallWrites(L, d, es) && e == Apply(d, ws[..k])
    ensures ws[k] == Write(es[k], e[L.start + k + 1])
    ensures Apply(d, ws[..k + 1]) == e[es[k] := e[L.start + k + 1]]
  {
    hide Apply;
    var y := L.start + k + 1;
    InstallKeepsLogBlocks(L, d, es, k, y);
    assert ws[k] == Write(es[k], d[y]);
    ApplyNext(d, ws, k);
  }

  lemma StillFormatted(L: Layout, d: Image, t: Txn)
    requires Formatted(L, d) && GoodTxn(L, d, t) && t != []
    ensures Formatted(L, Apply(d, CommitWrites(L, d, t, KeepsCount)))
  {
    AfterCommit(L, d, t, KeepsCount);
  }

  lemma CommitPointIs(L: Layout, d: Image, t: Txn)
    requires Formatted(L, d) && GoodTxn(L, d, t)
    ensures var a := Apply(d, CopyWrites(L, t));
            a[L.start] == d[L.start] && AtCommitPoint(L, d, t) == a[L.start := PutHeader(d[L.start], Homes(t))]
  {
    var ws := CopyWrites(L, t);
    CopyAt(L, d, t, |t|, L.start);
    assert ws[..|t|] == ws;
    var h := HeadWrite(L, d, Homes(t));
    assert (ws + [h])[..|ws|] == ws;
  }

  /** Installing from the log blocks of the commit point writes the transaction. */
  lemma InstallIsTxn(L: Layout, d: Image, t: Txn)
    requires Formatted(L, d) && GoodTxn(L, d, t)
    ensures InstallWrites(L, AtCommitPoint(L, d, t), Homes(t)) == t
  {
    var c := AtCommitPoint(L, d, t);
    CommitPointFacts(L, d, t, c);
    var ws := InstallWrites(L, c, Homes(t));
    forall i | 0 <= i < |t| ensures ws[i] == t[i] {
      assert Homes(t)[i] == t[i].block;
    }
  }
}
