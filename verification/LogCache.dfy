/** The log's view of the buffer cache.  FsLog keeps the blocks newer than the
    disk in a map; here that map is the dirty buffers of bio.c, each of its
    changes is what bio.c does, and reading a logged block through the cache
    gives the transaction's data.
 */
module LogCache {
  import opened Lists
  import opened Disk
  import opened RedoLog
  import opened Log
  import opened Ring
  import opened Bio

  /** The buffer holds a block of the device that has been logged and not yet
      written home. */
  ghost predicate Pinned(buf: Buf, dev: nat, b: nat) {
    buf.key == Key(dev, b) && buf.dirty
  }

  /** The image is the device and the map its dirty buffers. */
  ghost predicate Refines(bufs: seq<Buf>, disk: map<Key, Block>, dev: nat, image: Image, cache: map<nat, Block>) {
    && (forall b: nat :: b < |image| ==> Key(dev, b) in disk && disk[Key(dev, b)] == image[b])
    && (forall i, b: nat :: 0 <= i < |bufs| && Pinned(bufs[i], dev, b) ==> b in cache && cache[b] == bufs[i].data)
    && (forall b :: b in cache ==> exists i :: 0 <= i < |bufs| && Pinned(bufs[i], dev, b))
  }

  /** Nobody holds a buffer of the block. */
  ghost predicate AtRest(bufs: seq<Buf>, key: Key) {
    forall i :: 0 <= i < |bufs| && bufs[i].key == key ==> !bufs[i].locked
  }

  /** What a reader gets of a block at rest is what the log's bread gives. */
  lemma BreadRefines(bufs: seq<Buf>, disk: map<Key, Block>, view: map<Key, Block>, dev: nat, image: Image, cache: map<nat, Block>, b: nat)
    requires Unique(bufs) && Agrees(bufs, disk, view) && Refines(bufs, disk, dev, image, cache) && dev != 0 && b < |image|
    requires b in cache || AtRest(bufs, Key(dev, b))
    ensures Key(dev, b) in view && view[Key(dev, b)] == if b in cache then cache[b] else image[b]
  {
    var key := Key(dev, b);
    if b in cache {
      var i :| 0 <= i < |bufs| && Pinned(bufs[i], dev, b);
      assert BufOk(bufs[i], disk, view);
    } else if i :| 0 <= i < |bufs| && bufs[i].key == key && bufs[i].valid {
      assert BufOk(bufs[i], disk, view);
      assert !Pinned(bufs[i], dev, b);
    } else {
      assert forall i :: 0 <= i < |bufs| ==> bufs[i].key != key || !bufs[i].valid;
    }
  }

  /** log_write on a buffer with new data: the map gets the block. */
  lemma LogWriteRefines(bufs: seq<Buf>, disk: map<Key, Block>, dev: nat, image: Image, cache: map<nat, Block>, i: nat, b: nat, data: Block)
    requires Unique(bufs) && Refines(bufs, disk, dev, image, cache) && dev != 0 && i < |bufs| && bufs[i].key == Key(dev, b)
    ensures Refines(bufs[i := bufs[i].(data := data, dirty := true)], disk, dev, image, cache[b := data])
  {
    var bufs' := bufs[i := bufs[i].(data := data, dirty := true)];
    forall j, c: nat | 0 <= j < |bufs'| && Pinned(bufs'[j], dev, c) ensures c in cache[b := data] && cache[b := data][c] == bufs'[j].data
    {
      if j != i {
        assert Pinned(bufs[j], dev, c);
        assert bufs[j].key != bufs[i].key;
      }
    }
    var cache' := cache[b := data];
    forall c | c in cache' ensures exists j :: 0 <= j < |bufs'| && Pinned(bufs'[j], dev, c) {
      if c == b {
        assert Pinned(bufs'[i], dev, b);
      } else {
        var j :| 0 <= j < |bufs| && Pinned(bufs[j], dev, c);
        assert Pinned(bufs'[j], dev, c);
      }
    }
  }

  /** bwrite: the image gets the buffer's data, the map loses the block. */
  lemma BwriteRefines(bufs: seq<Buf>, disk: map<Key, Block>, dev: nat, image: Image, cache: map<nat, Block>, i: nat, b: nat)
    requires Unique(bufs) && Refines(bufs, disk, dev, image, cache) && dev != 0 && b < |image|
    requires i < |bufs| && bufs[i].key == Key(dev, b)
    ensures Refines(bufs[i := bufs[i].(dirty := false)], disk[Key(dev, b) := bufs[i].data], dev, image[b := bufs[i].data], cache - {b})
  {
    var bufs' := bufs[i := bufs[i].(dirty := false)];
    forall j, c: nat | 0 <= j < |bufs'| && Pinned(bufs'[j], dev, c) ensures c in cache - {b} && cache[c] == bufs'[j].data {
      assert Pinned(bufs[j], dev, c);
      assert bufs[j].key != bufs[i].key;
    }
    forall c | c in cache - {b} ensures exists j :: 0 <= j < |bufs'| && Pinned(bufs'[j], dev, c) {
      var j :| 0 <= j < |bufs| && Pinned(bufs[j], dev, c);
      assert Pinned(bufs'[j], dev, c);
    }
  }

  /** Everything else keeps the dirty buffers as they are: bget recycles none of
      them, and locks and counts are not seen. */
  lemma OthersRefine(bufs: seq<Buf>, disk: map<Key, Block>, dev: nat, image: Image, cache: map<nat, Block>, bufs': seq<Buf>)
    requires Refines(bufs, disk, dev, image, cache) && |bufs'| == |bufs|
    requires forall i :: 0 <= i < |bufs| && (bufs[i].dirty || bufs'[i].dirty) ==>
               bufs[i].dirty && bufs'[i].dirty && bufs'[i].key == bufs[i].key && bufs'[i].data == bufs[i].data
    ensures Refines(bufs', disk, dev, image, cache)
  {
    forall i, b: nat | 0 <= i < |bufs'| && Pinned(bufs'[i], dev, b) ensures b in cache && cache[b] == bufs'[i].data {
      assert Pinned(bufs[i], dev, b);
    }
    forall b | b in cache ensures exists i :: 0 <= i < |bufs'| && Pinned(bufs'[i], dev, b) {
      var i :| 0 <= i < |bufs| && Pinned(bufs[i], dev, b);
      assert Pinned(bufs'[i], dev, b);
    }
  }

  /** write_log's bread of a block in the header gives the transaction's data,
      whoever has used the cache since log_write. */
  lemma WriteLogReads(c: Cache, log: FsLog, dev: nat, k: nat)
    requires c.Valid() && log.Valid() && Refines(c.bufs, c.disk, dev, log.disk, log.cache) && dev != 0 && k < |log.lh|
    ensures Key(dev, log.lh[k]) in c.view && c.view[Key(dev, log.lh[k])] == log.Pending()[k].data == log.cache[log.lh[k]]
  {
    assert log.lh[k] in log.lh;
    BreadRefines(c.bufs, c.disk, c.view, dev, log.disk, log.cache, log.lh[k]);
  }

  // ----- write_log on the buffer cache -----

  /** Blocks that each have a dirty buffer leave no other buffer when there are as
      many of them as buffers. */
  lemma AllDirty(bufs: seq<Buf>, pinned: set<Key>)
    requires forall k :: k in pinned ==> exists i :: 0 <= i < |bufs| && bufs[i].key == k && bufs[i].dirty
    requires |pinned| >= |bufs|
    ensures forall i :: 0 <= i < |bufs| ==> bufs[i].dirty
  {
    forall j | 0 <= j < |bufs| ensures bufs[j].dirty || |pinned| < |bufs| {
      FewPinned(bufs, pinned, j);
    }
  }

  lemma FewPinned(bufs: seq<Buf>, pinned: set<Key>, j: nat)
    requires forall k :: k in pinned ==> exists i :: 0 <= i < |bufs| && bufs[i].key == k && bufs[i].dirty
    requires j < |bufs|
    ensures bufs[j].dirty || |pinned| < |bufs|
  {
    var dirty := DirtyKeys(bufs, |bufs|);
    SubsetCount(pinned, dirty);
    if !bufs[j].dirty {
      DirtyKeysFew(bufs, |bufs|, j);
    }
  }

  ghost function DirtyKeys(bufs: seq<Buf>, n: nat): (ks: set<Key>)
    requires n <= |bufs|
    ensures forall i :: 0 <= i < n && bufs[i].dirty ==> bufs[i].key in ks
  {
    if n == 0 then {} else DirtyKeys(bufs, n - 1) + if bufs[n - 1].dirty then {bufs[n - 1].key} else {}
  }

  lemma {:induction false} DirtyKeysFew(bufs: seq<Buf>, n: nat, j: nat)
    requires n <= |bufs| && j < |bufs| && !bufs[j].dirty
    ensures |DirtyKeys(bufs, n)| <= if j < n then n - 1 else n
    decreases n
  {
    if n > 0 {
      DirtyKeysFew(bufs, n - 1, j);
    }
  }

  ghost function Keys(dev: nat, bs: seq<nat>): (ks: set<Key>)
    ensures forall b :: b in bs ==> Key(dev, b) in ks
    ensures forall k :: k in ks ==> k.dev == dev && k.blockno in bs
  {
    set b | b in bs :: Key(dev, b)
  }

  lemma {:induction false} KeysCount(dev: nat, bs: seq<nat>)
    requires Distinct(bs)
    ensures |Keys(dev, bs)| == |bs|
    decreases |bs|
  {
    if bs != [] {
      var n := |bs| - 1;
      KeysCount(dev, bs[..n]);
      assert bs == bs[..n] + [bs[n]];
      assert Keys(dev, bs) == Keys(dev, bs[..n]) + {Key(dev, bs[n])};
    }
  }

  /** NBUF blocks in the header have every buffer. */
  lemma HeaderTakesAll(bufs: seq<Buf>, disk: map<Key, Block>, dev: nat, image: Image, cache: map<nat, Block>, lh: seq<nat>)
    requires Refines(bufs, disk, dev, image, cache) && Distinct(lh) && (forall k :: 0 <= k < |lh| ==> lh[k] in cache) && |lh| >= |bufs|
    ensures forall i :: 0 <= i < |bufs| ==> bufs[i].dirty
  {
    KeysCount(dev, lh);
    forall k | k in Keys(dev, lh) ensures exists i :: 0 <= i < |bufs| && bufs[i].key == k && bufs[i].dirty {
      var i :| 0 <= i < |bufs| && Pinned(bufs[i], dev, k.blockno);
    }
    AllDirty(bufs, Keys(dev, lh));
  }

  /** So bget has none for a block that is not logged, such as a log block, whoever
      holds what. */
  lemma HeaderLeavesNone(bufs: seq<Buf>, disk: map<Key, Block>, dev: nat, image: Image, cache: map<nat, Block>, lh: seq<nat>, b: nat)
    requires Refines(bufs, disk, dev, image, cache) && Distinct(lh) && (forall k :: 0 <= k < |lh| ==> lh[k] in cache) && |lh| >= |bufs|
    requires b !in cache
    ensures NoBuffer(bufs, Key(dev, b))
  {
    HeaderTakesAll(bufs, disk, dev, image, cache, lh);
    PinnedBuffer(bufs, disk, dev, image, cache, b);
  }

  /** No process holds a buffer. */
  ghost predicate Unheld(bufs: seq<Buf>) {
    forall i :: 0 <= i < |bufs| ==> bufs[i].refcnt == 0 && !bufs[i].locked
  }

  /** bread through the buffer cache, seen from the log.  bget panics exactly when
      the block is not cached and every buffer is referenced or dirty. */
  method BreadForLog(c: Cache, dev: nat, b: nat, ghost image: Image, ghost cache: map<nat, Block>) returns (panic: bool, i: nat)
    requires c.Valid() && Refines(c.bufs, c.disk, dev, image, cache) && dev != 0 && b < |image| && AtRest(c.bufs, Key(dev, b))
    modifies c`bufs
    ensures panic <==> NoBuffer(old(c.bufs), Key(dev, b))
    ensures !panic ==> c.Valid() && i < |c.bufs| && |c.bufs| == |old(c.bufs)| && Refines(c.bufs, c.disk, dev, image, cache)
    ensures !panic ==> c.bufs[i].key == Key(dev, b) && c.bufs[i].locked && c.bufs[i].valid
    ensures !panic ==> c.bufs[i].data == if b in cache then cache[b] else image[b]
    ensures !panic ==> c.bufs[i].refcnt == (if old(c.bufs)[i].key == Key(dev, b) then old(c.bufs)[i].refcnt else 0) + 1
    ensures !panic ==> forall j :: 0 <= j < |c.bufs| ==> c.bufs[j].dirty == old(c.bufs)[j].dirty
    ensures !panic ==> forall j :: 0 <= j < |c.bufs| && j != i ==> c.bufs[j] == old(c.bufs)[j] && c.bufs[j].key != Key(dev, b)
  {
    hide RingOk, Agrees, Unique, Refines;
    BreadRefines(c.bufs, c.disk, c.view, dev, image, cache, b);
    InDisk(c.bufs, c.disk, dev, image, cache, b);
    panic, i := c.Bread(Key(dev, b));
    if !panic {
      OthersRefine(old(c.bufs), c.disk, dev, image, cache, c.bufs);
    }
  }

  lemma InDisk(bufs: seq<Buf>, disk: map<Key, Block>, dev: nat, image: Image, cache: map<nat, Block>, b: nat)
    requires Refines(bufs, disk, dev, image, cache) && b < |image|
    ensures Key(dev, b) in disk && disk[Key(dev, b)] == image[b]
  {
  }

  lemma PinnedBuffer(bufs: seq<Buf>, disk: map<Key, Block>, dev: nat, image: Image, cache: map<nat, Block>, b: nat)
    requires Refines(bufs, disk, dev, image, cache)
    ensures forall i :: 0 <= i < |bufs| && bufs[i].key == Key(dev, b) && bufs[i].dirty ==> b in cache
    ensures b in cache ==> exists i :: 0 <= i < |bufs| && bufs[i].key == Key(dev, b) && bufs[i].dirty
  {
    if b in cache {
      var i :| 0 <= i < |bufs| && Pinned(bufs[i], dev, b);
    }
    forall i | 0 <= i < |bufs| && bufs[i].key == Key(dev, b) && bufs[i].dirty ensures b in cache {
      assert Pinned(bufs[i], dev, b);
    }
  }

  /** One turn of write_log: a logged block is copied to a log block. */
  method CopyToLog(c: Cache, dev: nat, src: nat, dst: nat, ghost image: Image, ghost cache: map<nat, Block>) returns (panic: bool)
    requires c.Valid() && Unheld(c.bufs) && Refines(c.bufs, c.disk, dev, image, cache) && dev != 0
    requires src in cache && src < |image| && dst !in cache && dst < |image|
    modifies c
    ensures panic <==> forall i :: 0 <= i < |old(c.bufs)| ==> old(c.bufs)[i].dirty
    ensures !panic ==> c.Valid() && Unheld(c.bufs) && Refines(c.bufs, c.disk, dev, image[dst := cache[src]], cache)
    ensures !panic ==> exists i :: 0 <= i < |c.bufs| && !c.bufs[i].dirty
  {
    hide RingOk, Agrees, Unique, Refines;
    PinnedBuffer(c.bufs, c.disk, dev, image, cache, src);
    PinnedBuffer(c.bufs, c.disk, dev, image, cache, dst);
    var to, from;
    panic, to := BreadForLog(c, dev, dst, image, cache);
    if panic {
      return;
    }
    PinnedBuffer(c.bufs, c.disk, dev, image, cache, dst);
    panic, from := BreadForLog(c, dev, src, image, cache);
    assert !panic && c.bufs[from].dirty && !c.bufs[to].dirty;
    CopyHeld(c, dev, from, to, dst, image, cache);
  }

  /** Both buffers held: the copy, bwrite, and brelse of both. */
  method CopyHeld(c: Cache, dev: nat, from: nat, to: nat, dst: nat, ghost image: Image, ghost cache: map<nat, Block>)
    requires c.Valid() && Refines(c.bufs, c.disk, dev, image, cache) && dev != 0 && from < NBUF && to < NBUF && from != to
    requires c.bufs[from].locked && c.bufs[from].refcnt == 1 && c.bufs[from].dirty
    requires c.bufs[to].locked && c.bufs[to].valid && c.bufs[to].refcnt == 1 && !c.bufs[to].dirty
    requires forall i :: 0 <= i < NBUF && i != from && i != to ==> c.bufs[i].refcnt == 0 && !c.bufs[i].locked
    requires c.bufs[to].key == Key(dev, dst) && dst < |image| && dst !in cache
    modifies c
    ensures c.Valid() && Unheld(c.bufs) && Refines(c.bufs, c.disk, dev, image[dst := old(c.bufs)[from].data], cache)
    ensures !c.bufs[to].dirty
  {
    hide RingOk, Agrees, Unique, Refines;
    ghost var bufs, disk, data := c.bufs, c.disk, c.bufs[from].data;
    c.Store(to, c.bufs[from].data);
    OthersRefine(bufs, disk, dev, image, cache, c.bufs);
    bufs := c.bufs;
    UniqueOf(c);
    BwriteRefines(bufs, disk, dev, image, cache, to, dst);
    assert cache - {dst} == cache;
    c.Bwrite(to);
    ghost var done := c.bufs;
    Brelse(c, from);
    Brelse(c, to);
    OthersRefine(done, c.disk, dev, image[dst := data], cache, c.bufs);
  }

  /** brelse by the only holder. */
  method Brelse(c: Cache, b: nat)
    requires c.Valid() && b < NBUF && c.bufs[b].locked && c.bufs[b].refcnt == 1
    requires c.bufs[b].valid && !c.bufs[b].dirty ==> c.bufs[b].key in c.disk && c.bufs[b].data == c.disk[c.bufs[b].key]
    modifies c
    ensures c.Valid() && c.disk == old(c.disk) && c.bufs == old(c.bufs)[b := old(c.bufs)[b].(locked := false, refcnt := 0)]
  {
    hide RingOk, Agrees, Unique;
    c.Unlock(b);
    c.Release(b);
  }

  lemma UniqueOf(c: Cache)
    requires c.Valid()
    ensures Unique(c.bufs)
  {
  }

  /** write_log as bio.c carries it out.  It panics exactly when every buffer is
      dirty, which a header of NBUF blocks sees to; what it gets past fits a log
      of LOGSIZE blocks, and the device gets the transaction's copies. */
  method WriteLogThrough(c: Cache, dev: nat, L: Layout, lh: seq<nat>, ghost image: Image, ghost cache: map<nat, Block>) returns (panic: bool)
    requires c.Valid() && Unheld(c.bufs) && Refines(c.bufs, c.disk, dev, image, cache) && dev != 0
    requires Distinct(lh) && forall k :: 0 <= k < |lh| ==> lh[k] in cache && lh[k] < |image|
    requires NBUF <= L.size && L.start + L.size <= |image| && forall x: nat :: InLog(L, x) ==> x !in cache
    modifies c
    ensures panic <==> lh != [] && forall i :: 0 <= i < |old(c.bufs)| ==> old(c.bufs)[i].dirty
    ensures |lh| >= NBUF ==> panic
    ensures !panic ==> FitsLog(L, |lh|) && c.Valid() && Unheld(c.bufs)
    ensures !panic ==> Refines(c.bufs, c.disk, dev, Apply(image, CopyWrites(L, TxnOf(lh, cache))), cache)
  {
    hide RingOk, Agrees, Unique, Refines, Apply, CopyWrites, Distinct, TxnOf;
    ghost var t := TxnOf(lh, cache);
    if |lh| >= NBUF {
      HeaderTakesAll(c.bufs, c.disk, dev, image, cache, lh);
    }
    panic := false;
    var tail := 0;
    ghost var now := image;
    ApplyNone(image, CopyWrites(L, t));
    while tail < |lh|
      invariant 0 <= tail <= |lh| && c.Valid() && Unheld(c.bufs) && now == Apply(image, CopyWrites(L, t)[..tail])
      invariant Refines(c.bufs, c.disk, dev, now, cache)
      invariant tail == 0 ==> c.bufs == old(c.bufs)
      invariant tail > 0 ==> |lh| < NBUF && (exists i :: 0 <= i < |c.bufs| && !c.bufs[i].dirty) && exists i :: 0 <= i < |old(c.bufs)| && !old(c.bufs)[i].dirty
    {
      panic := CopyToLog(c, dev, lh[tail], L.start + 1 + tail, now, cache);
      if panic {
        return;
      }
      NextCopy(image, L, t, tail);
      now := now[L.start + 1 + tail := cache[lh[tail]]];
      tail := tail + 1;
    }
    assert CopyWrites(L, t)[..|lh|] == CopyWrites(L, t);
  }

  lemma NextCopy(image: Image, L: Layout, t: Txn, k: nat)
    requires k < |t| && L.start + 1 + k < |image|
    ensures Apply(image, CopyWrites(L, t)[..k + 1]) == Apply(image, CopyWrites(L, t)[..k])[L.start + 1 + k := t[k].data]
  {
    hide CopyWrites, Apply;
    ApplyNext(image, CopyWrites(L, t), k);
  }
}
