/** The buffer cache of bio.c.  Each method is one atomic step of bget, bread,
    bwrite, brelse or log_write, so any interleaving of processes is a sequence
    of them; taking a buffer's sleep-lock is a step that needs it free.  iderw and
    the loop device are an atomic read or write of a device block.
 */
module Bio {
  import opened Disk
  import opened Lists
  import opened Ring

  datatype Key = Key(dev: nat, blockno: nat)

  datatype Buf = Buf(key: Key, valid: bool, dirty: bool, refcnt: nat, locked: bool, data: Block)

  /** Devices other than 0 have at most one buffer per block. */
  ghost predicate Unique(bufs: seq<Buf>) {
    forall i, j :: 0 <= i < j < |bufs| && bufs[i].key == bufs[j].key ==> bufs[i].key.dev == 0
  }

  /** view gives what a reader of each block must see: the valid buffer's data,
      or the device's when there is none.  A buffer at rest that is not dirty
      holds what its device holds. */
  ghost predicate Agrees(bufs: seq<Buf>, disk: map<Key, Block>, view: map<Key, Block>) {
    && view.Keys == disk.Keys
    && (forall i :: 0 <= i < |bufs| ==> BufOk(bufs[i], disk, view))
    && (forall k :: k in disk && (forall i :: 0 <= i < |bufs| ==> bufs[i].key != k || !bufs[i].valid) ==> disk[k] == view[k])
  }

  ghost predicate BufOk(b: Buf, disk: map<Key, Block>, view: map<Key, Block>) {
    && (b.locked ==> b.refcnt > 0) && (b.dirty ==> b.valid)
    && (b.valid ==> b.key.dev != 0 && b.key in disk && b.key in view && b.data == view[b.key])
    && (b.valid && !b.dirty && !b.locked ==> b.data == disk[b.key])
  }

  /** bget has no buffer for the block: it is not cached and every buffer is in use. */
  ghost predicate NoBuffer(bufs: seq<Buf>, key: Key) {
    forall i :: 0 <= i < |bufs| ==> bufs[i].key != key && (bufs[i].refcnt > 0 || bufs[i].dirty)
  }

  class Cache {
    var bufs: seq<Buf>
    var next: seq<nat>
    var prev: seq<nat>
    var disk: map<Key, Block>
    ghost var ring: seq<nat>
    ghost var view: map<Key, Block>

    ghost predicate RingValid()
      reads this`next, this`prev, this`ring
    {
      RingOk(next, prev, ring) && forall b :: 0 <= b < NBUF ==> b in ring
    }

    ghost predicate Valid()
      reads this
    {
      RingValid() && |bufs| == NBUF && Unique(bufs) && Agrees(bufs, disk, view)
    }

    /** binit */
    constructor (disk: map<Key, Block>)
      ensures Valid() && view == disk && this.disk == disk
      ensures forall i :: 0 <= i < NBUF ==> bufs[i].refcnt == 0 && !bufs[i].dirty
    {
      bufs := seq(NBUF, _ => Buf(Key(0, 0), false, false, 0, false, ZeroBlock()));
      this.disk, view := disk, disk;
      next, prev := seq(NBUF + 1, _ => HEAD), seq(NBUF + 1, _ => HEAD);
      ring := [];
      new;
      var b := 0;
      while b < NBUF
        invariant 0 <= b <= NBUF && RingOk(next, prev, ring)
        invariant forall x :: x in ring <==> 0 <= x < b
        invariant this.disk == disk && view == disk && bufs == seq(NBUF, _ => Buf(Key(0, 0), false, false, 0, false, ZeroBlock()))
      {
        PushFront(b);
        b := b + 1;
      }
    }

    /** The four assignments that put a node at the front. */
    method PushFront(b: nat)
      requires RingOk(next, prev, ring) && b < NBUF && b !in ring
      modifies this`next, this`prev, this`ring
      ensures RingOk(next, prev, ring) && ring == Onto(b, old(ring)) && forall x :: x in ring <==> x == b || x in old(ring)
    {
      Pushed(next, prev, ring, b, next[b := next[HEAD]][HEAD := b], prev[b := HEAD][next[HEAD] := b]);
      next := next[b := next[HEAD]];
      prev := prev[b := HEAD];
      prev := prev[next[HEAD] := b];
      next := next[HEAD := b];
      ring := Onto(b, ring);
    }

    /** bget's first loop: the buffer of a block, from the front. */
    method Cached(key: Key) returns (b: nat)
      requires Valid()
      ensures b <= NBUF && (b < NBUF ==> bufs[b].key == key)
      ensures b == NBUF ==> forall i :: 0 <= i < NBUF ==> bufs[i].key != key
    {
      hide Distinct, Agrees, Unique;
      b := next[HEAD];
      ghost var k := 0;
      while b != HEAD
        invariant 0 <= k <= |ring| && b == Node(ring, k)
        invariant forall j :: 0 <= j < k ==> bufs[ring[j]].key != key
        decreases |ring| - k
      {
        if bufs[b].key == key {
          return;
        }
        assert next[ring[k]] == Node(ring, k + 1);
        b, k := next[b], k + 1;
      }
      forall i | 0 <= i < NBUF ensures bufs[i].key != key {
        assert i in ring;
        var j :| 0 <= j < |ring| && ring[j] == i;
      }
    }

    /** bget's second loop: the least recently used buffer that is neither
        referenced nor dirty. */
    method Spare() returns (b: nat, ghost at: nat)
      requires Valid()
      ensures b <= NBUF && (b < NBUF ==> bufs[b].refcnt == 0 && !bufs[b].dirty && at < |ring| && ring[at] == b)
      ensures b < NBUF ==> forall j :: at < j < |ring| ==> ring[j] < NBUF && (bufs[ring[j]].refcnt > 0 || bufs[ring[j]].dirty)
      ensures b == NBUF ==> forall i :: 0 <= i < NBUF ==> bufs[i].refcnt > 0 || bufs[i].dirty
    {
      hide Distinct, Agrees, Unique;
      b, at := prev[HEAD], 0;
      ghost var k := |ring|;
      while b != HEAD
        invariant 0 <= k <= |ring| && b == Node(ring, k - 1)
        invariant forall j :: k <= j < |ring| ==> bufs[ring[j]].refcnt > 0 || bufs[ring[j]].dirty
        decreases k
      {
        if bufs[b].refcnt == 0 && !bufs[b].dirty {
          at := k - 1;
          return;
        }
        assert prev[ring[k - 1]] == Node(ring, k - 2);
        b, k := prev[b], k - 1;
      }
      forall i | 0 <= i < NBUF ensures bufs[i].refcnt > 0 || bufs[i].dirty {
        assert i in ring;
        var j :| 0 <= j < |ring| && ring[j] == i;
      }
    }

    /** bget up to the sleep-lock: the block's buffer if it has one, or else a
        spare one made to be it. */
    method Find(key: Key) returns (panic: bool, b: nat, ghost at: nat)
      requires Valid() && key.dev != 0
      modifies this`bufs
      ensures panic <==> NoBuffer(old(bufs), key)
      ensures panic ==> bufs == old(bufs)
      ensures !panic ==> Valid() && b < NBUF && bufs[b].key == key
      ensures !panic ==> forall i :: 0 <= i < NBUF && i != b ==> bufs[i] == old(bufs)[i] && bufs[i].key != key
      ensures !panic && old(bufs)[b].key == key ==> bufs[b] == old(bufs)[b].(refcnt := old(bufs)[b].refcnt + 1)
      ensures !panic && old(bufs)[b].key != key ==>
                && old(bufs)[b].refcnt == 0 && !old(bufs)[b].dirty && bufs[b] == Buf(key, false, false, 1, false, old(bufs)[b].data)
                && at < |ring| && ring[at] == b
                && forall j :: at < j < |ring| ==> ring[j] < NBUF && (old(bufs)[ring[j]].refcnt > 0 || old(bufs)[ring[j]].dirty)
    {
      hide RingOk, Agrees, Unique;
      at := 0;
      b := Cached(key);
      if b != HEAD {
        Referenced(bufs, disk, view, b);
        OnlyOne(bufs, b);
        bufs := bufs[b := bufs[b].(refcnt := bufs[b].refcnt + 1)];
        return false, b, at;
      }
      b, at := Spare();
      if b == HEAD {
        return true, b, at;
      }
      Recycled(bufs, disk, view, b, key);
      bufs := bufs[b := Buf(key, false, false, 1, bufs[b].locked, bufs[b].data)];
      panic := false;
    }

    /** acquiresleep on a referenced buffer, when it is free. */
    method Lock(b: nat)
      requires Valid() && b < NBUF && bufs[b].refcnt > 0 && !bufs[b].locked
      modifies this`bufs
      ensures Valid() && bufs == old(bufs)[b := old(bufs)[b].(locked := true)]
    {
      hide RingOk, Agrees, Unique;
      OneChanged(bufs, disk, view, b, bufs[b].(locked := true), disk, view);
      bufs := bufs[b := bufs[b].(locked := true)];
    }

    /** The rest of bread: the data is what a reader of the block must see. */
    method Fill(b: nat)
      requires Valid() && b < NBUF && bufs[b].locked && bufs[b].key.dev != 0 && bufs[b].key in disk
      modifies this`bufs
      ensures Valid() && bufs == old(bufs)[b := old(bufs)[b].(valid := true, data := bufs[b].data)]
      ensures bufs[b].key in view && bufs[b].data == view[bufs[b].key]
    {
      hide RingOk, Agrees, Unique;
      SeenHere(bufs, disk, view, b);
      if !bufs[b].valid {
        OneChanged(bufs, disk, view, b, bufs[b].(valid := true, data := disk[bufs[b].key]), disk, view);
        bufs := bufs[b := bufs[b].(valid := true, data := disk[bufs[b].key])];
      } else {
        assert bufs == bufs[b := bufs[b].(valid := true, data := bufs[b].data)];
      }
    }

    /** bread as a whole, when nobody else has the buffer. */
    method Bread(key: Key) returns (panic: bool, b: nat)
      requires Valid() && key.dev != 0 && key in disk
      requires forall i :: 0 <= i < NBUF && bufs[i].key == key ==> !bufs[i].locked
      modifies this`bufs
      ensures !panic ==> Valid() && b < NBUF && bufs[b].key == key && bufs[b].locked && bufs[b].valid
      ensures panic <==> NoBuffer(old(bufs), key)
      ensures !panic ==> key in view && bufs[b].data == view[key]
      ensures !panic ==> forall i :: 0 <= i < NBUF && i != b ==> bufs[i] == old(bufs)[i] && bufs[i].key != key
      ensures !panic ==> bufs[b].refcnt == (if old(bufs)[b].key == key then old(bufs)[b].refcnt else 0) + 1
      ensures !panic ==> forall i :: 0 <= i < NBUF && old(bufs)[i].dirty ==> bufs[i].key == old(bufs)[i].key && bufs[i].dirty && bufs[i].data == old(bufs)[i].data
      ensures !panic ==> forall i :: 0 <= i < NBUF && bufs[i].dirty ==> old(bufs)[i].dirty
    {
      hide RingOk, Agrees, Unique;
      ghost var at;
      panic, b, at := Find(key);
      if panic {
        return;
      }
      NotHeld(old(bufs), disk, view, b);
      Lock(b);
      Fill(b);
      SeenHere(old(bufs), disk, view, b);
    }

    /** A holder changes the data: readers of the block must now see that. */
    method Store(b: nat, data: Block)
      requires Valid() && b < NBUF && bufs[b].locked && bufs[b].valid
      modifies this`bufs, this`view
      ensures Valid() && bufs == old(bufs)[b := old(bufs)[b].(data := data)] && view == old(view)[old(bufs)[b].key := data]
    {
      hide RingOk, Agrees, Unique;
      SeenHere(bufs, disk, view, b);
      OneChanged(bufs, disk, view, b, bufs[b].(data := data), disk, view[bufs[b].key := data]);
      view := view[bufs[b].key := data];
      bufs := bufs[b := bufs[b].(data := data)];
    }

    /** log_write's mark: the buffer must stay until it is installed. */
    method MarkDirty(b: nat)
      requires Valid() && b < NBUF && bufs[b].locked && bufs[b].valid
      modifies this`bufs
      ensures Valid() && bufs == old(bufs)[b := old(bufs)[b].(dirty := true)]
    {
      hide RingOk, Agrees, Unique;
      SeenHere(bufs, disk, view, b);
      OneChanged(bufs, disk, view, b, bufs[b].(dirty := true), disk, view);
      bufs := bufs[b := bufs[b].(dirty := true)];
    }

    /** bwrite */
    method Bwrite(b: nat)
      requires Valid() && b < NBUF && bufs[b].locked && bufs[b].valid
      modifies this`bufs, this`disk
      ensures Valid() && bufs == old(bufs)[b := old(bufs)[b].(dirty := false)] && disk == old(disk)[old(bufs)[b].key := old(bufs)[b].data]
    {
      hide RingOk, Agrees, Unique;
      SeenHere(bufs, disk, view, b);
      OneChanged(bufs, disk, view, b, bufs[b].(dirty := false), disk[bufs[b].key := bufs[b].data], view);
      disk := disk[bufs[b].key := bufs[b].data];
      bufs := bufs[b := bufs[b].(dirty := false)];
    }

    /** releasesleep in brelse.  What was changed has been logged or written. */
    method Unlock(b: nat)
      requires Valid() && b < NBUF && bufs[b].locked
      requires bufs[b].valid && !bufs[b].dirty ==> bufs[b].key in disk && bufs[b].data == disk[bufs[b].key]
      modifies this`bufs
      ensures Valid() && bufs == old(bufs)[b := old(bufs)[b].(locked := false)]
    {
      hide RingOk, Agrees, Unique;
      OneChanged(bufs, disk, view, b, bufs[b].(locked := false), disk, view);
      bufs := bufs[b := bufs[b].(locked := false)];
    }

    /** brelse's six assignments: out of the list, and in again at the front. */
    method MoveToFront(b: nat)
      requires RingValid() && b < NBUF
      modifies this`next, this`prev, this`ring
      ensures RingValid() && exists at: nat :: at < |old(ring)| && old(ring)[at] == b && ring == Onto(b, Without(old(ring), at))
    {
      hide Distinct;
      assert b in ring;
      ghost var at: nat :| at < |ring| && ring[at] == b;
      assert next[ring[at]] == Node(ring, at + 1) && prev[ring[at]] == Node(ring, at - 1);
      Unlinked(next, prev, ring, at, next[prev[b] := next[b]], prev[next[b] := prev[b]]);
      forall x: nat ensures x in Without(ring, at) <==> x in ring && x != b {
        StillIn(ring, at, x);
      }
      prev := prev[next[b] := prev[b]];
      next := next[prev[b] := next[b]];
      ring := Without(ring, at);
      PushFront(b);
    }

    /** The rest of brelse: the last reference moves the buffer to the front. */
    method Release(b: nat)
      requires Valid() && b < NBUF && bufs[b].refcnt > 0 && (bufs[b].locked ==> bufs[b].refcnt > 1)
      modifies this`bufs, this`next, this`prev, this`ring
      ensures Valid() && bufs == old(bufs)[b := old(bufs)[b].(refcnt := old(bufs)[b].refcnt - 1)]
      ensures bufs[b].refcnt > 0 ==> ring == old(ring)
      ensures bufs[b].refcnt == 0 ==> exists at: nat :: at < |old(ring)| && old(ring)[at] == b && ring == Onto(b, Without(old(ring), at))
    {
      hide Agrees, Unique, RingOk;
      OneChanged(bufs, disk, view, b, bufs[b].(refcnt := bufs[b].refcnt - 1), disk, view);
      bufs := bufs[b := bufs[b].(refcnt := bufs[b].refcnt - 1)];
      if bufs[b].refcnt == 0 {
        MoveToFront(b);
      }
    }
  }

  lemma OnlyOne(bufs: seq<Buf>, b: nat)
    requires Unique(bufs) && b < |bufs| && bufs[b].key.dev != 0
    ensures forall i :: 0 <= i < |bufs| && i != b ==> bufs[i].key != bufs[b].key
  {
  }

  lemma Referenced(bufs: seq<Buf>, disk: map<Key, Block>, view: map<Key, Block>, b: nat)
    requires Unique(bufs) && Agrees(bufs, disk, view) && b < |bufs|
    ensures var bufs' := bufs[b := bufs[b].(refcnt := bufs[b].refcnt + 1)]; Unique(bufs') && Agrees(bufs', disk, view)
  {
    var bufs' := bufs[b := bufs[b].(refcnt := bufs[b].refcnt + 1)];
    forall i | 0 <= i < |bufs'| ensures BufOk(bufs'[i], disk, view) && bufs'[i].key == bufs[i].key && bufs'[i].valid == bufs[i].valid {
      assert BufOk(bufs[i], disk, view);
    }
    forall k | k in disk && (forall i :: 0 <= i < |bufs'| ==> bufs'[i].key != k || !bufs'[i].valid) ensures disk[k] == view[k] {
      assert forall i :: 0 <= i < |bufs| ==> bufs[i] == bufs[i] && (bufs'[i].key != k || !bufs'[i].valid);
    }
  }

  /** A buffer at rest and clean can be given to another block: its old block is
      on the device as it should be seen. */
  lemma Recycled(bufs: seq<Buf>, disk: map<Key, Block>, view: map<Key, Block>, b: nat, key: Key)
    requires Unique(bufs) && Agrees(bufs, disk, view) && b < |bufs| && bufs[b].refcnt == 0 && !bufs[b].dirty
    requires forall i :: 0 <= i < |bufs| ==> bufs[i].key != key
    ensures !bufs[b].locked
    ensures var bufs' := bufs[b := Buf(key, false, false, 1, bufs[b].locked, bufs[b].data)]; Unique(bufs') && Agrees(bufs', disk, view)
  {
    var bufs' := bufs[b := Buf(key, false, false, 1, bufs[b].locked, bufs[b].data)];
    assert BufOk(bufs[b], disk, view);
    forall i | 0 <= i < |bufs'| ensures BufOk(bufs'[i], disk, view) {
      assert BufOk(bufs[i], disk, view);
    }
    forall k | k in disk && (forall i :: 0 <= i < |bufs'| ==> bufs'[i].key != k || !bufs'[i].valid) ensures disk[k] == view[k] {
      assert forall i :: 0 <= i < |bufs| && i != b ==> bufs'[i] == bufs[i] && (bufs'[i].key != k || !bufs'[i].valid);
    }
  }

  /** What a valid buffer holds, or the device when this buffer is not valid, is
      what must be seen. */
  lemma SeenHere(bufs: seq<Buf>, disk: map<Key, Block>, view: map<Key, Block>, b: nat)
    requires Unique(bufs) && Agrees(bufs, disk, view) && b < |bufs|
    ensures BufOk(bufs[b], disk, view)
    ensures bufs[b].key.dev != 0 && bufs[b].key in disk ==>
              bufs[b].key in view && (if bufs[b].valid then bufs[b].data else disk[bufs[b].key]) == view[bufs[b].key]
  {
    if bufs[b].key.dev != 0 && !bufs[b].valid {
      OnlyOne(bufs, b);
    }
  }

  lemma NotHeld(bufs: seq<Buf>, disk: map<Key, Block>, view: map<Key, Block>, b: nat)
    requires Agrees(bufs, disk, view) && b < |bufs|
    ensures bufs[b].locked ==> bufs[b].refcnt > 0
  {
    assert BufOk(bufs[b], disk, view);
  }

  /** One buffer changes, keeping its block, and with it perhaps what the device
      holds or readers see of that block. */
  lemma OneChanged(bufs: seq<Buf>, disk: map<Key, Block>, view: map<Key, Block>, b: nat, nb: Buf, disk': map<Key, Block>, view': map<Key, Block>)
    requires Unique(bufs) && Agrees(bufs, disk, view) && b < |bufs| && nb.key == bufs[b].key && (bufs[b].valid ==> nb.valid)
    requires BufOk(bufs[b], disk, view) ==> BufOk(nb, disk', view')
    requires disk' == disk || (nb.valid && nb.key in disk && disk' == disk[nb.key := disk'[nb.key]])
    requires view' == view || (nb.valid && nb.key in view && view' == view[nb.key := view'[nb.key]])
    requires disk' != disk || view' != view ==> nb.key.dev != 0
    ensures Unique(bufs[b := nb]) && Agrees(bufs[b := nb], disk', view')
  {
    var bufs' := bufs[b := nb];
    assert BufOk(bufs[b], disk, view);
    if nb.key.dev != 0 {
      OnlyOne(bufs, b);
    }
    forall i | 0 <= i < |bufs'| ensures BufOk(bufs'[i], disk', view') {
      assert BufOk(bufs[i], disk, view);
    }
    forall k | k in disk' && (forall i :: 0 <= i < |bufs'| ==> bufs'[i].key != k || !bufs'[i].valid) ensures disk'[k] == view'[k] {
      assert bufs'[b].key != k || !bufs'[b].valid;
      forall i | 0 <= i < |bufs| ensures bufs[i].key != k || !bufs[i].valid {
        assert bufs'[i].key != k || !bufs'[i].valid;
      }
    }
  }
}
