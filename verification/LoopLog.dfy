/** The log of a mounted image, written through the host log.  Each bwrite of a
    loop block becomes a log_write of the host block that backs it, so the image
    seen through the host cache goes through exactly the writes of a commit, and
    on disk they happen with the host transaction or not at all.
 */
module LoopLog {
  import opened Lists
  import opened Disk
  import opened RedoLog
  import opened Log

  lemma {:induction false} MembersCount(s: seq<nat>)
    requires forall i, j :: 0 <= i < j < |s| ==> s[i] != s[j]
    ensures |Members(s)| == |s|
  {
    if s != [] {
      var n := |s| - 1;
      MembersCount(s[..n]);
      assert s == s[..n] + [s[n]];
      assert Members(s) == Members(s[..n]) + {s[n]};
    }
  }

  /** Absorbing a list of blocks, first to last. */
  ghost function AbsorbAll(lh: seq<nat>, bs: seq<nat>): seq<nat> {
    if bs == [] then lh else Absorb(AbsorbAll(lh, bs[..|bs| - 1]), bs[|bs| - 1])
  }

  lemma AbsorbNone(lh: seq<nat>, bs: seq<nat>)
    ensures AbsorbAll(lh, bs[..0]) == lh
  {
  }

  lemma AbsorbNext(lh: seq<nat>, bs: seq<nat>, k: nat)
    requires k < |bs|
    ensures AbsorbAll(lh, bs[..0]) == lh && AbsorbAll(lh, bs[..k + 1]) == Absorb(AbsorbAll(lh, bs[..k]), bs[k])
  {
    assert bs[..k + 1][..k] == bs[..k];
  }

  /** Blocks that are new and different are all added, in order. */
  lemma {:induction false} AbsorbFresh(lh: seq<nat>, bs: seq<nat>)
    requires forall i, j :: 0 <= i < j < |bs| ==> bs[i] != bs[j]
    requires forall i :: 0 <= i < |bs| ==> bs[i] !in lh
    ensures AbsorbAll(lh, bs) == lh + bs
    decreases |bs|
  {
    if bs != [] {
      var n := |bs| - 1;
      AbsorbFresh(lh, bs[..n]);
      assert bs == bs[..n] + [bs[n]];
    }
  }

  lemma AbsorbMembers(lh: seq<nat>, b: nat)
    ensures Members(Absorb(lh, b)) == Members(lh) + {b}
  {
  }

  /** The host blocks an image occupies: distinct, in range, outside the host log. */
  ghost predicate GoodImage(L: Layout, disk: Image, img: seq<nat>) {
    && (forall i :: 0 <= i < |img| ==> img[i] < |disk| && !InLog(L, img[i]))
    && (forall i, j :: 0 <= i < j < |img| ==> img[i] != img[j])
  }

  /** The host blocks behind a list of image blocks. */
  ghost function Backing(img: seq<nat>, bs: seq<nat>): (r: seq<nat>)
    requires forall i :: 0 <= i < |bs| ==> bs[i] < |img|
    ensures |r| == |bs| && forall i {:trigger r[i]} :: 0 <= i < |bs| ==> r[i] == img[bs[i]]
  {
    seq(|bs|, i requires 0 <= i < |bs| => img[bs[i]])
  }

  /** The image held in a host disk. */
  ghost function ImageOf(disk: Image, img: seq<nat>): (m: Image)
    requires forall i :: 0 <= i < |img| ==> img[i] < |disk|
    ensures |m| == |img| && forall i {:trigger m[i]} :: 0 <= i < |img| ==> m[i] == disk[img[i]]
  {
    seq(|img|, i requires 0 <= i < |img| => disk[img[i]])
  }

  /** The disk as the buffer cache shows it. */
  ghost function Overlay(disk: Image, cache: map<nat, Block>): (m: Image)
    ensures |m| == |disk|
    ensures forall i {:trigger m[i]} :: 0 <= i < |disk| ==> m[i] == if i in cache then cache[i] else disk[i]
  {
    seq(|disk|, i requires 0 <= i < |disk| => if i in cache then cache[i] else disk[i])
  }

  lemma ViewUpdate(L: Layout, disk: Image, cache: map<nat, Block>, img: seq<nat>, b: nat, data: Block)
    requires GoodImage(L, disk, img) && b < |img|
    ensures ImageOf(Overlay(disk, cache[img[b] := data]), img) == ImageOf(Overlay(disk, cache), img)[b := data]
  {
    assert forall i :: 0 <= i < |img| && i != b ==> img[i] != img[b];
  }

  class Loop {
    const host: FsLog
    const img: seq<nat>          // host block of each image block
    const L: Layout              // loop_log.start and .size
    var lh: seq<nat>             // loop_log.lh.block[0..n)
    var cache: map<nat, Block>   // image blocks newer than the image

    constructor (host: FsLog, img: seq<nat>, L: Layout)
      ensures this.host == host && this.img == img && this.L == L && lh == [] && cache == map[]
    {
      this.host, this.img, this.L, lh, cache := host, img, L, [], map[];
    }

    /** The image as bread sees it beneath the loop cache. */
    ghost function View(): (m: Image)
      requires GoodImage(host.L, host.disk, img)
      reads host`disk, host`cache
      ensures |m| == |img|
    {
      ImageOf(Overlay(host.disk, host.cache), img)
    }

    /** The host log and the image's blocks are in order, and no file system
        call is in progress, as commit requires. */
    ghost predicate HostReady()
      reads host
    {
      host.Valid() && GoodImage(host.L, host.disk, img) && host.outstanding == 0
    }

    ghost predicate Valid()
      reads this, host
    {
      && HostReady()
      && Formatted(L, View()) && GoodHomes(L, View(), lh)
      && (forall b :: b in cache <==> b in lh)
    }

    ghost function Pending(): (t: Txn)
      requires Valid()
      reads this, host
      ensures Homes(t) == lh
    {
      TxnOf(lh, cache)
    }

    /** The host blocks behind the log blocks a commit fills. */
    ghost function LogArea(): seq<nat>
      reads this`lh
    {
      if L.start + 1 + |lh| > |img| then [] else img[L.start + 1..L.start + 1 + |lh|]
    }

    lemma LogFits()
      requires Valid()
      ensures |LogArea()| == |lh| && L.start + 1 + |lh| <= |img| && |lh| <= LOGSIZE
    {
    }

    /** bwrite of a loop buffer: loopdev_write of a whole block of a fully
        mapped image.  The count borrowed from the host log is given back, so
        its second panic cannot happen when no operation is outstanding. */
    method LoopdevWrite(b: nat, data: Block) returns (panic: bool)
      requires HostReady() && b < |img|
      modifies host`lh, host`cache, host`outstanding
      ensures panic <==> |Members(old(host.lh))| >= Capacity(host.L)
      ensures panic ==> host.lh == old(host.lh)
      ensures !panic ==> HostReady() && Members(host.lh) == Members(old(host.lh)) + {img[b]} && host.lh == Absorb(old(host.lh), img[b])
      ensures !panic ==> View() == old(View())[b := data]
    {
      hide GoodImage, Members, ImageOf, Overlay;
      LoggedCount();
      AbsorbMembers(host.lh, img[b]);
      BackedByDisk(b);
      ViewUpdate(host.L, host.disk, host.cache, img, b, data);
      host.outstanding := host.outstanding + 1;
      panic := host.LogWrite(img[b], data);
      host.outstanding := host.outstanding - 1;
      if panic {
        return true;
      }
      assert host.outstanding == 0;
    }

    lemma LoggedCount()
      requires HostReady()
      ensures |Members(host.lh)| == |host.lh|
    {
      MembersCount(host.lh);
    }

    /** write_log_loop */
    method WriteLogLoop() returns (panic: bool)
      requires Valid()
      modifies host`lh, host`cache, host`outstanding
      ensures Members(host.lh) <= Members(old(host.lh)) + Members(LogArea())
      ensures panic ==> |Members(host.lh)| >= Capacity(host.L)
      ensures !panic ==> HostReady() && host.lh == AbsorbAll(old(host.lh), LogArea())
      ensures !panic ==> Members(host.lh) == Members(old(host.lh)) + Members(LogArea())
      ensures !panic ==> View() == Apply(old(View()), CopyWrites(L, old(Pending())))
    {
      hide GoodHomes, GoodImage, FsLog.Valid, Members, Apply;
      ghost var ws := CopyWrites(L, Pending());
      ghost var area := LogArea();
      LogFits();
      MembersNone(area);
      ApplyNone(View(), ws);
      var tail := 0;
      while tail < |lh|
        invariant 0 <= tail <= |lh|
        invariant HostReady()
        invariant View() == Apply(old(View()), ws[..tail])
        invariant Members(host.lh) == Members(old(host.lh)) + Members(area[..tail])
        invariant host.lh == AbsorbAll(old(host.lh), area[..tail])
      {
        var y := L.start + tail + 1;
        assert area[tail] == img[y];
        ApplyNext(old(View()), ws, tail);
        MembersNext(area, tail);
        AbsorbNext(old(host.lh), area, tail);
        panic := LoopdevWrite(y, cache[lh[tail]]);
        if panic {
          return;
        }
        tail := tail + 1;
      }
      assert ws[..|lh|] == ws && area[..|lh|] == area;
      panic := false;
    }

    /** write_head_loop */
    method WriteHeadLoop() returns (panic: bool)
      requires HostReady() && L.start < |img| && |lh| <= LOGSIZE
      modifies host`lh, host`cache, host`outstanding
      ensures panic <==> |Members(old(host.lh))| >= Capacity(host.L)
      ensures panic ==> host.lh == old(host.lh)
      ensures !panic ==> HostReady() && Members(host.lh) == Members(old(host.lh)) + {img[L.start]} && host.lh == Absorb(old(host.lh), img[L.start])
      ensures !panic ==> View() == old(View())[L.start := PutHeader(old(View())[L.start], lh)]
    {
      hide GoodHomes, Members, Absorb;
      var hb := host.Bread(img[L.start]);
      assert hb == View()[L.start];
      ghost var was := hb;
      hb := hb.(n := |lh|);
      var i := 0;
      while i < |lh|
        invariant 0 <= i <= |lh|
        invariant hb == was.(n := |lh|, block := lh[..i] + was.block[i..])
      {
        hb := hb.(block := hb.block[i := lh[i]]);
        assert hb.block == lh[..i + 1] + was.block[i + 1..];
        i := i + 1;
      }
      assert lh[..|lh|] == lh;
      panic := LoopdevWrite(L.start, hb);
    }

    /** The host blocks behind the home blocks of the transaction. */
    ghost function HomeArea(): seq<nat>
      requires forall i :: 0 <= i < |lh| ==> lh[i] < |img|
      reads this`lh
    {
      Backing(img, lh)
    }

    lemma HomesFit()
      requires HostReady() && GoodHomes(L, View(), lh)
      ensures forall i :: 0 <= i < |lh| ==> lh[i] < |img|
      ensures |lh| <= LOGSIZE && |lh| < L.size
    {
    }

    /** One turn of install_trans_loop, which also cleans the home buffer it writes. */
    method InstallOneLoop(tail: nat) returns (panic: bool)
      requires HostReady() && tail < |lh| && lh[tail] < |img| && L.start + tail + 1 < |img|
      modifies this`cache, host`lh, host`cache, host`outstanding
      ensures panic <==> |Members(old(host.lh))| >= Capacity(host.L)
      ensures panic ==> host.lh == old(host.lh)
      ensures !panic ==> HostReady() && cache == old(cache) - {lh[tail]}
      ensures !panic ==> Members(host.lh) == Members(old(host.lh)) + {img[lh[tail]]} && host.lh == Absorb(old(host.lh), img[lh[tail]])
      ensures !panic ==> View() == old(View())[lh[tail] := old(View())[L.start + tail + 1]]
    {
      hide GoodImage, FsLog.Valid, Members, Absorb;
      BackedByDisk(L.start + tail + 1);
      var lbuf := host.Bread(img[L.start + tail + 1]);
      assert lbuf == View()[L.start + tail + 1];
      panic := LoopdevWrite(lh[tail], lbuf);
      if !panic {
        cache := cache - {lh[tail]};
      }
    }

    /** install_trans_loop */
    method InstallTransLoop() returns (panic: bool)
      requires HostReady() && L.start + L.size <= |img| && GoodHomes(L, View(), lh)
      requires forall i :: 0 <= i < |lh| ==> lh[i] < |img|
      modifies this`cache, host`lh, host`cache, host`outstanding
      ensures Members(host.lh) <= Members(old(host.lh)) + Members(HomeArea())
      ensures panic ==> |Members(host.lh)| >= Capacity(host.L)
      ensures !panic ==> HostReady() && cache.Keys <= old(cache.Keys) && forall i :: 0 <= i < |lh| ==> lh[i] !in cache
      ensures !panic ==> Members(host.lh) == Members(old(host.lh)) + Members(HomeArea()) && host.lh == AbsorbAll(old(host.lh), HomeArea())
      ensures !panic ==> View() == Apply(old(View()), InstallWrites(L, old(View()), lh))
    {
      hide GoodHomes, GoodImage, FsLog.Valid, Members, Apply, AbsorbAll, Absorb, InstallWrites, Overlay, ImageOf;
      ghost var ws := InstallWrites(L, View(), lh);
      ghost var area := HomeArea();
      MembersNone(area);
      AbsorbNone(host.lh, area);
      ApplyNone(View(), ws);
      HomesFit();
      var tail := 0;
      while tail < |lh|
        invariant 0 <= tail <= |lh|
        invariant HostReady()
        invariant View() == Apply(old(View()), ws[..tail])
        invariant Members(host.lh) == Members(old(host.lh)) + Members(area[..tail])
        invariant host.lh == AbsorbAll(old(host.lh), area[..tail])
        invariant cache.Keys <= old(cache.Keys) && forall i :: 0 <= i < tail ==> lh[i] !in cache
      {
        InstallStep(L, old(View()), lh, tail, ws, View());
        MembersNext(area, tail);
        AbsorbNext(old(host.lh), area, tail);
        panic := InstallOneLoop(tail);
        if panic {
          return;
        }
        tail := tail + 1;
      }
      assert ws[..|lh|] == ws && area[..|lh|] == area;
      panic := false;
    }

    lemma BackedByDisk(x: nat)
      requires HostReady() && x < |img|
      ensures img[x] < |host.disk| && !InLog(host.L, img[x])
    {
    }

    /** Every host block a commit of the loop log touches. */
    ghost function Touched(): set<nat>
      requires L.start < |img| && forall i :: 0 <= i < |lh| ==> lh[i] < |img|
      reads this`lh
    {
      Members(LogArea()) + {img[L.start]} + Members(HomeArea())
    }

    /** The loop half of commit up to its header write. */
    method CopyAndCommitLoop() returns (panic: bool)
      requires Valid()
      modifies host`lh, host`cache, host`outstanding
      ensures L.start < |img|
      ensures Members(host.lh) <= Members(old(host.lh)) + Members(LogArea()) + {img[L.start]}
      ensures panic ==> |Members(host.lh)| >= Capacity(host.L)
      ensures !panic ==> HostReady() && Members(host.lh) == Members(old(host.lh)) + Members(LogArea()) + {img[L.start]}
      ensures !panic ==> host.lh == Absorb(AbsorbAll(old(host.lh), LogArea()), img[L.start])
      ensures !panic ==> View() == AtCommitPoint(L, old(View()), old(Pending()))
    {
      hide GoodHomes, GoodImage, FsLog.Valid, Members, Apply;
      ghost var t := Pending();
      LogFits();
      panic := WriteLogLoop();
      if panic {
        return;
      }
      CommitPointIs(L, old(View()), t);
      panic := WriteHeadLoop();
    }

    /** The rest of it: install, then write the header again. */
    method InstallAndWriteHeadLoop(ghost d: Image, ghost t: Txn) returns (panic: bool)
      requires HostReady() && Formatted(L, d) && GoodTxn(L, d, t) && t != [] && |d| == |img|
      requires lh == Homes(t) && View() == AtCommitPoint(L, d, t)
      requires img[L.start] in host.lh && (forall b :: b in cache ==> b in lh)
      modifies this`cache, host`lh, host`cache, host`outstanding
      ensures forall i :: 0 <= i < |lh| ==> lh[i] < |img|
      ensures panic <==> |Members(old(host.lh)) + Members(HomeArea())| >= Capacity(host.L)
      ensures !panic ==> HostReady() && cache == map[]
      ensures !panic ==> Members(host.lh) == Members(old(host.lh)) + Members(HomeArea()) && host.lh == AbsorbAll(old(host.lh), HomeArea())
      ensures !panic ==> View() == Apply(d, CommitWrites(L, d, t, KeepsCount))
    {
      hide AbsorbAll, Apply, CommitWrites, GoodImage, FsLog.Valid, HeadWrite, CopyWrites;
      assert GoodHomes(L, View(), lh) && img[L.start] in Members(host.lh);
      HomesFit();
      InstallIsTxn(L, d, t);
      CommitPointAt(L, d, t, L.start);
      ghost var all := Members(host.lh) + Members(HomeArea());
      panic := InstallTransLoop();
      SubsetCount(Members(host.lh), all);
      if panic {
        return;
      }
      assert cache == map[];
      InstallKeepsLogBlocks(L, old(View()), lh, |lh|, L.start);
      assert t[..|lh|] == t;
      InMembers(host.lh, img[L.start]);
      panic := WriteHeadLoop();
      CommitEnd(L, d, t, KeepsCount);
    }

    lemma PendingGood()
      requires Valid()
      ensures GoodTxn(L, View(), Pending()) && GoodHomes(L, View(), lh) && |View()| == |img|
      ensures L.start < |img| && L.start + L.size <= |img|
      ensures forall i :: 0 <= i < |lh| ==> lh[i] < |img|
    {
    }

    /** The loop half of commit.  It panics exactly when the host header would
        reach its capacity with all the blocks it touches. */
    method CommitLoop() returns (panic: bool)
      requires Valid() && lh != []
      modifies this`cache, host`lh, host`cache, host`outstanding
      ensures L.start < |img| && forall i :: 0 <= i < |lh| ==> lh[i] < |img|
      ensures panic <==> |Members(old(host.lh)) + Touched()| >= Capacity(host.L)
      ensures !panic ==> HostReady() && cache == map[]
      ensures !panic ==> Members(host.lh) == Members(old(host.lh)) + Touched()
      ensures !panic ==> host.lh == AbsorbAll(Absorb(AbsorbAll(old(host.lh), LogArea()), img[L.start]), HomeArea())
      ensures !panic ==> View() == Apply(old(View()), CommitWrites(L, old(View()), old(Pending()), KeepsCount))
    {
      hide GoodHomes, GoodImage, FsLog.Valid, Members, Apply;
      PendingGood();
      ghost var d, t := View(), Pending();
      ghost var was := Members(host.lh);
      panic := CopyAndCommitLoop();
      assert Members(host.lh) <= was + Touched();
      SubsetCount(Members(host.lh), was + Touched());
      if panic {
        return;
      }
      InMembers(host.lh, img[L.start]);
      panic := InstallAndWriteHeadLoop(d, t);
      assert was + Members(LogArea()) + {img[L.start]} + Members(HomeArea()) == was + Touched();
    }

    /** commit: the loop log first, then the host log.  `txn` is what the host
        log commits.  With the loop unmounted its pending blocks are forgotten. */
    method Commit(mounted: bool) returns (panic: bool, ghost txn: Txn)
      requires Valid() && Formatted(host.L, host.disk)
      modifies this`lh, this`cache, host
      ensures L.start < |img| && forall i :: 0 <= i < |old(lh)| ==> old(lh)[i] < |img|
      ensures panic <==> mounted && old(lh) != [] && |Members(old(host.lh)) + old(Touched())| >= Capacity(host.L)
      ensures !panic ==> lh == [] && host.Valid() && host.lh == [] && GoodTxn(host.L, old(host.disk), txn)
      ensures !panic ==> Formatted(host.L, host.disk) && host.disk == Apply(old(host.disk), CommitWrites(host.L, old(host.disk), txn, KeepsCount))
      ensures !panic && (mounted || old(lh) == []) ==> Valid() && View() == ImageOf(Apply(old(host.disk), txn), img)
      ensures !panic ==> host.writes == old(host.writes) + CommitWrites(host.L, old(host.disk), txn, KeepsCount)
      ensures !panic && (!mounted || old(lh) == []) ==> txn == old(host.Pending()) && cache == old(cache)
      ensures !panic && mounted && old(lh) != [] ==>
                && cache == map[]
                && ImageOf(Apply(old(host.disk), txn), img) ==
                   Apply(old(View()), CommitWrites(L, old(View()), old(Pending()), KeepsCount))
      ensures !panic && mounted && old(lh) != [] && old(host.lh) == [] ==>
                && (forall i :: 0 <= i < 2 * |old(lh)| + 1 ==> CommitTargets(L, old(lh))[i] < |img|)
                && txn == LoopTxn(img, Apply(old(View()), CommitWrites(L, old(View()), old(Pending()), KeepsCount)), CommitTargets(L, old(lh)))
    {
      hide GoodHomes, GoodImage, Members, Apply, Formatted, AbsorbAll, Absorb, LoopTxn, CommitTargets, CommitWrites, Backing, ImageOf, Overlay;
      PendingGood();
      if mounted && |lh| > 0 {
        panic := CommitLoop();
        if panic {
          txn := [];
          return;
        }
      }
      if mounted && |lh| > 0 {
        NonEmpty(host.lh, img[L.start]);
        assert |host.lh| != 0;   // "loop_log is written but log is not written" cannot happen
      }
      txn := host.Pending();
      ViewIsPending();
      ghost var view, disk := View(), host.disk;
      if mounted && lh != [] && old(host.lh) == [] {
        PendingIsLoopTxn(old(View()));
      }
      assert mounted || lh == [] ==> Formatted(L, view) && cache == map[] by {
        if mounted && lh != [] { StillFormatted(L, old(View()), old(Pending())); }
      }
      host.Commit();
      lh := [];
      panic := false;
      AfterHostCommit(host.L, disk, txn, img);
      assert View() == ImageOf(host.disk, img);
      if Formatted(L, view) {
        NoHomes(L, view);
      }
    }

    /** With nothing else pending, the host transaction is the loop commit's. */
    lemma PendingIsLoopTxn(was: Image)
      requires HostReady() && |was| == |img| && L.start + L.size <= |img| && GoodHomes(L, was, lh)
      requires forall i :: 0 <= i < |lh| ==> lh[i] < |img|
      requires host.lh == AbsorbAll(Absorb(AbsorbAll([], LogArea()), img[L.start]), HomeArea())
      ensures forall i :: 0 <= i < 2 * |lh| + 1 ==> CommitTargets(L, lh)[i] < |img|
      ensures host.Pending() == LoopTxn(img, View(), CommitTargets(L, lh))
    {
      hide AbsorbAll, Absorb;
      AbsorbTargets(host.L, host.disk, img, L, was, lh);
      var t, want := host.Pending(), LoopTxn(img, View(), CommitTargets(L, lh));
      assert host.lh == Backing(img, CommitTargets(L, lh));
      forall i | 0 <= i < |t| ensures t[i] == want[i] {
        var b := CommitTargets(L, lh)[i];
        assert host.lh[i] == img[b] && host.lh[i] in host.cache;
      }
    }

    /** What the cache shows of the image is what the host transaction makes of it. */
    lemma ViewIsPending()
      requires HostReady()
      ensures ImageOf(Apply(host.disk, host.Pending()), img) == View()
      ensures GoodTxn(host.L, host.disk, host.Pending())
    {
      var t := host.Pending();
      var e := Apply(host.disk, t);
      forall i | 0 <= i < |img| ensures e[img[i]] == View()[i] {
        var x := img[i];
        TxnAt(host.L, host.disk, t, x);
        if x in host.cache {
          var j :| 0 <= j < |host.lh| && host.lh[j] == x;
          assert t[j].block == x;
        }
      }
    }
  }

  lemma NoHomes(L: Layout, d: Image)
    requires Formatted(L, d)
    ensures GoodHomes(L, d, [])
  {
  }

  lemma SameImage(L: Layout, d: Image, e: Image, img: seq<nat>)
    requires GoodImage(L, d, img) && SameHome(L, d, e)
    ensures ImageOf(d, img) == ImageOf(e, img)
  {
    forall i | 0 <= i < |img| ensures d[img[i]] == e[img[i]] {}
  }

  /** Once the host transaction is installed the image on disk is the one it makes. */
  lemma AfterHostCommit(L: Layout, d: Image, t: Txn, img: seq<nat>)
    requires Formatted(L, d) && GoodTxn(L, d, t) && GoodImage(L, d, img)
    ensures var e := Apply(d, CommitWrites(L, d, t, KeepsCount));
            GoodImage(L, e, img) && ImageOf(e, img) == ImageOf(Apply(d, t), img)
  {
    if t != [] {
      AfterCommit(L, d, t, KeepsCount);
      SameImage(L, Apply(d, t), Apply(d, CommitWrites(L, d, t, KeepsCount)), img);
    }
  }

  lemma InMembers(s: seq<nat>, x: nat)
    ensures x in Members(s) <==> x in s
  {
  }

  lemma NonEmpty(s: seq<nat>, x: nat)
    requires x in Members(s)
    ensures s != []
  {
  }

  lemma MembersNone(s: seq<nat>)
    ensures Members(s[..0]) == {}
  {
  }

  lemma MembersNext(s: seq<nat>, k: nat)
    requires k < |s|
    ensures Members(s[..k + 1]) == Members(s[..k]) + {s[k]}
    ensures Members(s[..k]) <= Members(s)
  {
    assert s[..k + 1] == s[..k] + [s[k]];
  }

  // ----- How many host blocks it takes -----

  lemma DistinctMembers(img: seq<nat>, bs: seq<nat>)
    requires forall i, j :: 0 <= i < j < |img| ==> img[i] != img[j]
    requires forall i :: 0 <= i < |bs| ==> bs[i] < |img|
    requires forall i, j :: 0 <= i < j < |bs| ==> bs[i] != bs[j]
    ensures |Members(Backing(img, bs))| == |bs|
  {
    MembersCount(Backing(img, bs));
  }

  /** The image blocks a commit of n entries writes, in order: log blocks,
      header, homes. */
  ghost function CommitTargets(L: Layout, es: seq<nat>): (bs: seq<nat>)
    ensures |bs| == 2 * |es| + 1
    ensures forall i {:trigger bs[i]} :: 0 <= i < |bs| ==>
              bs[i] == if i < |es| then L.start + 1 + i else if i == |es| then L.start else es[i - |es| - 1]
  {
    seq(|es|, i => L.start + 1 + i) + [L.start] + es
  }

  lemma TargetsDistinct(L: Layout, view: Image, es: seq<nat>)
    requires L.start + L.size <= |view| && GoodHomes(L, view, es)
    ensures forall i :: 0 <= i < 2 * |es| + 1 ==> CommitTargets(L, es)[i] < |view|
    ensures forall i, j :: 0 <= i < j < 2 * |es| + 1 ==> CommitTargets(L, es)[i] != CommitTargets(L, es)[j]
  {
    var bs := CommitTargets(L, es);
    forall i | 0 <= i < |bs| ensures bs[i] < |view| && (i <= |es| <==> InLog(L, bs[i])) {
      if i > |es| { assert bs[i] == es[i - |es| - 1]; }
    }
    forall i, j | 0 <= i < j < |bs| ensures bs[i] != bs[j] {
      if i > |es| { assert es[i - |es| - 1] != es[j - |es| - 1]; }
    }
  }

  /** Committing n loop blocks logs 2n + 1 distinct host blocks. */
  lemma TouchedCount(Lh: Layout, d: Image, img: seq<nat>, L: Layout, view: Image, es: seq<nat>)
    requires GoodImage(Lh, d, img) && |view| == |img| && L.start + L.size <= |img| && GoodHomes(L, view, es)
    ensures forall i :: 0 <= i < 2 * |es| + 1 ==> CommitTargets(L, es)[i] < |img|
    ensures |Members(Backing(img, CommitTargets(L, es)))| == 2 * |es| + 1
  {
    TargetsDistinct(L, view, es);
    DistinctMembers(img, CommitTargets(L, es));
  }

  lemma TargetsAre(img: seq<nat>, L: Layout, es: seq<nat>)
    requires L.start + 1 + |es| <= |img|
    requires forall i :: 0 <= i < 2 * |es| + 1 ==> CommitTargets(L, es)[i] < |img|
    requires forall i :: 0 <= i < |es| ==> es[i] < |img|
    ensures Backing(img, CommitTargets(L, es)) == img[L.start + 1..L.start + 1 + |es|] + [img[L.start]] + Backing(img, es)
  {
    var bs := CommitTargets(L, es);
    var want := img[L.start + 1..L.start + 1 + |es|] + [img[L.start]] + Backing(img, es);
    forall i | 0 <= i < |bs| ensures Backing(img, bs)[i] == want[i] {
      if i > |es| { assert bs[i] == es[i - |es| - 1]; }
    }
  }

  lemma TouchedIs(img: seq<nat>, L: Layout, es: seq<nat>)
    requires L.start + 1 + |es| <= |img|
    requires forall i :: 0 <= i < 2 * |es| + 1 ==> CommitTargets(L, es)[i] < |img|
    requires forall i :: 0 <= i < |es| ==> es[i] < |img|
    ensures Members(Backing(img, CommitTargets(L, es))) ==
            Members(img[L.start + 1..L.start + 1 + |es|]) + {img[L.start]} + Members(Backing(img, es))
  {
    TargetsAre(img, L, es);
  }

  /** The host transaction of a loop commit: the blocks it writes, in order,
      with their final contents. */
  ghost function LoopTxn(img: seq<nat>, view: Image, bs: seq<nat>): (t: Txn)
    requires |view| == |img| && forall i :: 0 <= i < |bs| ==> bs[i] < |img|
    ensures |t| == |bs| && forall i {:trigger t[i]} :: 0 <= i < |bs| ==> t[i] == Write(img[bs[i]], view[bs[i]])
  {
    seq(|bs|, i requires 0 <= i < |bs| => Write(img[bs[i]], view[bs[i]]))
  }

  /** With nothing else pending, the host header lists the blocks in that order. */
  lemma AbsorbTargets(Lh: Layout, d: Image, img: seq<nat>, L: Layout, view: Image, es: seq<nat>)
    requires GoodImage(Lh, d, img) && |view| == |img| && L.start + L.size <= |img| && GoodHomes(L, view, es)
    ensures forall i :: 0 <= i < 2 * |es| + 1 ==> CommitTargets(L, es)[i] < |img|
    ensures forall i :: 0 <= i < |es| ==> es[i] < |img|
    ensures AbsorbAll(Absorb(AbsorbAll([], img[L.start + 1..L.start + 1 + |es|]), img[L.start]), Backing(img, es))
            == Backing(img, CommitTargets(L, es))
  {
    hide AbsorbAll, Absorb;
    TargetsDistinct(L, view, es);
    TargetsAre(img, L, es);
    var all := Backing(img, CommitTargets(L, es));
    forall i, j | 0 <= i < j < |all| ensures all[i] != all[j] {
      assert CommitTargets(L, es)[i] != CommitTargets(L, es)[j];
    }
    AbsorbThree(img[L.start + 1..L.start + 1 + |es|], img[L.start], Backing(img, es));
  }

  lemma {:induction false} AbsorbSplit(lh: seq<nat>, a: seq<nat>, b: seq<nat>)
    ensures AbsorbAll(lh, a + b) == AbsorbAll(AbsorbAll(lh, a), b)
    decreases |b|
  {
    if b == [] {
      assert a + b == a;
    } else {
      var n := |b| - 1;
      AbsorbSplit(lh, a, b[..n]);
      assert (a + b)[..|a| + n] == a + b[..n];
    }
  }

  lemma AbsorbThree(a: seq<nat>, h: nat, z: seq<nat>)
    requires Distinct(a + [h] + z)
    ensures AbsorbAll(Absorb(AbsorbAll([], a), h), z) == a + [h] + z
  {
    AbsorbFresh([], a + [h] + z);
    AbsorbSplit([], a + [h], z);
    AbsorbSplit([], a, [h]);
    assert AbsorbAll(AbsorbAll([], a), [h]) == Absorb(AbsorbAll([], a), h) by {
      assert [h][..0] == [];
    }
    assert [] + (a + [h] + z) == a + [h] + z;
  }

  /** When the host transaction holds h blocks, the loop commit of n blocks
      makes it h + 2n + 1 or fewer, and exactly that many if they are others.
      begin_op bounds h and n separately, not this sum. */
  lemma LoopCommitFits(Lh: Layout, d: Image, img: seq<nat>, L: Layout, view: Image, es: seq<nat>, hostLh: seq<nat>)
    requires GoodImage(Lh, d, img) && |view| == |img| && L.start + L.size <= |img| && GoodHomes(L, view, es)
    requires forall i, j :: 0 <= i < j < |hostLh| ==> hostLh[i] != hostLh[j]
    ensures forall i :: 0 <= i < |es| ==> es[i] < |img|
    ensures var touched := Members(img[L.start + 1..L.start + 1 + |es|]) + {img[L.start]} + Members(Backing(img, es));
            && |Members(hostLh) + touched| <= |hostLh| + 2 * |es| + 1
            && (Members(hostLh) !! touched ==> |Members(hostLh) + touched| == |hostLh| + 2 * |es| + 1)
  {
    TouchedCount(Lh, d, img, L, view, es);
    TouchedIs(img, L, es);
    MembersCount(hostLh);
    var a, b := Members(hostLh), Members(Backing(img, CommitTargets(L, es)));
    assert a + b == a + (b - a);
    SubsetCount(b - a, b);
    if a !! b {
      assert b - a == b;
    }
  }

  /** On a host log as mkfs makes it, 14 loop blocks fit the loop log's
      reservations, and their commit panics even when nothing else is pending. */
  lemma FourteenLoopBlocksPanic(Lh: Layout, d: Image, img: seq<nat>, L: Layout, view: Image, es: seq<nat>)
    requires GoodImage(Lh, d, img) && |view| == |img| && L.start + L.size <= |img| && GoodHomes(L, view, es)
    requires Lh.size == LOGSIZE && |es| == 14
    ensures forall i :: 0 <= i < |es| ==> es[i] < |img|
    ensures |es| < Capacity(Lh) && |es| + MAXOPBLOCKS <= LOGSIZE
    ensures var touched := Members(img[L.start + 1..L.start + 1 + |es|]) + {img[L.start]} + Members(Backing(img, es));
            |Members([]) + touched| >= Capacity(Lh)
  {
    LoopCommitFits(Lh, d, img, L, view, es, []);
  }
}
