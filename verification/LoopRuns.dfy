/** What a mounted image looks like after a crash, over runs of host commits
    that may each carry a loop commit.  The image's own log is not replayed at
    boot, so its home blocks must be right after host recovery alone.
 */
module LoopRuns {
  import opened Disk
  import opened RedoLog
  import opened LogRuns
  import opened WrittenRuns
  import opened LoopLog

  /** The host disk after the first c transactions of a run. */
  ghost function Prefix(d: Image, ts: seq<Txn>, c: nat): Image
    requires c <= |ts|
  {
    Apply(d, Flatten(ts[..c]))
  }

  /** A host transaction carries the commit of t to the image, seen as `view`. */
  ghost predicate Carries(L: Layout, img: seq<nat>, before: Image, txn: Txn, view: Image, t: Txn) {
    && Formatted(L, view) && GoodTxn(L, view, t) && t != []
    && (forall i :: 0 <= i < |img| ==> img[i] < |Apply(before, txn)|)
    && ImageOf(Apply(before, txn), img) == Apply(view, CommitWrites(L, view, t, KeepsCount))
  }

  /** Then the image it makes has all of t. */
  lemma CarriesAll(L: Layout, img: seq<nat>, before: Image, txn: Txn, view: Image, t: Txn)
    requires Carries(L, img, before, txn, view, t)
    ensures SameHome(L, ImageOf(Apply(before, txn), img), Apply(view, t))
  {
    AfterCommit(L, view, t, KeepsCount);
  }

  lemma {:induction false} FlattenLast(ts: seq<Txn>, c: nat)
    requires c < |ts|
    ensures Flatten(ts[..c + 1]) == Flatten(ts[..c]) + ts[c]
    decreases c
  {
    if c == 0 {
      FlattenOne(ts);
    } else {
      FlattenLast(ts[1..], c - 1);
      FlattenMore(ts, c);
      FlattenMore(ts, c - 1);
    }
  }

  lemma PrefixNext(d: Image, ts: seq<Txn>, c: nat)
    requires c < |ts|
    ensures Prefix(d, ts, c + 1) == Apply(Prefix(d, ts, c), ts[c])
  {
    FlattenLast(ts, c);
    ApplyConcat(d, Flatten(ts[..c]), ts[c]);
  }

  // ----- With the count erased -----

  /** A crash anywhere in a run of commits that erase their header leaves the
      image that exactly the committed host transactions make. */
  lemma ImageRunAtomic(Lh: Layout, d: Image, ts: seq<Txn>, k: nat, cuts: seq<nat>, img: seq<nat>)
    requires Cleared(Lh, d) && GoodTxns(Lh, d, ts) && GoodImage(Lh, d, img) && k <= |RunWrites(Lh, d, ts)|
    ensures var e, c := Apply(d, RunWrites(Lh, d, ts)[..k]), CommittedBy(ts, k);
            && Formatted(Lh, e) && |RecoverWithCrashes(Lh, e, cuts)| == |Prefix(d, ts, c)| == |d|
            && ImageOf(RecoverWithCrashes(Lh, e, cuts), img) == ImageOf(Prefix(d, ts, c), img)
  {
    hide RunWrites, Flatten, Cleared, GoodTxns;
    RunAtomic(Lh, d, ts, k, cuts);
    var e := Apply(d, RunWrites(Lh, d, ts)[..k]);
    SameImage(Lh, Prefix(d, ts, CommittedBy(ts, k)), RecoverWithCrashes(Lh, e, cuts), img);
  }

  /** So a loop commit that transaction j carries is all or nothing: until its
      host header is written the image is that of fewer transactions, and once
      it is, and until the next, the image's homes have all of it. */
  lemma LoopRunAtomic(Lh: Layout, d: Image, ts: seq<Txn>, k: nat, cuts: seq<nat>, img: seq<nat>,
                      j: nat, L: Layout, view: Image, t: Txn)
    requires Cleared(Lh, d) && GoodTxns(Lh, d, ts) && GoodImage(Lh, d, img) && k <= |RunWrites(Lh, d, ts)|
    requires j < |ts| && Carries(L, img, Prefix(d, ts, j), ts[j], view, t)
    ensures var e, c := Apply(d, RunWrites(Lh, d, ts)[..k]), CommittedBy(ts, k);
            && Formatted(Lh, e) && |RecoverWithCrashes(Lh, e, cuts)| == |Prefix(d, ts, c)| == |d|
            && var m := ImageOf(RecoverWithCrashes(Lh, e, cuts), img);
            && (c == j ==> m == ImageOf(Prefix(d, ts, j), img))
            && (c == j + 1 ==> SameHome(L, m, Apply(view, t)))
  {
    ImageRunAtomic(Lh, d, ts, k, cuts, img);
    PrefixNext(d, ts, j);
    CarriesAll(L, img, Prefix(d, ts, j), ts[j], view, t);
  }

  // ----- In the order as written -----

  /** As written, when every host commit of the run is quiet the image is that of
      the committed host transactions or, unless strictly so, of one more. */
  lemma ImageRunWritten(Lh: Layout, d: Image, ts: seq<Txn>, k: nat, cuts: seq<nat>, img: seq<nat>, strict: bool)
    requires Installed(Lh, d) && GoodTxns(Lh, d, ts) && GoodImage(Lh, d, img) && QuietRun(Lh, d, ts, strict)
    requires k <= |KeptWrites(Lh, d, ts)|
    ensures var e, c := Apply(d, KeptWrites(Lh, d, ts)[..k]), CommittedBy(ts, k);
            && Formatted(Lh, e) && |RecoverWithCrashes(Lh, e, cuts)| == |Prefix(d, ts, c)| == |d|
            && var m := ImageOf(RecoverWithCrashes(Lh, e, cuts), img);
            || m == ImageOf(Prefix(d, ts, c), img)
            || (!strict && c < |ts| && |Prefix(d, ts, c + 1)| == |d| && m == ImageOf(Prefix(d, ts, c + 1), img))
  {
    hide KeptWrites, Flatten, Installed, GoodTxns, QuietRun;
    QuietRunLands(Lh, d, ts, k, cuts, strict);
    var r, c := RecoverWithCrashes(Lh, Apply(d, KeptWrites(Lh, d, ts)[..k]), cuts), CommittedBy(ts, k);
    if SameHome(Lh, r, Prefix(d, ts, c)) {
      SameImage(Lh, Prefix(d, ts, c), r, img);
    } else {
      SameImage(Lh, Prefix(d, ts, c + 1), r, img);
    }
  }

  /** So a loop commit carried by transaction j is all or nothing there too; not
      strictly, it or the next may show before its host header is written. */
  lemma LoopRunWritten(Lh: Layout, d: Image, ts: seq<Txn>, k: nat, cuts: seq<nat>, img: seq<nat>, strict: bool,
                       j: nat, L: Layout, view: Image, t: Txn)
    requires Installed(Lh, d) && GoodTxns(Lh, d, ts) && GoodImage(Lh, d, img) && QuietRun(Lh, d, ts, strict)
    requires k <= |KeptWrites(Lh, d, ts)| && j < |ts| && Carries(L, img, Prefix(d, ts, j), ts[j], view, t)
    ensures var e, c := Apply(d, KeptWrites(Lh, d, ts)[..k]), CommittedBy(ts, k);
            && Formatted(Lh, e) && |RecoverWithCrashes(Lh, e, cuts)| == |Prefix(d, ts, c)| == |d|
            && var m := ImageOf(RecoverWithCrashes(Lh, e, cuts), img);
            && (c == j ==> m == ImageOf(Prefix(d, ts, j), img) || (!strict && SameHome(L, m, Apply(view, t))))
            && (c == j + 1 ==>
                || SameHome(L, m, Apply(view, t))
                || (!strict && j + 2 <= |ts| && |Prefix(d, ts, j + 2)| == |d| && m == ImageOf(Prefix(d, ts, j + 2), img)))
  {
    ImageRunWritten(Lh, d, ts, k, cuts, img, strict);
    PrefixNext(d, ts, j);
    CarriesAll(L, img, Prefix(d, ts, j), ts[j], view, t);
  }

  // ----- Two loop commits as written -----

  /** The host transaction that commit_loop leaves for the loop transaction t. */
  ghost function HostTxn(img: seq<nat>, L: Layout, view: Image, t: Txn): (h: Txn)
    requires |view| == |img| && Formatted(L, view) && GoodTxn(L, view, t)
    ensures |h| == 2 * |t| + 1
    ensures forall i {:trigger h[i]} :: 0 <= i < |h| ==>
              && CommitTargets(L, Homes(t))[i] < |img|
              && h[i].block == img[CommitTargets(L, Homes(t))[i]]
              && h[i].data == Apply(view, CommitWrites(L, view, t, KeepsCount))[CommitTargets(L, Homes(t))[i]]
  {
    TargetsDistinct(L, view, Homes(t));
    LoopTxn(img, Apply(view, CommitWrites(L, view, t, KeepsCount)), CommitTargets(L, Homes(t)))
  }

  /** A commit writes its log blocks, its header, its homes and its header again. */
  lemma WriteTarget(L: Layout, view: Image, t: Txn, i: nat)
    requires Formatted(L, view) && GoodTxn(L, view, t) && t != [] && i < 2 * |t| + 2
    ensures CommitWrites(L, view, t, KeepsCount)[i].block ==
            CommitTargets(L, Homes(t))[if i == 2 * |t| + 1 then |t| else i]
  {
    hide Formatted;
    assert i > |t| && i < 2 * |t| + 1 ==> CommitWrites(L, view, t, KeepsCount)[i] == t[i - |t| - 1];
  }

  lemma OnlyTargets(L: Layout, view: Image, t: Txn, x: nat)
    requires Formatted(L, view) && GoodTxn(L, view, t) && x < |view|
    requires forall i :: 0 <= i < 2 * |t| + 1 ==> CommitTargets(L, Homes(t))[i] != x
    ensures Apply(view, CommitWrites(L, view, t, KeepsCount))[x] == view[x]
  {
    hide Formatted;
    var ws := CommitWrites(L, view, t, KeepsCount);
    if t != [] {
      forall i | 0 <= i < |ws| ensures ws[i].block != x {
        hide CommitWrites, CommitTargets;
        WriteTarget(L, view, t, i);
      }
      ApplyFrame(view, ws, x);
    }
  }

  lemma HostTxnGood(Lh: Layout, d: Image, img: seq<nat>, L: Layout, t: Txn)
    requires GoodImage(Lh, d, img) && Formatted(L, ImageOf(d, img)) && GoodTxn(L, ImageOf(d, img), t)
    requires FitsLog(Lh, 2 * |t| + 1)
    ensures GoodTxn(Lh, d, HostTxn(img, L, ImageOf(d, img), t))
  {
    var h, bs := HostTxn(img, L, ImageOf(d, img), t), CommitTargets(L, Homes(t));
    TargetsDistinct(L, ImageOf(d, img), Homes(t));
    forall i, j | 0 <= i < j < |h| ensures h[i].block != h[j].block {
      assert bs[i] != bs[j];
      assert img[bs[i]] != img[bs[j]];
    }
  }

  /** That host transaction carries the loop commit. */
  lemma HostTxnCarries(Lh: Layout, d: Image, img: seq<nat>, L: Layout, t: Txn)
    requires GoodImage(Lh, d, img) && Formatted(L, ImageOf(d, img)) && GoodTxn(L, ImageOf(d, img), t) && t != []
    requires FitsLog(Lh, 2 * |t| + 1)
    ensures GoodTxn(Lh, d, HostTxn(img, L, ImageOf(d, img), t))
    ensures Carries(L, img, d, HostTxn(img, L, ImageOf(d, img), t), ImageOf(d, img), t)
  {
    hide Formatted, CommitWrites, GoodHomes;
    var view, bs := ImageOf(d, img), CommitTargets(L, Homes(t));
    var h, want := HostTxn(img, L, view, t), Apply(view, CommitWrites(L, view, t, KeepsCount));
    HostTxnGood(Lh, d, img, L, t);
    forall x | 0 <= x < |img| ensures Apply(d, h)[img[x]] == want[x] {
      TxnAt(Lh, d, h, img[x]);
      if i :| 0 <= i < |bs| && bs[i] == x {
        assert h[i].block == img[x];
      } else {
        OnlyTargets(L, view, t, x);
        forall i | 0 <= i < |h| ensures Homes(h)[i] != img[x] {
          assert bs[i] != x;
        }
      }
    }
  }

  /** Two loop commits one after the other, as written, with a crash after k
      writes of the second host commit: the image's homes hold neither the first
      transaction alone nor both. */
  ghost predicate RecoversToNeither(Lh: Layout, d: Image, img: seq<nat>, L: Layout, t1: Txn, t2: Txn, k: nat) {
    && Installed(Lh, d) && GoodImage(Lh, d, img)
    && var view := ImageOf(d, img);
    && Formatted(L, view) && GoodTxn(L, view, t1) && GoodTxn(L, view, t2)
    && var h1 := HostTxn(img, L, view, t1);
    && GoodTxn(Lh, d, h1)
    && var d1 := After(Lh, d, h1);
    && var view1 := ImageOf(d1, img);
    && Formatted(L, view1) && SameHome(L, view1, Apply(view, t1))
    && var h2 := HostTxn(img, L, view1, t2);
    && GoodTxn(Lh, d1, h2) && k <= |h2|
    && var e := Apply(d1, CommitWrites(Lh, d1, h2, KeepsCount)[..k]);
    && Formatted(Lh, e)
    && var m := ImageOf(Recover(Lh, e), img);
    && !SameHome(L, m, view1) && !SameHome(L, m, Apply(view1, t2))
  }

  /** After a loop commit the image on the host disk is formatted and has it. */
  lemma AfterLoopCommit(Lh: Layout, d: Image, img: seq<nat>, L: Layout, t: Txn)
    requires Installed(Lh, d) && GoodImage(Lh, d, img) && FitsLog(Lh, 2 * |t| + 1) && t != []
    requires Formatted(L, ImageOf(d, img)) && GoodTxn(L, ImageOf(d, img), t)
    ensures var view := ImageOf(d, img);
            var h := HostTxn(img, L, view, t);
            && GoodTxn(Lh, d, h)
            && var d1 := After(Lh, d, h);
            && GoodImage(Lh, d1, img) && Named(Lh, d1) == Homes(h)
            && var view1 := ImageOf(d1, img);
            && Finished(L, view, t, KeepsCount, view1)
  {
    hide CommitWrites, GoodHomes, Finished, HostTxn;
    var view := ImageOf(d, img);
    HostTxnCarries(Lh, d, img, L, t);
    var h := HostTxn(img, L, view, t);
    AfterHostCommit(Lh, d, h, img);
    AfterCommit(L, view, t, KeepsCount);
    AfterCommitNamed(Lh, d, h);
  }

  lemma AfterCommitNamed(L: Layout, d: Image, t: Txn)
    requires Installed(L, d) && GoodTxn(L, d, t) && t != []
    ensures Named(L, After(L, d, t)) == Homes(t)
  {
    AfterCommit(L, d, t, KeepsCount);
  }

  /** When the old host header names img[a] third, a crash after three log
      blocks puts the third block's data there. */
  lemma ThirdPatched(Lh: Layout, d: Image, h: Txn, img: seq<nat>, a: nat)
    requires Installed(Lh, d) && GoodImage(Lh, d, img) && GoodTxn(Lh, d, h) && |h| == 3 && a < |img|
    requires |Named(Lh, d)| == 3 && Named(Lh, d)[2] == img[a]
    ensures var e := Apply(d, CommitWrites(Lh, d, h, KeepsCount)[..3]);
            Formatted(Lh, e) && |Recover(Lh, e)| == |d| && ImageOf(Recover(Lh, e), img)[a] == h[2].data
  {
    hide CommitWrites, Formatted, GoodHomes;
    CrashPoints(Lh, d, h, 3);
  }

  /** Commit [a := u] and then start on [b := v]: the old host header puts the
      third log block, the new home, where the first commit's home is. */
  lemma LoopCommitsMix(Lh: Layout, d: Image, img: seq<nat>, L: Layout, a: nat, u: Block, b: nat, v: Block)
    requires Installed(Lh, d) && GoodImage(Lh, d, img) && FitsLog(Lh, 3)
    requires Formatted(L, ImageOf(d, img)) && FitsLog(L, 1)
    requires a < |img| && b < |img| && !InLog(L, a) && !InLog(L, b) && a != b && u != v
    ensures RecoversToNeither(Lh, d, img, L, [Write(a, u)], [Write(b, v)], 3)
  {
    hide CommitWrites, Formatted, Installed, HostTxn, CommitTargets;
    var view, t1, t2 := ImageOf(d, img), [Write(a, u)], [Write(b, v)];
    assert Homes(t1) == [a] && Homes(t2) == [b];
    assert GoodTxn(L, view, t1) && GoodTxn(L, view, t2);
    AfterLoopCommit(Lh, d, img, L, t1);
    LastTarget(img, L, view, t1);
    TxnAt(L, view, t1, a);
    var d1 := After(Lh, d, HostTxn(img, L, view, t1));
    MixSecond(Lh, d1, img, L, a, u, b, v);
  }

  lemma MixSecond(Lh: Layout, d1: Image, img: seq<nat>, L: Layout, a: nat, u: Block, b: nat, v: Block)
    requires Installed(Lh, d1) && GoodImage(Lh, d1, img) && FitsLog(Lh, 3)
    requires Formatted(L, ImageOf(d1, img)) && GoodTxn(L, ImageOf(d1, img), [Write(b, v)])
    requires a < |img| && b < |img| && !InLog(L, a) && a != b && u != v
    requires d1[img[a]] == u && |Named(Lh, d1)| == 3 && Named(Lh, d1)[2] == img[a]
    ensures var view1, t2 := ImageOf(d1, img), [Write(b, v)];
            var h2 := HostTxn(img, L, view1, t2);
            && GoodTxn(Lh, d1, h2) && |h2| == 3
            && var e := Apply(d1, CommitWrites(Lh, d1, h2, KeepsCount)[..3]);
            && Formatted(Lh, e) && |Recover(Lh, e)| == |d1|
            && var m := ImageOf(Recover(Lh, e), img);
            && !SameHome(L, m, view1) && !SameHome(L, m, Apply(view1, t2))
  {
    hide CommitWrites, Formatted, GoodHomes, Installed, HostTxn;
    var view1, t2 := ImageOf(d1, img), [Write(b, v)];
    HostTxnGood(Lh, d1, img, L, t2);
    var h2 := HostTxn(img, L, view1, t2);
    ThirdPatched(Lh, d1, h2, img, a);
    LastTarget(img, L, view1, t2);
    assert a !in Homes(t2);
    TxnAt(L, view1, t2, a);
  }

  /** The last block of a one-block loop transaction is its home, with its data. */
  lemma LastTarget(img: seq<nat>, L: Layout, view: Image, t: Txn)
    requires |view| == |img| && Formatted(L, view) && GoodTxn(L, view, t) && |t| == 1
    ensures t[0].block < |img|
    ensures HostTxn(img, L, view, t)[2] == Write(img[t[0].block], t[0].data)
  {
    hide CommitWrites;
    AfterCommit(L, view, t, KeepsCount);
    assert CommitTargets(L, Homes(t))[2] == Homes(t)[0];
    TxnAt(L, view, t, t[0].block);
  }

  /** So on the 1000-block host disk with a 100-block image, each laid out by mkfs. */
  lemma LoopCommitsMixSomewhere()
    ensures exists d: Image, img: seq<nat>, t1: Txn, t2: Txn ::
              |d| == 1000 && |img| == 100 &&
              RecoversToNeither(Layout(2, LOGSIZE), d, img, Layout(2, LOGSIZE), t1, t2, 3)
  {
    var z: Block := ZeroBlock();
    var u: Block := z.(n := 1);
    var v: Block := z.(n := 2);
    var d: Image := seq(1000, _ => z);
    var img: seq<nat> := seq(100, i => 500 + i);
    LoopCommitsMix(Layout(2, LOGSIZE), d, img, Layout(2, LOGSIZE), 90, u, 91, v);
  }
}
