/** Runs of commits.  With the header erased at the end of every commit a crash
    anywhere in a run recovers to the state after a prefix of the transactions.
    With the order as written the next write_log runs under a header that still
    names the previous transaction, and the lemmas say exactly when that shows.
 */
module LogRuns {
  import opened Disk
  import opened RedoLog

  ghost predicate GoodTxns(L: Layout, d: Image, ts: seq<Txn>) {
    forall i :: 0 <= i < |ts| ==> GoodTxn(L, d, ts[i])
  }

  ghost function Flatten(ts: seq<Txn>): Txn {
    if ts == [] then [] else ts[0] + Flatten(ts[1..])
  }

  /** All writes of a run of commits that erase their header. */
  ghost function RunWrites(L: Layout, d: Image, ts: seq<Txn>): seq<Write>
    requires Cleared(L, d) && GoodTxns(L, d, ts)
    decreases |ts|
  {
    if ts == [] then []
    else
      var w := CommitWrites(L, d, ts[0], Erases);
      CommitKeepsCleared(L, d, ts[0]);
      w + RunWrites(L, Apply(d, w), ts[1..])
  }

  lemma CommitKeepsCleared(L: Layout, d: Image, t: Txn)
    requires Cleared(L, d) && GoodTxn(L, d, t)
    ensures var e := Apply(d, CommitWrites(L, d, t, Erases));
            Cleared(L, e) && SameHome(L, e, Apply(d, t))
  {
    if t != [] {
      AfterCommit(L, d, t, Erases);
    }
  }

  /** How many transactions have written their commit header among the first k
      writes of the run. */
  ghost function CommittedBy(ts: seq<Txn>, k: nat): (c: nat)
    ensures c <= |ts|
    decreases |ts|
  {
    if ts == [] then 0
    else
      var n := |ts[0]|;
      if n == 0 then 1 + CommittedBy(ts[1..], k)
      else if k <= n then 0
      else if k < 2 * n + 2 then 1
      else 1 + CommittedBy(ts[1..], k - (2 * n + 2))
  }

  lemma {:induction false} ApplyKeepsSameHome(L: Layout, d: Image, e: Image, ws: seq<Write>)
    requires SameHome(L, d, e)
    ensures SameHome(L, Apply(d, ws), Apply(e, ws))
    decreases |ws|
  {
    if ws != [] {
      ApplyKeepsSameHome(L, d, e, ws[..|ws| - 1]);
    }
  }

  /** Committing the first transaction and then applying the next c leaves the
      home blocks as applying the first 1 + c does. */
  lemma AfterFirst(L: Layout, d: Image, ts: seq<Txn>, c: nat)
    requires Cleared(L, d) && GoodTxns(L, d, ts) && 1 + c <= |ts|
    ensures SameHome(L, Apply(Apply(d, CommitWrites(L, d, ts[0], Erases)), Flatten(ts[1..][..c])),
                     Apply(d, Flatten(ts[..1 + c])))
  {
    var rest := Flatten(ts[1..][..c]);
    CommitKeepsCleared(L, d, ts[0]);
    ApplyKeepsSameHome(L, Apply(d, CommitWrites(L, d, ts[0], Erases)), Apply(d, ts[0]), rest);
    ApplyConcat(d, ts[0], rest);
    FlattenMore(ts, c);
  }

  ghost predicate RecoversTo(L: Layout, e: Image, cuts: seq<nat>, want: Image) {
    Formatted(L, e) && SameHome(L, RecoverWithCrashes(L, e, cuts), want)
  }

  lemma CutRun(L: Layout, d: Image, ts: seq<Txn>, k: nat)
    requires Cleared(L, d) && GoodTxns(L, d, ts) && ts != []
    requires k <= |RunWrites(L, d, ts)|
    ensures var w := CommitWrites(L, d, ts[0], Erases);
            && (k <= |w| ==> RunWrites(L, d, ts)[..k] == w[..k])
            && (k >= |w| ==> Cleared(L, Apply(d, w)) && k - |w| <= |RunWrites(L, Apply(d, w), ts[1..])|
                             && Apply(d, RunWrites(L, d, ts)[..k]) ==
                                Apply(Apply(d, w), RunWrites(L, Apply(d, w), ts[1..])[..k - |w|]))
  {
    var w := CommitWrites(L, d, ts[0], Erases);
    CommitKeepsCleared(L, d, ts[0]);
    var ws' := RunWrites(L, Apply(d, w), ts[1..]);
    assert RunWrites(L, d, ts) == w + ws';
    CutConcat(d, w, ws', k);
  }

  ghost predicate RunRecovers(L: Layout, d: Image, ts: seq<Txn>, k: nat, cuts: seq<nat>)
    requires Cleared(L, d) && GoodTxns(L, d, ts) && k <= |RunWrites(L, d, ts)|
  {
    RecoversTo(L, Apply(d, RunWrites(L, d, ts)[..k]), cuts, Apply(d, Flatten(ts[..CommittedBy(ts, k)])))
  }

  lemma CrashInFirst(L: Layout, d: Image, ts: seq<Txn>, k: nat, cuts: seq<nat>)
    requires Cleared(L, d) && GoodTxns(L, d, ts) && ts != [] && ts[0] != []
    requires k <= |RunWrites(L, d, ts)| && k < |CommitWrites(L, d, ts[0], Erases)|
    ensures RunRecovers(L, d, ts, k, cuts)
  {
    CutRun(L, d, ts, k);
    CommitAtomic(L, d, ts[0], Erases, k, cuts);
    FlattenOne(ts);
  }

  lemma CrashLater(L: Layout, d: Image, ts: seq<Txn>, c: nat, e: Image, cuts: seq<nat>)
    requires Cleared(L, d) && GoodTxns(L, d, ts) && 1 + c <= |ts|
    requires RecoversTo(L, e, cuts, Apply(Apply(d, CommitWrites(L, d, ts[0], Erases)), Flatten(ts[1..][..c])))
    ensures RecoversTo(L, e, cuts, Apply(d, Flatten(ts[..1 + c])))
  {
    AfterFirst(L, d, ts, c);
  }

  lemma CrashInNone(L: Layout, d: Image, cuts: seq<nat>)
    requires Cleared(L, d)
    ensures RunWrites(L, d, []) == [] && RunRecovers(L, d, [], 0, cuts)
  {
    RecoverOfCleared(L, d);
    RecoveryIdempotent(L, d, cuts);
  }

  /** The run after its first commit. */
  lemma FirstDone(L: Layout, d: Image, ts: seq<Txn>, k: nat) returns (w: seq<Write>, e: Image, rest: seq<Txn>)
    requires Cleared(L, d) && GoodTxns(L, d, ts) && ts != []
    requires k <= |RunWrites(L, d, ts)| && (ts[0] == [] || k >= |CommitWrites(L, d, ts[0], Erases)|)
    ensures w == CommitWrites(L, d, ts[0], Erases) && e == Apply(d, w) && rest == ts[1..] && |w| <= k
    ensures Cleared(L, e) && GoodTxns(L, e, rest) && k - |w| <= |RunWrites(L, e, rest)|
  {
    w := CommitWrites(L, d, ts[0], Erases);
    CutRun(L, d, ts, k);
    e, rest := Apply(d, w), ts[1..];
  }

  lemma CrashAfterFirst(L: Layout, d: Image, ts: seq<Txn>, k: nat, cuts: seq<nat>, w: seq<Write>, e: Image, rest: seq<Txn>)
    requires Cleared(L, d) && GoodTxns(L, d, ts) && ts != [] && k <= |RunWrites(L, d, ts)|
    requires w == CommitWrites(L, d, ts[0], Erases) && e == Apply(d, w) && rest == ts[1..] && |w| <= k
    requires Cleared(L, e) && GoodTxns(L, e, rest) && k - |w| <= |RunWrites(L, e, rest)|
    requires RunRecovers(L, e, rest, k - |w|, cuts)
    ensures RunRecovers(L, d, ts, k, cuts)
  {
    hide RecoversTo, Flatten, RunWrites, CommitWrites, Apply, Cleared, GoodTxns, CommittedBy;
    CutRun(L, d, ts, k);
    CountFirst(L, d, ts, k);
    CrashLater(L, d, ts, CommittedBy(rest, k - |w|), Apply(d, RunWrites(L, d, ts)[..k]), cuts);
  }

  lemma CountFirst(L: Layout, d: Image, ts: seq<Txn>, k: nat)
    requires Cleared(L, d) && GoodTxns(L, d, ts) && ts != [] && |CommitWrites(L, d, ts[0], Erases)| <= k
    ensures CommittedBy(ts, k) == 1 + CommittedBy(ts[1..], k - |CommitWrites(L, d, ts[0], Erases)|)
  {
    hide Apply;
  }

  /** Crash anywhere in a run, with recovery itself crashing any number of
      times: the home blocks are those after exactly the transactions whose
      commit header had been written. */
  lemma {:induction false} RunAtomic(L: Layout, d: Image, ts: seq<Txn>, k: nat, cuts: seq<nat>)
    requires Cleared(L, d) && GoodTxns(L, d, ts) && k <= |RunWrites(L, d, ts)|
    ensures RunRecovers(L, d, ts, k, cuts)
    decreases |ts|
  {
    hide RunRecovers, RunWrites, CommitWrites, Apply;
    if ts == [] {
      CrashInNone(L, d, cuts);
    } else if ts[0] != [] && k < |CommitWrites(L, d, ts[0], Erases)| {
      CrashInFirst(L, d, ts, k, cuts);
    } else {
      var w, e, rest := FirstDone(L, d, ts, k);
      RunAtomic(L, e, rest, k - |w|, cuts);
      CrashAfterFirst(L, d, ts, k, cuts, w, e, rest);
    }
  }

  lemma FlattenOne(ts: seq<Txn>)
    requires ts != []
    ensures Flatten(ts[..0]) == [] && Flatten(ts[..1]) == ts[0]
  {
    assert ts[..1][1..] == [];
    assert Flatten(ts[..1]) == ts[0] + [];
  }

  lemma FlattenMore(ts: seq<Txn>, c: nat)
    requires ts != [] && c <= |ts| - 1
    ensures Flatten(ts[..1 + c]) == ts[0] + Flatten(ts[1..][..c])
  {
    assert ts[..1 + c][1..] == ts[1..][..c];
  }

  // ----- The order as written -----

  /** Between commits the header may still name the last transaction; its
      entries then agree with the home blocks they name. */
  ghost predicate Installed(L: Layout, d: Image) {
    && Formatted(L, d)
    && forall i :: 0 <= i < |Named(L, d)| ==> d[Named(L, d)[i]] == d[L.start + 1 + i]
  }

  lemma CommitKeepsInstalled(L: Layout, d: Image, t: Txn)
    requires Installed(L, d) && GoodTxn(L, d, t)
    ensures var e := Apply(d, CommitWrites(L, d, t, KeepsCount));
            && Installed(L, e) && SameHome(L, e, Apply(d, t))
            && (t != [] ==> Named(L, e) == Homes(t))
  {
    if t != [] {
      AfterCommit(L, d, t, KeepsCount);
      var e := Apply(d, CommitWrites(L, d, t, KeepsCount));
      var es := Named(L, e);
      forall i | 0 <= i < |es| ensures e[es[i]] == e[L.start + 1 + i] {
        TxnAt(L, d, t, es[i]);
      }
    }
  }

  /** Log block i is about to be overwritten with data that differs from the
      home block the old header pairs it with. */
  ghost predicate Clobbers(L: Layout, d: Image, t: Txn, i: nat)
    requires Formatted(L, d)
  {
    i < |t| && i < |Named(L, d)| && t[i].data != d[Named(L, d)[i]]
  }

  /** want is d with the first k blocks the old header names replaced by the
      new transaction's data, whatever block that data is for. */
  ghost predicate Patched(L: Layout, d: Image, t: Txn, k: nat, want: Image)
    requires Formatted(L, d) && k <= |t|
  {
    var es := Named(L, d);
    && |want| == |d|
    && (forall i :: 0 <= i < |es| ==> want[es[i]] == if i < k then t[i].data else d[es[i]])
    && (forall x :: 0 <= x < |d| && !InLog(L, x) && x !in es ==> want[x] == d[x])
  }

  lemma HeaderDuringCopy(L: Layout, d: Image, t: Txn, k: nat, e: Image)
    requires Installed(L, d) && GoodTxn(L, d, t) && k <= |t|
    requires e == Apply(d, CopyWrites(L, t)[..k])
    ensures Formatted(L, e) && Named(L, e) == Named(L, d)
    ensures forall i :: 0 <= i < |Named(L, d)| ==>
              e[L.start + 1 + i] == if i < k then t[i].data else d[Named(L, d)[i]]
    ensures SameHome(L, e, d)
  {
    CopyAt(L, d, t, k, L.start);
    forall i | 0 <= i < |Named(L, d)|
      ensures e[L.start + 1 + i] == if i < k then t[i].data else d[Named(L, d)[i]]
    {
      var y := L.start + 1 + i;
      CopyAt(L, d, t, k, y);
      assert y - L.start - 1 == i;
    }
    forall x | 0 <= x < |d| && !InLog(L, x) ensures e[x] == d[x] {
      CopyAt(L, d, t, k, x);
    }
  }

  /** A crash after k blocks of write_log recovers to that patched image. */
  lemma RecoverDuringCopy(L: Layout, d: Image, t: Txn, k: nat, e: Image)
    requires Installed(L, d) && GoodTxn(L, d, t) && k <= |t|
    requires e == Apply(d, CopyWrites(L, t)[..k])
    ensures Formatted(L, e) && Patched(L, d, t, k, Recover(L, e))
  {
    HeaderDuringCopy(L, d, t, k, e);
    var es := Named(L, d);
    forall i | 0 <= i < |es|
      ensures Recover(L, e)[es[i]] == if i < k then t[i].data else d[es[i]]
    {
      RecoverAt(L, e, es[i]);
    }
    forall x | 0 <= x < |d| && !InLog(L, x) && x !in es ensures Recover(L, e)[x] == d[x] {
      RecoverAt(L, e, x);
    }
  }

  lemma PatchedUnique(L: Layout, d: Image, t: Txn, k: nat, a: Image, b: Image)
    requires Formatted(L, d) && k <= |t| && Patched(L, d, t, k, a) && Patched(L, d, t, k, b)
    ensures SameHome(L, a, b)
  {
    var es := Named(L, d);
    forall x | 0 <= x < |d| && !InLog(L, x) ensures a[x] == b[x] {
      if x in es {
        var i :| 0 <= i < |es| && es[i] == x;
      }
    }
  }

  ghost predicate AtomicAt(L: Layout, d: Image, t: Txn, k: nat)
    requires Formatted(L, d) && |t| <= LOGSIZE && k <= |CommitWrites(L, d, t, KeepsCount)|
  {
    var e := Apply(d, CommitWrites(L, d, t, KeepsCount)[..k]);
    && Formatted(L, e)
    && (SameHome(L, Recover(L, e), d) || SameHome(L, Recover(L, e), Apply(d, t)))
  }

  ghost predicate AtomicEverywhere(L: Layout, d: Image, t: Txn)
    requires Formatted(L, d) && |t| <= LOGSIZE
  {
    forall k :: 0 <= k <= |CommitWrites(L, d, t, KeepsCount)| ==> AtomicAt(L, d, t, k)
  }

  /** Either no log block clobbers, or exactly one does and installing it is
      all the transaction changes. */
  ghost predicate HarmlessOverlap(L: Layout, d: Image, t: Txn)
    requires Formatted(L, d)
  {
    || (forall i :: 0 <= i < |t| ==> !Clobbers(L, d, t, i))
    || (exists i :: 0 <= i < |t| && OnlyClobber(L, d, t, i))
  }

  ghost predicate OnlyClobber(L: Layout, d: Image, t: Txn, i: nat)
    requires Formatted(L, d)
  {
    && Clobbers(L, d, t, i)
    && (forall j :: 0 <= j < |t| && j != i ==> !Clobbers(L, d, t, j))
    && SameHome(L, d[Named(L, d)[i] := t[i].data], Apply(d, t))
  }

  /** Crash points of a commit over an installed image: patched up to the end
      of write_log, the whole transaction from the header write on. */
  lemma CrashPoints(L: Layout, d: Image, t: Txn, k: nat)
    requires Installed(L, d) && GoodTxn(L, d, t) && t != []
    requires k <= |CommitWrites(L, d, t, KeepsCount)|
    ensures var e := Apply(d, CommitWrites(L, d, t, KeepsCount)[..k]);
            && Formatted(L, e)
            && (k <= |t| ==> Patched(L, d, t, k, Recover(L, e)))
            && (k > |t| ==> SameHome(L, Recover(L, e), Apply(d, t)))
  {
    var ws := CommitWrites(L, d, t, KeepsCount);
    var e := Apply(d, ws[..k]);
    CutCommit(L, d, t, KeepsCount, k);
    if k <= |t| {
      RecoverDuringCopy(L, d, t, k, e);
    } else if k <= 2 * |t| + 1 {
      MidInstallCommitted(L, d, t, k - |t| - 1);
      RecoverCommitted(L, d, t, e);
    } else {
      assert ws[..k] == ws;
      AfterCommit(L, d, t, KeepsCount);
      RecoverFinished(L, d, t, KeepsCount, e);
    }
  }

  /** Up to k log blocks with no clobber, a crash leaves everything as it was. */
  lemma NoClobberAtomic(L: Layout, d: Image, t: Txn, k: nat)
    requires Installed(L, d) && GoodTxn(L, d, t) && t != [] && k <= |t|
    requires forall i :: 0 <= i < k ==> !Clobbers(L, d, t, i)
    ensures AtomicAt(L, d, t, k)
  {
    CrashPoints(L, d, t, k);
    var e := Apply(d, CommitWrites(L, d, t, KeepsCount)[..k]);
    var es := Named(L, d);
    forall i | 0 <= i < |es| ensures d[es[i]] == if i < k then t[i].data else d[es[i]] {
      if i < k { assert !Clobbers(L, d, t, i); }
    }
    PatchedUnique(L, d, t, k, Recover(L, e), d);
  }

  /** With one clobbering log block the patch is a single block. */
  lemma LonePatch(L: Layout, d: Image, t: Txn, i: nat, k: nat)
    requires Formatted(L, d) && i < k <= |t| && Clobbers(L, d, t, i)
    requires forall j :: 0 <= j < |t| && j != i ==> !Clobbers(L, d, t, j)
    ensures Patched(L, d, t, k, d[Named(L, d)[i] := t[i].data])
  {
    var es := Named(L, d);
    var want := d[es[i] := t[i].data];
    forall j | 0 <= j < |es| ensures want[es[j]] == if j < k then t[j].data else d[es[j]] {
      if j != i {
        assert es[j] != es[i];
        if j < k { assert !Clobbers(L, d, t, j); }
      }
    }
  }

  lemma OneClobberAtomic(L: Layout, d: Image, t: Txn, i: nat, k: nat)
    requires Installed(L, d) && GoodTxn(L, d, t) && i < k <= |t|
    requires OnlyClobber(L, d, t, i)
    ensures AtomicAt(L, d, t, k)
  {
    CrashPoints(L, d, t, k);
    LonePatch(L, d, t, i, k);
    var e := Apply(d, CommitWrites(L, d, t, KeepsCount)[..k]);
    PatchedUnique(L, d, t, k, Recover(L, e), d[Named(L, d)[i] := t[i].data]);
  }

  lemma TwoClobbersBreak(L: Layout, d: Image, t: Txn, i: nat, j: nat)
    requires Installed(L, d) && GoodTxn(L, d, t) && i < j
    requires Clobbers(L, d, t, i) && Clobbers(L, d, t, j)
    ensures !AtomicAt(L, d, t, j) || !AtomicAt(L, d, t, |t|)
  {
    CrashPoints(L, d, t, j);
    CrashPoints(L, d, t, |t|);
    var es := Named(L, d);
    var ws := CommitWrites(L, d, t, KeepsCount);
    var r := Recover(L, Apply(d, ws[..j]));
    var q := Recover(L, Apply(d, ws[..|t|]));
    assert r[es[i]] == t[i].data && q[es[i]] == t[i].data;
    assert !InLog(L, es[i]) && !InLog(L, es[j]);
    assert r[es[j]] == d[es[j]] && q[es[j]] == t[j].data;
  }

  /** The exact condition under which a commit, as the code orders it, is
      atomic at every crash point. */
  lemma WrittenOrderExact(L: Layout, d: Image, t: Txn)
    requires Installed(L, d) && GoodTxn(L, d, t) && t != []
    ensures AtomicEverywhere(L, d, t) <==> HarmlessOverlap(L, d, t)
  {
    if HarmlessOverlap(L, d, t) {
      forall k | 0 <= k <= |CommitWrites(L, d, t, KeepsCount)| ensures AtomicAt(L, d, t, k) {
        if k > |t| {
          CrashPoints(L, d, t, k);
        } else if forall i :: 0 <= i < k ==> !Clobbers(L, d, t, i) {
          NoClobberAtomic(L, d, t, k);
        } else {
          var i :| 0 <= i < |t| && OnlyClobber(L, d, t, i);
          OneClobberAtomic(L, d, t, i, k);
        }
      }
    } else if AtomicEverywhere(L, d, t) {
      var i :| 0 <= i < |t| && Clobbers(L, d, t, i);
      forall j | 0 <= j < |t| && j != i ensures !Clobbers(L, d, t, j) {
        if Clobbers(L, d, t, j) {
          if i < j { TwoClobbersBreak(L, d, t, i, j); } else { TwoClobbersBreak(L, d, t, j, i); }
        }
      }
      LoneClobberIsAll(L, d, t, i);
    }
  }

  lemma LoneClobberIsAll(L: Layout, d: Image, t: Txn, i: nat)
    requires Installed(L, d) && GoodTxn(L, d, t) && Clobbers(L, d, t, i)
    requires forall j :: 0 <= j < |t| && j != i ==> !Clobbers(L, d, t, j)
    requires AtomicAt(L, d, t, |t|)
    ensures OnlyClobber(L, d, t, i)
  {
    CrashPoints(L, d, t, |t|);
    LonePatch(L, d, t, i, |t|);
    var x := Named(L, d)[i];
    var r := Recover(L, Apply(d, CommitWrites(L, d, t, KeepsCount)[..|t|]));
    PatchedUnique(L, d, t, |t|, r, d[x := t[i].data]);
    assert r[x] == t[i].data && !InLog(L, x);
  }

  // ----- Whatever the data -----

  /** Every transaction on the blocks bs commits atomically as written. */
  ghost predicate AtomicForAllData(L: Layout, d: Image, bs: seq<nat>)
    requires Formatted(L, d) && |bs| <= LOGSIZE
  {
    forall t: Txn :: Homes(t) == bs ==> AtomicEverywhere(L, d, t)
  }

  function Unlike(a: Block, b: Block): (r: Block)
    ensures r != a && r != b
  {
    a.(n := (if a.n < b.n then b.n else a.n) + 1)
  }

  /** A transaction on bs that changes every block it names, with data unlike block x. */
  ghost function ChangingTxn(d: Image, bs: seq<nat>, x: nat): (t: Txn)
    requires x < |d| && forall i :: 0 <= i < |bs| ==> bs[i] < |d|
    ensures Homes(t) == bs
    ensures forall i :: 0 <= i < |bs| ==> t[i].data != d[bs[i]] && t[i].data != d[x]
  {
    seq(|bs|, i requires 0 <= i < |bs| => Write(bs[i], Unlike(d[bs[i]], d[x])))
  }

  lemma SomeDataBreaks(L: Layout, d: Image, bs: seq<nat>)
    requires Installed(L, d) && GoodHomes(L, d, bs) && bs != []
    requires Named(L, d) != [] && bs != [Named(L, d)[0]]
    ensures !AtomicForAllData(L, d, bs)
  {
    var x := Named(L, d)[0];
    var t := ChangingTxn(d, bs, x);
    assert Clobbers(L, d, t, 0);
    if AtomicEverywhere(L, d, t) {
      WrittenOrderExact(L, d, t);
      assert OnlyClobber(L, d, t, 0);
      var j := if bs[0] != x then 0 else 1;
      assert bs[j] != x;
      assert !InLog(L, bs[j]);
      TxnAt(L, d, t, bs[j]);
    }
  }

  /** As written, a later commit on the blocks bs survives every crash for
      every data exactly when the header on disk is clear or bs is the single
      block the header names first. */
  lemma WrittenOrderLayout(L: Layout, d: Image, bs: seq<nat>)
    requires Installed(L, d) && GoodHomes(L, d, bs) && bs != []
    ensures AtomicForAllData(L, d, bs) <==> Named(L, d) == [] || bs == [Named(L, d)[0]]
  {
    if Named(L, d) != [] && bs != [Named(L, d)[0]] {
      SomeDataBreaks(L, d, bs);
    } else {
      forall t: Txn | Homes(t) == bs ensures AtomicEverywhere(L, d, t) {
        if Clobbers(L, d, t, 0) {
          assert t == [Write(bs[0], t[0].data)];
          assert t[..0] == [];
          assert Apply(d, t) == d[bs[0] := t[0].data];
          assert OnlyClobber(L, d, t, 0);
        }
        WrittenOrderExact(L, d, t);
      }
    }
  }

  // ----- A run that recovers to no prefix -----

  /** After t1 has been committed as written, a crash after the first k writes
      of committing t2 recovers to none of the three prefix states. */
  ghost predicate RecoversToNoPrefix(L: Layout, d: Image, t1: Txn, t2: Txn, k: nat) {
    && Cleared(L, d) && GoodTxn(L, d, t1) && GoodTxn(L, d, t2)
    && var d1 := Apply(d, CommitWrites(L, d, t1, KeepsCount));
    && Formatted(L, d1) && k <= |CommitWrites(L, d1, t2, KeepsCount)|
    && var e := Apply(d1, CommitWrites(L, d1, t2, KeepsCount)[..k]);
    && Formatted(L, e)
    && forall j :: 0 <= j <= 2 ==> !SameHome(L, Recover(L, e), Apply(d, Flatten([t1, t2][..j])))
  }

  /** Commit [a := u] and start to commit [b := v]: a crash after the first log
      block recovers to an image with v in block a. */
  lemma WrittenOrderMixes(L: Layout, d: Image, a: nat, u: Block, b: nat, v: Block)
    requires Cleared(L, d) && GoodHomes(L, d, [a]) && GoodHomes(L, d, [b]) && a < |d|
    ensures var d1 := Apply(d, CommitWrites(L, d, [Write(a, u)], KeepsCount));
            && Formatted(L, d1)
            && var e := Apply(d1, CommitWrites(L, d1, [Write(b, v)], KeepsCount)[..1]);
            && Formatted(L, e) && Recover(L, e)[a] == v
  {
    var t1, t2 := [Write(a, u)], [Write(b, v)];
    assert Homes(t1) == [a] && Homes(t2) == [b];
    CommitKeepsInstalled(L, d, t1);
    var d1 := Apply(d, CommitWrites(L, d, t1, KeepsCount));
    assert Named(L, d1)[0] == a;
    CrashPoints(L, d1, t2, 1);
  }

  lemma FlattenTwo(t1: Txn, t2: Txn)
    ensures Flatten([t1, t2][..0]) == []
    ensures Flatten([t1, t2][..1]) == t1
    ensures Flatten([t1, t2][..2]) == t1 + t2
  {
    var ts := [t1, t2];
    FlattenOne(ts);
    FlattenMore(ts, 1);
    assert ts[1..] == [t2];
    FlattenOne([t2]);
  }

  lemma PrefixStateAt(d: Image, a: nat, u: Block, b: nat, v: Block, j: nat)
    requires a < |d| && b < |d| && a != b && j <= 2
    ensures Apply(d, Flatten([[Write(a, u)], [Write(b, v)]][..j]))[a] == if j == 0 then d[a] else u
  {
    var w1, w2 := Write(a, u), Write(b, v);
    FlattenTwo([w1], [w2]);
    if j == 1 {
      ApplyAt(d, [w1], 0);
    } else if j == 2 {
      assert [w1] + [w2] == [w1, w2];
      ApplyAt(d, [w1, w2], 0);
    }
  }

  lemma WrittenOrderNoPrefix(L: Layout, d: Image, a: nat, u: Block, b: nat, v: Block)
    requires Cleared(L, d) && GoodHomes(L, d, [a]) && GoodHomes(L, d, [b])
    requires a < |d| && b < |d| && a != b && v != u && v != d[a] && !InLog(L, a)
    ensures RecoversToNoPrefix(L, d, [Write(a, u)], [Write(b, v)], 1)
  {
    var t1, t2 := [Write(a, u)], [Write(b, v)];
    assert Homes(t1) == [a] && Homes(t2) == [b];
    WrittenOrderMixes(L, d, a, u, b, v);
    var d1 := Apply(d, CommitWrites(L, d, t1, KeepsCount));
    var e := Apply(d1, CommitWrites(L, d1, t2, KeepsCount)[..1]);
    forall j | 0 <= j <= 2 ensures !SameHome(L, Recover(L, e), Apply(d, Flatten([t1, t2][..j]))) {
      PrefixStateAt(d, a, u, b, v, j);
    }
  }

  /** The failure on the 1000-block disk mkfs lays out, with two one-block
      transactions. */
  lemma WrittenOrderCounterexample()
    ensures exists d: Image, t1: Txn, t2: Txn :: |d| == 1000 && RecoversToNoPrefix(Layout(2, LOGSIZE), d, t1, t2, 1)
  {
    var z: Block := ZeroBlock();
    var u: Block := z.(n := 1);
    var v: Block := z.(n := 2);
    var d: Image := seq(1000, _ => z);
    WrittenOrderNoPrefix(Layout(2, LOGSIZE), d, 900, u, 901, v);
  }
}
