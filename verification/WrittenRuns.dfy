/** Runs of commits in the order as written, where each write_log runs under a
    header that still names the previous transaction.  A run recovers to a prefix
    of its transactions at every crash exactly when each of its commits does.
 */
module WrittenRuns {
  import opened Disk
  import opened RedoLog
  import opened LogRuns

  /** The disk after one commit. */
  ghost function After(L: Layout, d: Image, t: Txn): (e: Image)
    requires Installed(L, d) && GoodTxn(L, d, t)
    ensures Installed(L, e) && SameHome(L, e, Apply(d, t)) && |e| == |d|
  {
    CommitKeepsInstalled(L, d, t);
    Apply(d, CommitWrites(L, d, t, KeepsCount))
  }

  /** All writes of a run of commits that leave their header. */
  ghost function KeptWrites(L: Layout, d: Image, ts: seq<Txn>): seq<Write>
    requires Installed(L, d) && GoodTxns(L, d, ts)
    decreases |ts|
  {
    if ts == [] then [] else CommitWrites(L, d, ts[0], KeepsCount) + KeptWrites(L, After(L, d, ts[0]), ts[1..])
  }

  /** What a commit may do under the old header: strictly, no log block
      overwrites data the old header would put back; or else the overlap is
      harmless. */
  ghost predicate Quiet(L: Layout, d: Image, t: Txn, strict: bool)
    requires Formatted(L, d)
  {
    if strict then forall i :: 0 <= i < |t| ==> !Clobbers(L, d, t, i) else HarmlessOverlap(L, d, t)
  }

  ghost predicate QuietRun(L: Layout, d: Image, ts: seq<Txn>, strict: bool)
    requires Installed(L, d) && GoodTxns(L, d, ts)
    decreases |ts|
  {
    ts == [] || (Quiet(L, d, ts[0], strict) && QuietRun(L, After(L, d, ts[0]), ts[1..], strict))
  }

  // ----- One commit -----

  /** A crash after k writes of a commit: strictly, the state before it up to
      the end of write_log and the state after it from the header write on;
      otherwise also the latter during write_log. */
  ghost predicate Lands(L: Layout, d: Image, t: Txn, k: nat, strict: bool)
    requires Formatted(L, d) && |t| <= LOGSIZE && k <= |CommitWrites(L, d, t, KeepsCount)|
  {
    var e := Apply(d, CommitWrites(L, d, t, KeepsCount)[..k]);
    && Formatted(L, e)
    && ((k <= |t| && SameHome(L, Recover(L, e), d)) || ((k > |t| || !strict) && SameHome(L, Recover(L, e), Apply(d, t))))
  }

  lemma QuietLands(L: Layout, d: Image, t: Txn, k: nat, strict: bool)
    requires Installed(L, d) && GoodTxn(L, d, t) && t != [] && Quiet(L, d, t, strict)
    requires k <= |CommitWrites(L, d, t, KeepsCount)|
    ensures Lands(L, d, t, k, strict)
  {
    CrashPoints(L, d, t, k);
    if k <= |t| {
      if strict {
        NoClobber(L, d, t, k);
      } else {
        WrittenOrderExact(L, d, t);
        assert AtomicAt(L, d, t, k);
      }
    }
  }

  lemma NoClobber(L: Layout, d: Image, t: Txn, k: nat)
    requires Installed(L, d) && GoodTxn(L, d, t) && t != [] && k <= |t|
    requires forall i :: 0 <= i < k ==> !Clobbers(L, d, t, i)
    ensures var e := Apply(d, CommitWrites(L, d, t, KeepsCount)[..k]);
            Formatted(L, e) && SameHome(L, Recover(L, e), d)
  {
    CrashPoints(L, d, t, k);
    var es := Named(L, d);
    forall i | 0 <= i < |es| ensures d[es[i]] == if i < k then t[i].data else d[es[i]] {
      if i < k { assert !Clobbers(L, d, t, i); }
    }
    PatchedUnique(L, d, t, k, Recover(L, Apply(d, CommitWrites(L, d, t, KeepsCount)[..k])), d);
  }

  /** A commit that is not quiet has a crash point that lands nowhere. */
  lemma LoudMisses(L: Layout, d: Image, t: Txn, strict: bool) returns (k: nat)
    requires Installed(L, d) && GoodTxn(L, d, t) && t != [] && !Quiet(L, d, t, strict)
    ensures k <= |t| && !Lands(L, d, t, k, strict)
  {
    if strict {
      var i :| 0 <= i < |t| && Clobbers(L, d, t, i);
      k := i + 1;
      CrashPoints(L, d, t, k);
      var r := Recover(L, Apply(d, CommitWrites(L, d, t, KeepsCount)[..k]));
      var x := Named(L, d)[i];
      assert r[x] == t[i].data && !InLog(L, x);
    } else {
      WrittenOrderExact(L, d, t);
      k :| 0 <= k <= |CommitWrites(L, d, t, KeepsCount)| && !AtomicAt(L, d, t, k);
      CrashPoints(L, d, t, k);
    }
  }

  // ----- Runs -----

  /** A crash after k writes of a run, recovered with any crashes, lands at the
      transactions whose header was written or, unless strict, at one more. */
  ghost predicate RunLands(L: Layout, d: Image, ts: seq<Txn>, k: nat, cuts: seq<nat>, strict: bool)
    requires Installed(L, d) && GoodTxns(L, d, ts) && k <= |KeptWrites(L, d, ts)|
  {
    var e, c := Apply(d, KeptWrites(L, d, ts)[..k]), CommittedBy(ts, k);
    || RecoversTo(L, e, cuts, Apply(d, Flatten(ts[..c])))
    || (!strict && c < |ts| && RecoversTo(L, e, cuts, Apply(d, Flatten(ts[..c + 1]))))
  }

  ghost predicate AlwaysLands(L: Layout, d: Image, ts: seq<Txn>, strict: bool)
    requires Installed(L, d) && GoodTxns(L, d, ts)
  {
    forall k, cuts :: 0 <= k <= |KeptWrites(L, d, ts)| ==> RunLands(L, d, ts, k, cuts, strict)
  }

  lemma CutKept(L: Layout, d: Image, ts: seq<Txn>, k: nat, w: seq<Write>, e: Image)
    requires Installed(L, d) && GoodTxns(L, d, ts) && ts != [] && k <= |KeptWrites(L, d, ts)|
    requires w == CommitWrites(L, d, ts[0], KeepsCount) && e == After(L, d, ts[0])
    ensures k <= |w| ==> KeptWrites(L, d, ts)[..k] == w[..k]
    ensures k >= |w| ==> k - |w| <= |KeptWrites(L, e, ts[1..])|
                         && Apply(d, KeptWrites(L, d, ts)[..k]) == Apply(e, KeptWrites(L, e, ts[1..])[..k - |w|])
  {
    CutConcat(d, w, KeptWrites(L, e, ts[1..]), k);
  }

  lemma SwapHome(L: Layout, e: Image, cuts: seq<nat>, a: Image, b: Image)
    requires SameHome(L, a, b)
    ensures RecoversTo(L, e, cuts, a) <==> RecoversTo(L, e, cuts, b)
  {
  }

  /** The state after the first 1 + c transactions, seen from after the first. */
  lemma PrefixAfter(L: Layout, d: Image, ts: seq<Txn>, c: nat)
    requires Installed(L, d) && GoodTxns(L, d, ts) && 1 + c <= |ts|
    ensures SameHome(L, Apply(After(L, d, ts[0]), Flatten(ts[1..][..c])), Apply(d, Flatten(ts[..1 + c])))
  {
    var rest := Flatten(ts[1..][..c]);
    ApplyKeepsSameHome(L, After(L, d, ts[0]), Apply(d, ts[0]), rest);
    ApplyConcat(d, ts[0], rest);
    FlattenMore(ts, c);
  }

  lemma CountKept(L: Layout, d: Image, ts: seq<Txn>, k: nat)
    requires Installed(L, d) && GoodTxns(L, d, ts) && ts != [] && |CommitWrites(L, d, ts[0], KeepsCount)| <= k
    ensures CommittedBy(ts, k) == 1 + CommittedBy(ts[1..], k - |CommitWrites(L, d, ts[0], KeepsCount)|)
  {
    hide Apply;
  }

  /** Past its first commit a run lands as the rest of it does. */
  lemma LandsLater(L: Layout, d: Image, ts: seq<Txn>, k: nat, cuts: seq<nat>, strict: bool, w: seq<Write>, e: Image, rest: seq<Txn>)
    requires Installed(L, d) && GoodTxns(L, d, ts) && ts != [] && k <= |KeptWrites(L, d, ts)|
    requires w == CommitWrites(L, d, ts[0], KeepsCount) && e == After(L, d, ts[0]) && rest == ts[1..] && |w| <= k
    ensures k - |w| <= |KeptWrites(L, e, rest)|
    ensures RunLands(L, d, ts, k, cuts, strict) <==> RunLands(L, e, rest, k - |w|, cuts, strict)
  {
    hide RecoversTo, Flatten, KeptWrites, CommitWrites, Apply, CommittedBy, Installed, SameHome;
    CutKept(L, d, ts, k, w, e);
    CountKept(L, d, ts, k);
    var c := CommittedBy(rest, k - |w|);
    var end := Apply(d, KeptWrites(L, d, ts)[..k]);
    PrefixAfter(L, d, ts, c);
    SwapHome(L, end, cuts, Apply(e, Flatten(rest[..c])), Apply(d, Flatten(ts[..1 + c])));
    if c < |rest| {
      PrefixAfter(L, d, ts, c + 1);
      SwapHome(L, end, cuts, Apply(e, Flatten(rest[..c + 1])), Apply(d, Flatten(ts[..1 + (c + 1)])));
    }
  }

  /** Inside its first commit a run lands as that commit does. */
  lemma LandsFirst(L: Layout, d: Image, ts: seq<Txn>, k: nat, cuts: seq<nat>, strict: bool)
    requires Installed(L, d) && GoodTxns(L, d, ts) && ts != [] && ts[0] != []
    requires k <= |KeptWrites(L, d, ts)| && k < |CommitWrites(L, d, ts[0], KeepsCount)|
    ensures RunLands(L, d, ts, k, cuts, strict) ==> k <= |ts[0]| ==> Lands(L, d, ts[0], k, strict)
    ensures Lands(L, d, ts[0], k, strict) ==> RunLands(L, d, ts, k, cuts, strict)
  {
    CutKept(L, d, ts, k, CommitWrites(L, d, ts[0], KeepsCount), After(L, d, ts[0]));
    var e := Apply(d, CommitWrites(L, d, ts[0], KeepsCount)[..k]);
    hide CommitWrites, KeptWrites, Installed;
    CrashPoints(L, d, ts[0], k);
    RecoveryIdempotent(L, e, cuts);
    FlattenOne(ts);
  }

  lemma NoRunLands(L: Layout, d: Image, cuts: seq<nat>, strict: bool)
    requires Installed(L, d)
    ensures KeptWrites(L, d, []) == [] && RunLands(L, d, [], 0, cuts, strict)
  {
    RecoverInstalled(L, d);
    RecoveryIdempotent(L, d, cuts);
  }

  /** The run after its first commit. */
  lemma RestOf(L: Layout, d: Image, ts: seq<Txn>, k: nat, strict: bool) returns (w: seq<Write>, e: Image, rest: seq<Txn>)
    requires Installed(L, d) && GoodTxns(L, d, ts) && ts != [] && k <= |KeptWrites(L, d, ts)| && QuietRun(L, d, ts, strict)
    ensures w == CommitWrites(L, d, ts[0], KeepsCount) && e == After(L, d, ts[0]) && rest == ts[1..]
    ensures Installed(L, e) && GoodTxns(L, e, rest) && QuietRun(L, e, rest, strict) && Quiet(L, d, ts[0], strict)
    ensures ts[0] == [] ==> |w| == 0
    ensures |w| <= k ==> k - |w| <= |KeptWrites(L, e, rest)|
  {
    w, e, rest := CommitWrites(L, d, ts[0], KeepsCount), After(L, d, ts[0]), ts[1..];
  }

  /** Quiet commits make a run that lands at every crash. */
  lemma {:induction false} QuietRunLands(L: Layout, d: Image, ts: seq<Txn>, k: nat, cuts: seq<nat>, strict: bool)
    requires Installed(L, d) && GoodTxns(L, d, ts) && k <= |KeptWrites(L, d, ts)| && QuietRun(L, d, ts, strict)
    ensures RunLands(L, d, ts, k, cuts, strict)
    decreases |ts|
  {
    hide CommitWrites, KeptWrites, Installed, RunLands, Quiet, QuietRun, Apply, After;
    if ts == [] {
      NoRunLands(L, d, cuts, strict);
    } else {
      var w, e, rest := RestOf(L, d, ts, k, strict);
      if k < |w| {
        QuietLands(L, d, ts[0], k, strict);
        LandsFirst(L, d, ts, k, cuts, strict);
      } else {
        QuietRunLands(L, e, rest, k - |w|, cuts, strict);
        LandsLater(L, d, ts, k, cuts, strict, w, e, rest);
      }
    }
  }

  /** Over an installed image recovery changes no home block. */
  lemma RecoverInstalled(L: Layout, d: Image)
    requires Installed(L, d)
    ensures SameHome(L, Recover(L, d), d)
  {
    forall x | 0 <= x < |d| && !InLog(L, x) ensures Recover(L, d)[x] == d[x] {
      RecoverAt(L, d, x);
    }
  }

  /** A commit that is not quiet gives the run a crash that misses. */
  lemma {:induction false} LoudRunMisses(L: Layout, d: Image, ts: seq<Txn>, strict: bool) returns (k: nat)
    requires Installed(L, d) && GoodTxns(L, d, ts) && !QuietRun(L, d, ts, strict)
    ensures k <= |KeptWrites(L, d, ts)| && !RunLands(L, d, ts, k, [], strict)
    decreases |ts|
  {
    hide CommitWrites, KeptWrites, Installed, RunLands, Quiet, Apply, After;
    var w, e, rest := FirstOf(L, d, ts);
    if Quiet(L, d, ts[0], strict) {
      k := LoudRunMisses(L, e, rest, strict);
      k := k + |w|;
      LandsLater(L, d, ts, k, [], strict, w, e, rest);
    } else {
      LoudHasBlocks(L, d, ts[0], strict);
      k := LoudMisses(L, d, ts[0], strict);
      LandsFirst(L, d, ts, k, [], strict);
    }
  }

  /** The writes of the first commit of a run, and what is left. */
  lemma FirstOf(L: Layout, d: Image, ts: seq<Txn>) returns (w: seq<Write>, e: Image, rest: seq<Txn>)
    requires Installed(L, d) && GoodTxns(L, d, ts) && ts != []
    ensures Formatted(L, d) && GoodTxn(L, d, ts[0]) && w == CommitWrites(L, d, ts[0], KeepsCount) && e == After(L, d, ts[0]) && rest == ts[1..]
    ensures Installed(L, e) && GoodTxns(L, e, rest) && |KeptWrites(L, d, ts)| == |w| + |KeptWrites(L, e, rest)|
  {
    hide CommitWrites;
    w, e, rest := CommitWrites(L, d, ts[0], KeepsCount), After(L, d, ts[0]), ts[1..];
  }

  lemma LoudHasBlocks(L: Layout, d: Image, t: Txn, strict: bool)
    requires Installed(L, d) && GoodTxn(L, d, t) && !Quiet(L, d, t, strict)
    ensures t != [] && |CommitWrites(L, d, t, KeepsCount)| == 2 * |t| + 2
  {
    hide CommitWrites;
  }

  /** As written, every crash of a run of commits recovers to exactly the
      transactions whose header was written if and only if no commit overwrites a
      log block that the header before it pairs with different data; and to those
      or one more if and only if every commit's overlap is harmless. */
  lemma KeptRunExact(L: Layout, d: Image, ts: seq<Txn>, strict: bool)
    requires Installed(L, d) && GoodTxns(L, d, ts)
    ensures AlwaysLands(L, d, ts, strict) <==> QuietRun(L, d, ts, strict)
  {
    hide KeptWrites, Installed, RunLands;
    if QuietRun(L, d, ts, strict) {
      forall k, cuts | 0 <= k <= |KeptWrites(L, d, ts)| ensures RunLands(L, d, ts, k, cuts, strict) {
        QuietRunLands(L, d, ts, k, cuts, strict);
      }
    } else {
      var k := LoudRunMisses(L, d, ts, strict);
    }
  }
}
