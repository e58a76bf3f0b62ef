/** The on-disk redo log of log.c: a header block naming home blocks, then one
    log block per entry.  A commit and a recovery are lists of single-block
    writes, and a crash may fall after any of them.

    The code clears the in-memory count only after the second write_head, so
    the header on disk still names the transaction when the next one starts
    copying into the log.  `Ending` keeps the two orders apart.
 */
module RedoLog {
  import opened Disk

  datatype Layout = Layout(start: nat, size: nat)

  /** What the second write_head of a commit puts on disk. */
  datatype Ending =
    | KeepsCount   // as written: lh.n is still the transaction's length
    | Erases       // as the comment says: lh.n is already 0

  type Txn = seq<Write>

  // ----- Header encoding -----

  ghost predicate HeaderSane(b: Block) {
    b.n <= LOGSIZE
  }

  /** The block numbers a header names. */
  ghost function Entries(b: Block): (es: seq<nat>)
    requires HeaderSane(b)
  {
    b.block[..b.n]
  }

  /** write_head changes the count and the first n entries of the block. */
  function PutHeader(b: Block, es: seq<nat>): (r: Block)
    requires |es| <= LOGSIZE
  {
    b.(n := |es|, block := es + b.block[|es|..])
  }

  lemma HeaderRoundTrip(b: Block, es: seq<nat>)
    requires |es| <= LOGSIZE
    ensures HeaderSane(PutHeader(b, es)) && Entries(PutHeader(b, es)) == es
    ensures PutHeader(PutHeader(b, es), es) == PutHeader(b, es)
    ensures PutHeader(PutHeader(b, []), []) == PutHeader(b, [])
  {
    var h := PutHeader(b, es);
    assert es + h.block[|es|..] == h.block;
  }

  // ----- Geometry -----

  ghost predicate InLog(L: Layout, x: nat) {
    L.start <= x < L.start + L.size
  }

  /** A transaction or header list the log area can hold. */
  ghost predicate FitsLog(L: Layout, n: nat) {
    n <= LOGSIZE && n < L.size
  }

  ghost predicate GoodHomes(L: Layout, d: Image, es: seq<nat>) {
    && FitsLog(L, |es|)
    && (forall i :: 0 <= i < |es| ==> es[i] < |d| && !InLog(L, es[i]))
    && (forall i, j :: 0 <= i < j < |es| ==> es[i] != es[j])
  }

  ghost function Homes(t: Txn): (es: seq<nat>)
    ensures |es| == |t| && forall i {:trigger es[i]} :: 0 <= i < |t| ==> es[i] == t[i].block
  {
    seq(|t|, i requires 0 <= i < |t| => t[i].block)
  }

  /** What log_write's absorption and the block allocator give a transaction:
      distinct home blocks outside the log area, no more than the log holds. */
  ghost predicate GoodTxn(L: Layout, d: Image, t: Txn) {
    GoodHomes(L, d, Homes(t))
  }

  ghost predicate Formatted(L: Layout, d: Image) {
    && 0 < L.size && L.start + L.size <= |d|
    && HeaderSane(d[L.start])
    && GoodHomes(L, d, Entries(d[L.start]))
  }

  ghost predicate Cleared(L: Layout, d: Image) {
    Formatted(L, d) && Entries(d[L.start]) == []
  }

  /** Equal outside the log area. */
  ghost predicate SameHome(L: Layout, d: Image, e: Image) {
    |d| == |e| && forall x :: 0 <= x < |d| && !InLog(L, x) ==> d[x] == e[x]
  }

  // ----- Recovery -----

  ghost function Named(L: Layout, d: Image): seq<nat>
    requires Formatted(L, d)
  {
    Entries(d[L.start])
  }

  /** install_trans: copy each log block to the home block the list names. */
  ghost function InstallWrites(L: Layout, d: Image, es: seq<nat>): (ws: seq<Write>)
    requires L.start + L.size <= |d| && GoodHomes(L, d, es)
    ensures |ws| == |es| && DistinctBlocks(ws) && InRange(d, ws)
    ensures forall i {:trigger ws[i]} :: 0 <= i < |es| ==> ws[i] == Write(es[i], d[L.start + 1 + i])
  {
    seq(|es|, i requires 0 <= i < |es| => Write(es[i], d[L.start + 1 + i]))
  }

  /** recover_from_log: install what the header names, then clear the header. */
  ghost function RecoverWrites(L: Layout, d: Image): (ws: seq<Write>)
    requires Formatted(L, d)
  {
    InstallWrites(L, d, Named(L, d)) + [Write(L.start, PutHeader(d[L.start], []))]
  }

  ghost function Recover(L: Layout, d: Image): (r: Image)
    requires Formatted(L, d)
    ensures |r| == |d|
  {
    Apply(d, RecoverWrites(L, d))
  }

  /** Block by block, what recovery leaves. */
  lemma RecoverAt(L: Layout, d: Image, x: nat)
    requires Formatted(L, d) && x < |d|
    ensures x == L.start ==> Recover(L, d)[x] == PutHeader(d[L.start], [])
    ensures forall i :: 0 <= i < |Named(L, d)| && Named(L, d)[i] == x ==> Recover(L, d)[x] == d[L.start + 1 + i]
    ensures x != L.start && x !in Named(L, d) ==> Recover(L, d)[x] == d[x]
  {
    var ws := RecoverWrites(L, d);
    var es := Named(L, d);
    forall i | 0 <= i < |es| ensures ws[i] == Write(es[i], d[L.start + 1 + i]) {}
    assert DistinctBlocks(ws) && InRange(d, ws);
    if x == L.start {
      ApplyAt(d, ws, |es|);
    } else if x in es {
      var i :| 0 <= i < |es| && es[i] == x;
      ApplyAt(d, ws, i);
    } else {
      forall i | 0 <= i < |ws| ensures ws[i].block != x {
        if i < |es| { assert es[i] in es; }
      }
      ApplyFrame(d, ws, x);
    }
  }

  lemma RecoverClears(L: Layout, d: Image)
    requires Formatted(L, d)
    ensures Cleared(L, Recover(L, d))
  {
    RecoverAt(L, d, L.start);
    HeaderRoundTrip(d[L.start], []);
  }

  lemma RecoverOfCleared(L: Layout, d: Image)
    requires Cleared(L, d)
    ensures SameHome(L, Recover(L, d), d)
  {
    forall x | 0 <= x < |d| && !InLog(L, x) ensures Recover(L, d)[x] == d[x] {
      RecoverAt(L, d, x);
    }
  }

  /** Two images with the same header and log blocks, and the same home blocks
      except those the header names, recover to the same image. */
  lemma RecoverDetermined(L: Layout, d: Image, e: Image)
    requires Formatted(L, d) && |e| == |d| && e[L.start] == d[L.start]
    requires forall x :: 0 <= x < |d| && x !in Named(L, d) ==> e[x] == d[x]
    ensures Formatted(L, e) && Recover(L, e) == Recover(L, d)
  {
    forall x | 0 <= x < |d| ensures Recover(L, e)[x] == Recover(L, d)[x] {
      RecoverDeterminedAt(L, d, e, x);
    }
  }

  lemma RecoverDeterminedAt(L: Layout, d: Image, e: Image, x: nat)
    requires Formatted(L, d) && |e| == |d| && e[L.start] == d[L.start]
    requires forall y :: 0 <= y < |d| && y !in Named(L, d) ==> e[y] == d[y]
    requires x < |d|
    ensures Formatted(L, e) && Recover(L, e)[x] == Recover(L, d)[x]
  {
    var es := Named(L, d);
    RecoverAt(L, d, x);
    RecoverAt(L, e, x);
    if x != L.start && x in es {
      var i :| 0 <= i < |es| && es[i] == x;
      var y := L.start + 1 + i;
      assert y !in es;
      assert e[y] == d[y];
    }
  }

  /** Cutting recovery short and recovering again ends in the same image. */
  lemma RecoverAfterCut(L: Layout, d: Image, k: nat)
    requires Formatted(L, d) && k <= |RecoverWrites(L, d)|
    ensures var e := Apply(d, RecoverWrites(L, d)[..k]);
            Formatted(L, e) && Recover(L, e) == Recover(L, d)
  {
    var ws := RecoverWrites(L, d);
    var es := Named(L, d);
    var e := Apply(d, ws[..k]);
    if k <= |es| {
      forall x | 0 <= x < |d| && x !in es ensures e[x] == d[x] {
        forall i | 0 <= i < k ensures ws[..k][i].block != x {
          assert es[i] in es;
        }
        ApplyFrame(d, ws[..k], x);
      }
      assert L.start !in es;
      RecoverDetermined(L, d, e);
    } else {
      assert ws[..k] == ws;
      RecoverClears(L, d);
      HeaderRoundTrip(d[L.start], []);
      RecoverAt(L, d, L.start);
      forall x | 0 <= x < |d| ensures Recover(L, e)[x] == e[x] {
        RecoverAt(L, e, x);
      }
    }
  }

  /** Recovery that crashes after cuts[0] of its writes, restarts and crashes
      after cuts[1], and so on, until one run completes. */
  ghost function RecoverWithCrashes(L: Layout, d: Image, cuts: seq<nat>): Image
    requires Formatted(L, d)
    decreases |cuts|
  {
    if cuts == [] then Recover(L, d)
    else
      var ws := RecoverWrites(L, d);
      var k := if cuts[0] < |ws| then cuts[0] else |ws|;
      RecoverAfterCut(L, d, k);
      RecoverWithCrashes(L, Apply(d, ws[..k]), cuts[1..])
  }

  /** Crashes during recovery do not matter. */
  lemma {:induction false} RecoveryIdempotent(L: Layout, d: Image, cuts: seq<nat>)
    requires Formatted(L, d)
    ensures RecoverWithCrashes(L, d, cuts) == Recover(L, d)
    decreases |cuts|
  {
    if cuts != [] {
      var ws := RecoverWrites(L, d);
      var k := if cuts[0] < |ws| then cuts[0] else |ws|;
      RecoverAfterCut(L, d, k);
      RecoveryIdempotent(L, Apply(d, ws[..k]), cuts[1..]);
    }
  }

  // ----- Commit -----

  /** write_log */
  ghost function CopyWrites(L: Layout, t: Txn): (ws: seq<Write>)
    ensures |ws| == |t| && forall i {:trigger ws[i]} :: 0 <= i < |t| ==> ws[i] == Write(L.start + 1 + i, t[i].data)
  {
    seq(|t|, i requires 0 <= i < |t| => Write(L.start + 1 + i, t[i].data))
  }

  ghost function HeadWrite(L: Layout, d: Image, es: seq<nat>): Write
    requires Formatted(L, d) && |es| <= LOGSIZE
  {
    Write(L.start, PutHeader(d[L.start], es))
  }

  ghost function LastHead(L: Layout, d: Image, t: Txn, ending: Ending): Write
    requires Formatted(L, d) && |t| <= LOGSIZE
  {
    var h := PutHeader(d[L.start], Homes(t));
    Write(L.start, PutHeader(h, if ending.KeepsCount? then Homes(t) else []))
  }

  /** commit: copy to the log, write the header, install, write the header again. */
  ghost function CommitWrites(L: Layout, d: Image, t: Txn, ending: Ending): (ws: seq<Write>)
    requires Formatted(L, d) && |t| <= LOGSIZE
    ensures |ws| == if t == [] then 0 else 2 * |t| + 2
  {
    if t == [] then []
    else CopyWrites(L, t) + [HeadWrite(L, d, Homes(t))] + t + [LastHead(L, d, t, ending)]
  }

  lemma TxnIsDistinct(L: Layout, d: Image, t: Txn)
    requires GoodTxn(L, d, t)
    ensures DistinctBlocks(t) && InRange(d, t)
    ensures forall x :: 0 <= x && InLog(L, x) ==> !Touches(t, x)
  {
    var es := Homes(t);
    forall i, j | 0 <= i < j < |t| ensures t[i].block != t[j].block {
      assert es[i] != es[j];
    }
    forall i | 0 <= i < |t| ensures t[i].block < |d| && !InLog(L, t[i].block) {
      assert es[i] == t[i].block;
    }
  }

  /** The image once the log copy is done and the header names the transaction. */
  ghost function AtCommitPoint(L: Layout, d: Image, t: Txn): (e: Image)
    requires Formatted(L, d) && |t| <= LOGSIZE
    ensures |e| == |d|
  {
    Apply(d, CopyWrites(L, t) + [HeadWrite(L, d, Homes(t))])
  }

  lemma CopyIsDistinct(L: Layout, d: Image, t: Txn, k: nat)
    requires Formatted(L, d) && FitsLog(L, |t|) && k <= |t|
    ensures DistinctBlocks(CopyWrites(L, t)[..k]) && InRange(d, CopyWrites(L, t)[..k])
  {
    forall i | 0 <= i < k ensures CopyWrites(L, t)[..k][i] == Write(L.start + 1 + i, t[i].data) {}
  }

  lemma CopyAt(L: Layout, d: Image, t: Txn, k: nat, x: nat)
    requires Formatted(L, d) && GoodTxn(L, d, t) && k <= |t| && x < |d|
    ensures var e := Apply(d, CopyWrites(L, t)[..k]);
            e[x] == if L.start < x <= L.start + k then t[x - L.start - 1].data else d[x]
  {
    var ws := CopyWrites(L, t)[..k];
    CopyIsDistinct(L, d, t, k);
    if L.start < x <= L.start + k {
      var i := x - L.start - 1;
      assert ws[i] == Write(x, t[i].data);
      ApplyAt(d, ws, i);
    } else {
      ApplyFrame(d, ws, x);
    }
  }

  lemma CommitPointAt(L: Layout, d: Image, t: Txn, x: nat)
    requires Formatted(L, d) && GoodTxn(L, d, t) && x < |d|
    ensures var e := AtCommitPoint(L, d, t);
            e[x] == if x == L.start then PutHeader(d[x], Homes(t))
                    else if L.start < x <= L.start + |t| then t[x - L.start - 1].data
                    else d[x]
  {
    var ws := CopyWrites(L, t);
    assert ws[..|t|] == ws;
    CopyAt(L, d, t, |t|, x);
    var h := HeadWrite(L, d, Homes(t));
    assert (ws + [h])[..|ws|] == ws;
  }

  /** Installing changes only blocks the header names. */
  lemma MidInstall(L: Layout, d: Image, t: Txn, k: nat)
    requires Formatted(L, d) && GoodTxn(L, d, t) && k <= |t|
    ensures var c := AtCommitPoint(L, d, t);
            var e := Apply(c, t[..k]);
            && e[L.start] == PutHeader(d[L.start], Homes(t))
            && forall x :: 0 <= x < |d| && x !in Homes(t) ==> e[x] == c[x]
  {
    var c := AtCommitPoint(L, d, t);
    var es := Homes(t);
    forall x | 0 <= x < |d| && x !in es ensures Apply(c, t[..k])[x] == c[x] {
      forall i | 0 <= i < k ensures t[..k][i].block != x {
        assert es[i] in es;
      }
      ApplyFrame(c, t[..k], x);
    }
    CommitPointAt(L, d, t, L.start);
    assert L.start !in es;
  }

  /** The header names t and the log blocks hold it; home blocks outside t are
      those of d, and those of t may be old or new. */
  ghost predicate Committed(L: Layout, d: Image, t: Txn, e: Image) {
    && |e| == |d| && Formatted(L, e) && Named(L, e) == Homes(t)
    && (forall i :: 0 <= i < |t| ==> e[L.start + 1 + i] == t[i].data)
    && (forall x :: 0 <= x < |d| && !InLog(L, x) && x !in Homes(t) ==> e[x] == d[x])
  }

  lemma TxnAt(L: Layout, d: Image, t: Txn, x: nat)
    requires GoodTxn(L, d, t) && x < |d|
    ensures forall i :: 0 <= i < |t| && t[i].block == x ==> Apply(d, t)[x] == t[i].data
    ensures x !in Homes(t) ==> Apply(d, t)[x] == d[x]
  {
    hide GoodHomes;
    TxnIsDistinct(L, d, t);
    var es := Homes(t);
    if x in es {
      var i :| 0 <= i < |es| && es[i] == x;
      ApplyAt(d, t, i);
    } else {
      forall i | 0 <= i < |t| ensures t[i].block != x {
        assert es[i] in es;
      }
      ApplyFrame(d, t, x);
    }
  }

  /** From the commit point on, recovery yields the whole transaction. */
  lemma RecoverCommitted(L: Layout, d: Image, t: Txn, e: Image)
    requires GoodTxn(L, d, t) && Committed(L, d, t, e)
    ensures SameHome(L, Recover(L, e), Apply(d, t))
  {
    forall x | 0 <= x < |d| && !InLog(L, x) ensures Recover(L, e)[x] == Apply(d, t)[x] {
      TxnAt(L, d, t, x);
      RecoverAt(L, e, x);
      if x in Homes(t) {
        var i :| 0 <= i < |t| && Homes(t)[i] == x;
      }
    }
  }

  lemma CommitPointFacts(L: Layout, d: Image, t: Txn, c: Image)
    requires Formatted(L, d) && GoodTxn(L, d, t) && c == AtCommitPoint(L, d, t)
    ensures forall i :: 0 <= i < |t| ==> c[L.start + 1 + i] == t[i].data
    ensures forall x :: 0 <= x < |d| && !InLog(L, x) ==> c[x] == d[x]
  {
    forall i | 0 <= i < |t| ensures c[L.start + 1 + i] == t[i].data {
      var x := L.start + 1 + i;
      CommitPointAt(L, d, t, x);
      assert x - L.start - 1 == i;
    }
    forall x | 0 <= x < |d| && !InLog(L, x) ensures c[x] == d[x] {
      CommitPointAt(L, d, t, x);
    }
  }

  lemma StillCommitted(L: Layout, d: Image, t: Txn, c: Image, e: Image)
    requires Formatted(L, d) && GoodTxn(L, d, t) && |c| == |e| == |d|
    requires forall i :: 0 <= i < |t| ==> c[L.start + 1 + i] == t[i].data
    requires forall x :: 0 <= x < |d| && !InLog(L, x) ==> c[x] == d[x]
    requires forall x :: 0 <= x < |d| && x !in Homes(t) ==> e[x] == c[x]
    requires e[L.start] == PutHeader(d[L.start], Homes(t))
    ensures Committed(L, d, t, e)
  {
    HeaderRoundTrip(d[L.start], Homes(t));
    assert GoodHomes(L, e, Homes(t));
    forall i | 0 <= i < |t| ensures e[L.start + 1 + i] == t[i].data {
      var x := L.start + 1 + i;
      assert InLog(L, x) && x !in Homes(t);
      assert e[x] == c[x];
    }
  }

  lemma MidInstallCommitted(L: Layout, d: Image, t: Txn, k: nat)
    requires Formatted(L, d) && GoodTxn(L, d, t) && k <= |t|
    ensures Committed(L, d, t, Apply(AtCommitPoint(L, d, t), t[..k]))
  {
    var c := AtCommitPoint(L, d, t);
    MidInstall(L, d, t, k);
    CommitPointFacts(L, d, t, c);
    StillCommitted(L, d, t, c, Apply(c, t[..k]));
  }

  /** Where a crash after k writes of a commit can be. */
  lemma CutCommit(L: Layout, d: Image, t: Txn, ending: Ending, k: nat)
    requires Formatted(L, d) && GoodTxn(L, d, t) && t != []
    requires k <= 2 * |t| + 2
    ensures var e := Apply(d, CommitWrites(L, d, t, ending)[..k]);
            && (k <= |t| ==> e == Apply(d, CopyWrites(L, t)[..k]))
            && (|t| < k <= 2 * |t| + 1 ==> e == Apply(AtCommitPoint(L, d, t), t[..k - |t| - 1]))
            && (k == 2 * |t| + 2 ==> e == Apply(AtCommitPoint(L, d, t), t + [LastHead(L, d, t, ending)]))
  {
    var a := CopyWrites(L, t);
    var h := [HeadWrite(L, d, Homes(t))];
    var z := [LastHead(L, d, t, ending)];
    var ws := a + h + t + z;
    if k <= |t| {
      assert ws[..k] == a[..k];
    } else if k <= 2 * |t| + 1 {
      assert ws[..k] == (a + h) + t[..k - |t| - 1];
      ApplyConcat(d, a + h, t[..k - |t| - 1]);
    } else {
      assert ws[..k] == (a + h) + (t + z);
      ApplyConcat(d, a + h, t + z);
    }
  }

  /** A finished commit: the home blocks hold the transaction, and the header
      names either the transaction (as written) or nothing (as intended). */
  ghost predicate Finished(L: Layout, d: Image, t: Txn, ending: Ending, e: Image) {
    && Formatted(L, e) && SameHome(L, e, Apply(d, t)) && FitsLog(L, |t|)
    && Named(L, e) == (if ending.KeepsCount? then Homes(t) else [])
    && (forall i :: 0 <= i < |t| ==> e[L.start + 1 + i] == t[i].data)
  }

  lemma InstallKeepsLog(L: Layout, d: Image, t: Txn, x: nat)
    requires GoodTxn(L, d, t) && x < |d| && InLog(L, x)
    ensures Apply(d, t)[x] == d[x]
  {
    assert x !in Homes(t);
    TxnAt(L, d, t, x);
  }

  lemma InstallAll(L: Layout, d: Image, t: Txn, c: Image)
    requires GoodTxn(L, d, t) && Committed(L, d, t, c)
    ensures Finished(L, d, t, KeepsCount, Apply(c, t))
  {
    var p := Apply(c, t);
    forall x | 0 <= x < |d| && !InLog(L, x) ensures p[x] == Apply(d, t)[x] {
      TxnIsDistinct(L, c, t);
      if x in Homes(t) {
        var i :| 0 <= i < |t| && Homes(t)[i] == x;
        assert t[i].block == x;
      }
      ApplySame(c, d, t, x);
    }
    forall x | 0 <= x < |d| && InLog(L, x) ensures p[x] == c[x] {
      InstallKeepsLog(L, c, t, x);
    }
    forall i | 0 <= i < |t| ensures p[L.start + 1 + i] == t[i].data {
      var x := L.start + 1 + i;
      assert InLog(L, x) && p[x] == c[x];
    }
    assert InLog(L, L.start) && p[L.start] == c[L.start];
    assert GoodHomes(L, p, Homes(t));
  }

  lemma RewriteHead(L: Layout, d: Image, t: Txn, ending: Ending, p: Image)
    requires GoodTxn(L, d, t) && Finished(L, d, t, KeepsCount, p)
    ensures var h := PutHeader(p[L.start], if ending.KeepsCount? then Homes(t) else []);
            Finished(L, d, t, ending, p[L.start := h])
  {
    var es := if ending.KeepsCount? then Homes(t) else [];
    HeaderRoundTrip(p[L.start], es);
    assert GoodHomes(L, p[L.start := PutHeader(p[L.start], es)], es);
  }

  lemma CommitEnd(L: Layout, d: Image, t: Txn, ending: Ending)
    requires Formatted(L, d) && GoodTxn(L, d, t) && t != []
    ensures var p := Apply(AtCommitPoint(L, d, t), t);
            Apply(d, CommitWrites(L, d, t, ending)) == p[L.start := LastHead(L, d, t, ending).data]
  {
    var n := 2 * |t| + 2;
    var ws := CommitWrites(L, d, t, ending);
    CutCommit(L, d, t, ending, n);
    assert ws[..n] == ws;
    var z := LastHead(L, d, t, ending);
    assert (t + [z])[..|t|] == t;
  }

  lemma AfterCommit(L: Layout, d: Image, t: Txn, ending: Ending)
    requires Formatted(L, d) && GoodTxn(L, d, t) && t != []
    ensures Finished(L, d, t, ending, Apply(d, CommitWrites(L, d, t, ending)))
  {
    var c := AtCommitPoint(L, d, t);
    assert Committed(L, d, t, c) by {
      MidInstallCommitted(L, d, t, 0);
      assert t[..0] == [] && Apply(c, []) == c;
    }
    InstallAll(L, d, t, c);
    assert Apply(c, t)[L.start] == PutHeader(d[L.start], Homes(t)) by {
      MidInstall(L, d, t, |t|);
      assert t[..|t|] == t;
    }
    RewriteHead(L, d, t, ending, Apply(c, t));
    CommitEnd(L, d, t, ending);
  }

  lemma RecoverFinished(L: Layout, d: Image, t: Txn, ending: Ending, e: Image)
    requires GoodTxn(L, d, t) && Finished(L, d, t, ending, e)
    ensures SameHome(L, Recover(L, e), Apply(d, t))
  {
    if ending.Erases? {
      RecoverOfCleared(L, e);
    } else {
      forall x | 0 <= x < |d| && !InLog(L, x) && x !in Homes(t) ensures e[x] == d[x] {
        TxnAt(L, d, t, x);
      }
      RecoverCommitted(L, d, t, e);
    }
  }

  // ----- One commit is atomic from a cleared header -----

  /** From a cleared header a crash after any write of a commit, with recovery
      crashing and restarting any number of times, leaves the home blocks as
      they were up to the header write and as the transaction makes them from
      it on.  This holds for both endings. */
  lemma CommitAtomic(L: Layout, d: Image, t: Txn, ending: Ending, k: nat, cuts: seq<nat>)
    requires Cleared(L, d) && GoodTxn(L, d, t)
    requires k <= |CommitWrites(L, d, t, ending)|
    ensures var e := Apply(d, CommitWrites(L, d, t, ending)[..k]);
            && Formatted(L, e)
            && SameHome(L, RecoverWithCrashes(L, e, cuts), if k <= |t| then d else Apply(d, t))
  {
    var ws := CommitWrites(L, d, t, ending);
    var e := Apply(d, ws[..k]);
    if t == [] {
      assert e == d;
      RecoverOfCleared(L, d);
    } else {
      CutCommit(L, d, t, ending, k);
      if k <= |t| {
        CopyAt(L, d, t, k, L.start);
        RecoverOfCleared(L, e);
        forall x | 0 <= x < |d| && !InLog(L, x) ensures e[x] == d[x] {
          CopyAt(L, d, t, k, x);
        }
      } else if k <= 2 * |t| + 1 {
        MidInstallCommitted(L, d, t, k - |t| - 1);
        RecoverCommitted(L, d, t, e);
      } else {
        assert ws[..k] == ws;
        AfterCommit(L, d, t, ending);
        RecoverFinished(L, d, t, ending, e);
      }
    }
    RecoveryIdempotent(L, e, cuts);
  }
}
