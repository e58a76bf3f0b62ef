/** pipewrite, piperead and pipeclose of pipe.c as programs on the sleep and
    wakeup machine.  The shared data is the ring buffer with its 32-bit counters,
    and two histories: the bytes accepted from writers and those delivered to
    readers.  A process finds itself killed at any test of its killed flag.
 */
module Pipe {
  import opened Sleeping

  type Byte = x: int | 0 <= x < 256

  const PIPESIZE := 512
  const WRAP := 0x1_0000_0000
  const RCHAN := 1               // &p->nread, where readers sleep
  const WCHAN := 2               // &p->nwrite, where writers sleep

  datatype Ring = Ring(data: seq<Byte>, nread: nat, nwrite: nat, readopen: bool, writeopen: bool,
                       accepted: seq<Byte>, delivered: seq<Byte>)

  predicate Empty(d: Ring) { d.nread == d.nwrite }

  predicate Full(d: Ring) { d.nwrite == (d.nread + PIPESIZE) % WRAP }

  function Put(d: Ring, b: Byte): Ring
    requires |d.data| == PIPESIZE
  {
    d.(data := d.data[d.nwrite % PIPESIZE := b], nwrite := (d.nwrite + 1) % WRAP, accepted := d.accepted + [b])
  }

  function Taken(d: Ring): Byte
    requires |d.data| == PIPESIZE
  {
    d.data[d.nread % PIPESIZE]
  }

  function Get(d: Ring): Ring
    requires |d.data| == PIPESIZE
  {
    d.(nread := (d.nread + 1) % WRAP, delivered := d.delivered + [Taken(d)])
  }

  /** What was delivered is a prefix of what was accepted; the rest, at most 512
      bytes, is in the ring; the counters are the two lengths modulo 2^32. */
  ghost predicate RingOk(d: Ring) {
    && |d.data| == PIPESIZE && d.delivered <= d.accepted && |d.accepted| - |d.delivered| <= PIPESIZE
    && d.nread == |d.delivered| % WRAP && d.nwrite == |d.accepted| % WRAP
    && (forall k :: |d.delivered| <= k < |d.accepted| ==> d.data[k % PIPESIZE] == d.accepted[k])
  }

  lemma FillTests(d: Ring)
    requires RingOk(d)
    ensures Empty(d) <==> |d.accepted| == |d.delivered|
    ensures Full(d) <==> |d.accepted| - |d.delivered| == PIPESIZE
  {
    WrapDiff(|d.delivered|, |d.accepted|);
  }

  /** Counters that wrap still tell how far apart they are. */
  lemma WrapDiff(r: nat, w: nat)
    requires 0 <= w - r <= PIPESIZE
    ensures r % WRAP == w % WRAP <==> w == r
    ensures w % WRAP == (r % WRAP + PIPESIZE) % WRAP <==> w - r == PIPESIZE
  {
    var q, m := r / WRAP, r % WRAP;
    assert r == q * WRAP + m;
    if m + (w - r) < WRAP {
      assert w == q * WRAP + (m + (w - r));
      assert w % WRAP == m + (w - r);
    } else {
      assert w == (q + 1) * WRAP + (m + (w - r) - WRAP);
      assert w % WRAP == m + (w - r) - WRAP;
    }
  }

  lemma WrapIndex(n: nat)
    ensures n % WRAP % PIPESIZE == n % PIPESIZE && (n % WRAP + 1) % WRAP == (n + 1) % WRAP
  {
    var q, m := n / WRAP, n % WRAP;
    assert n == q * WRAP + m == q * 8388608 * PIPESIZE + m;
    assert n % PIPESIZE == m % PIPESIZE;
    if m + 1 == WRAP {
      assert n + 1 == (q + 1) * WRAP;
      assert (n + 1) % WRAP == 0;
    } else {
      assert n + 1 == q * WRAP + (m + 1);
      assert (n + 1) % WRAP == m + 1;
    }
  }

  lemma SlotsDiffer(k: nat, w: nat)
    requires k < w < k + PIPESIZE
    ensures k % PIPESIZE != w % PIPESIZE
  {
  }

  lemma PutKeeps(d: Ring, b: Byte)
    requires RingOk(d) && !Full(d)
    ensures RingOk(Put(d, b)) && Put(d, b).accepted == d.accepted + [b] && Put(d, b).delivered == d.delivered
  {
    FillTests(d);
    var d', w := Put(d, b), |d.accepted|;
    WrapIndex(w);
    forall k | |d.delivered| <= k < |d'.accepted| ensures d'.data[k % PIPESIZE] == d'.accepted[k] {
      if k < w {
        SlotsDiffer(k, w);
      }
    }
  }

  lemma GetKeeps(d: Ring)
    requires RingOk(d) && !Empty(d)
    ensures |d.delivered| < |d.accepted| && Taken(d) == d.accepted[|d.delivered|]
    ensures RingOk(Get(d)) && Get(d).accepted == d.accepted && Get(d).delivered == d.delivered + [Taken(d)]
  {
    FillTests(d);
    WrapIndex(|d.delivered|);
  }

  // ----- The programs -----

  /** Readers wait for bytes or the end of the stream, writers for room or the
      end of reading. */
  function Conds(d: Ring): set<nat> {
    (if !Empty(d) || !d.writeopen then {RCHAN} else {}) + (if !Full(d) || !d.readopen then {WCHAN} else {})
  }

  /** Where a process is in pipe.c.  `at` gives the places in the accepted bytes
      of those written so far, `start` the place of the first byte read. */
  datatype App =
    | Idle
    | Left                                       // killed in pipewrite, or no readers are left
    | Writing(src: seq<Byte>, at: seq<nat>)
    | WriteFull(src: seq<Byte>, at: seq<nat>)    // in the wakeup before a sleep
    | WriteDone(src: seq<Byte>, at: seq<nat>)    // in the last wakeup
    | Reading(n: int)
    | Copying(n: int, start: nat, got: seq<Byte>)
    | ReadDone(n: int, start: nat, got: seq<Byte>)
    | Closing(writable: bool)
    | Closed(writable: bool)
    | CloseWake(writable: bool)

  /** `cut` records that a write of more than PIPESIZE bytes was killed on a full pipe. */
  datatype PipeState = PipeState(g: State, ring: Ring, apps: seq<App>, cut: bool)

  datatype Move =
    | CallWrite(p: nat, src: seq<Byte>) | PutByte(p: nat) | FullWake(p: nat) | FullSleep(p: nat)
    | FullQuit(p: nat, killed: bool) | DoneWake(p: nat) | DoneRelease(p: nat)
    | CallRead(p: nat, n: int) | EmptySleep(p: nat) | EmptyQuit(p: nat) | BeginCopy(p: nat) | GetByte(p: nat)
    | CopyWake(p: nat) | ReadRelease(p: nat)
    | CallClose(p: nat, writable: bool) | CloseSet(p: nat) | CloseWakeup(p: nat) | CloseRelease(p: nat)
    | Inner(st: Step)

  predicate InnerStep(app: App, st: Step) {
    || (st.Acquire? && (app.Writing? || app.Reading?))
    || st.TakePt? || st.DropLk? || st.Park? || st.Run? || st.Resume?
    || st.StartScan? || st.ScanOne? || st.EndScan? || st.Kick?
  }

  function Who(m: Move): nat {
    if m.Inner? then m.st.p else m.p
  }

  /** The ring after a move. */
  function NextRing(s: PipeState, m: Move): Ring
    requires Who(m) < |s.apps| && |s.ring.data| == PIPESIZE
  {
    var d, app := s.ring, s.apps[Who(m)];
    match m
    case PutByte(_) => if app.Writing? && |app.at| < |app.src| then Put(d, app.src[|app.at|]) else d
    case GetByte(_) => Get(d)
    case CloseSet(_) => if app.Closing? && app.writable then d.(writeopen := false) else d.(readopen := false)
    case _ => d
  }

  function StepOf(s: PipeState, m: Move): Step
    requires Who(m) < |s.apps| && |s.ring.data| == PIPESIZE
  {
    var app := s.apps[Who(m)];
    match m
    case CallWrite(p, _) => Acquire(p)
    case PutByte(p) => Update(p, Conds(NextRing(s, m)))
    case FullWake(p) => Wake(p, RCHAN)
    case FullSleep(p) => Sleep(p, WCHAN)
    case FullQuit(p, _) => Release(p)
    case DoneWake(p) => Wake(p, RCHAN)
    case DoneRelease(p) => Release(p)
    case CallRead(p, _) => Acquire(p)
    case EmptySleep(p) => Sleep(p, RCHAN)
    case EmptyQuit(p) => Release(p)
    case BeginCopy(p) => Local(p)
    case GetByte(p) => Update(p, Conds(NextRing(s, m)))
    case CopyWake(p) => Wake(p, WCHAN)
    case ReadRelease(p) => Release(p)
    case CallClose(p, _) => Acquire(p)
    case CloseSet(p) => Update(p, Conds(NextRing(s, m)))
    case CloseWakeup(p) => Wake(p, if app.Closed? && app.writable then RCHAN else WCHAN)
    case CloseRelease(p) => Release(p)
    case Inner(st) => st
  }

  predicate InReader(app: App) { app.Reading? || app.Copying? || app.ReadDone? }

  predicate InWriter(app: App) { app.Writing? || app.WriteFull? || app.WriteDone? }

  predicate InClose(app: App, writable: bool) {
    (app.Closing? || app.Closed? || app.CloseWake?) && app.writable == writable
  }

  /** fileclose reaches pipeclose with the last reference to an end, so nobody
      is inside a read or write of that end, or comes in later. */
  predicate EndIdle(s: PipeState, writable: bool) {
    && (forall q :: 0 <= q < |s.apps| ==> !(if writable then InWriter(s.apps[q]) else InReader(s.apps[q])))
    && (forall q :: 0 <= q < |s.apps| ==> !InClose(s.apps[q], writable))
  }

  predicate EndOpen(s: PipeState, writable: bool) {
    && (if writable then s.ring.writeopen else s.ring.readopen)
    && (forall q :: 0 <= q < |s.apps| ==> !InClose(s.apps[q], writable))
  }

  /** The code's own tests. */
  predicate CanMove(s: PipeState, m: Move) {
    && Who(m) < |s.apps| == |s.g.procs| && |s.ring.data| == PIPESIZE && Able(s.g, StepOf(s, m))
    && var d, app := s.ring, s.apps[Who(m)];
       match m
       case CallWrite(_, _) => (app.Idle? || app.Left?) && EndOpen(s, true)
       case PutByte(_) => app.Writing? && |app.at| < |app.src| && !Full(d)
       case FullWake(_) => s.g.procs[m.p].pc.Held? && app.Writing? && |app.at| < |app.src| && Full(d) && d.readopen
       case FullSleep(_) => app.WriteFull?
       case FullQuit(_, killed) => app.Writing? && |app.at| < |app.src| && Full(d) && (!d.readopen || killed)
       case DoneWake(_) => s.g.procs[m.p].pc.Held? && app.Writing? && |app.at| >= |app.src|
       case DoneRelease(_) => app.WriteDone?
       case CallRead(_, _) => app.Idle? && EndOpen(s, false)
       case EmptySleep(_) => app.Reading? && Empty(d) && d.writeopen
       case EmptyQuit(_) => app.Reading? && Empty(d) && d.writeopen
       case BeginCopy(_) => app.Reading? && !(Empty(d) && d.writeopen)
       case GetByte(_) => app.Copying? && |app.got| < app.n && !Empty(d)
       case CopyWake(_) => app.Copying? && (|app.got| >= app.n || Empty(d))
       case ReadRelease(_) => app.ReadDone?
       case CallClose(_, w) => (app.Idle? || app.Left?) && EndIdle(s, w) && EndOpen(s, w)
       case CloseSet(_) => app.Closing?
       case CloseWakeup(_) => app.Closed?
       case CloseRelease(_) => app.CloseWake?
       case Inner(st) => InnerStep(app, st)
  }

  function NextApp(s: PipeState, m: Move): App
    requires CanMove(s, m)
  {
    var d, app := s.ring, s.apps[Who(m)];
    match m
    case CallWrite(_, src) => Writing(src, [])
    case PutByte(_) => Writing(app.src, app.at + [|d.accepted|])
    case FullWake(_) => WriteFull(app.src, app.at)
    case FullSleep(_) => Writing(app.src, app.at)
    case FullQuit(_, _) => Left
    case DoneWake(_) => WriteDone(app.src, app.at)
    case DoneRelease(_) => Idle
    case CallRead(_, n) => Reading(n)
    case EmptySleep(_) => app
    case EmptyQuit(_) => Idle
    case BeginCopy(_) => Copying(app.n, |d.delivered|, [])
    case GetByte(_) => Copying(app.n, app.start, app.got + [Taken(d)])
    case CopyWake(_) => ReadDone(app.n, app.start, app.got)
    case ReadRelease(_) => Idle
    case CallClose(_, w) => Closing(w)
    case CloseSet(_) => Closed(app.writable)
    case CloseWakeup(_) => CloseWake(app.writable)
    case CloseRelease(_) => if app.writable then Idle else Left
    case Inner(_) => app
  }

  function DoMove(s: PipeState, m: Move): PipeState
    requires CanMove(s, m)
  {
    PipeState(Next(s.g, StepOf(s, m)), NextRing(s, m), s.apps[Who(m) := NextApp(s, m)],
              s.cut || (m.FullQuit? && m.killed && |s.apps[m.p].src| > PIPESIZE))
  }

  // ----- Invariant -----

  predicate InSleep(pc: Pc, c: nat) {
    pc.Held? || pc.Out? || pc.Back? || ((pc.ToSleep? || pc.Handing? || pc.Parking? || pc.Parked?) && pc.c == c)
  }

  /** In a wakeup of c under the lock, or just back from it. */
  predicate InWake(q: Proc, c: nat, rest: set<nat>) {
    || (q.pc.Held? && q.owes <= rest)
    || (q.pc.WakeWait? && q.pc.locked && q.pc.c == c && q.owes <= rest + {c})
    || (q.pc.Scan? && q.pc.locked && q.owes <= rest)
  }

  /** The bytes of a call taken so far stand in the pipe in their order. */
  ghost predicate InOrder(d: Ring, src: seq<Byte>, at: seq<nat>) {
    && |at| <= |src|
    && (forall k :: 0 <= k < |at| ==> at[k] < |d.accepted| && d.accepted[at[k]] == src[k])
    && (forall j, k :: 0 <= j < k < |at| ==> at[j] < at[k])
  }

  /** What a read has is the next bytes of the stream, all there are if it is short,
      none only at the end of the stream. */
  ghost predicate Fetched(d: Ring, n: int, start: nat, got: seq<Byte>) {
    && start + |got| == |d.delivered| && got == d.delivered[start..]
    && (got != [] ==> |got| <= n) && (got == [] ==> !(Empty(d) && d.writeopen))
  }

  /** A writer that has still to wake the readers found the pipe empty, and all
      the bytes in it are its own. */
  ghost predicate OwnBytes(q: Proc, d: Ring, at: seq<nat>, excused: bool) {
    q.owes != {} ==> |d.accepted| - |d.delivered| <= |at| || excused || !d.readopen
  }

  ghost predicate AppFits(app: App, q: Proc, d: Ring, excused: bool) {
    match app
    case Idle => q.pc.Out? && q.owes == {}
    case Left => q.pc.Out? && q.owes <= {RCHAN} && (q.owes != {} ==> excused || !d.readopen)
    case Writing(src, at) =>
      && InSleep(q.pc, WCHAN) && InOrder(d, src, at) && OwnBytes(q, d, at, excused)
      && q.owes <= {RCHAN} && (q.pc.Held? || q.owes == {})
    case WriteFull(src, at) => InWake(q, RCHAN, {}) && InOrder(d, src, at) && |at| < |src| && Full(d) && d.readopen
    case WriteDone(src, at) => InWake(q, RCHAN, {}) && InOrder(d, src, at) && |at| == |src|
    case Reading(n) => InSleep(q.pc, RCHAN) && q.owes == {}
    case Copying(n, start, got) => q.pc.Held? && q.owes <= {WCHAN} && Fetched(d, n, start, got)
    case ReadDone(n, start, got) =>
      InWake(q, WCHAN, {}) && Fetched(d, n, start, got) && (|got| >= n || Empty(d))
    case Closing(w) => q.pc.Held? && q.owes <= {RCHAN}
    case Closed(w) => q.pc.Held? && (if w then q.owes <= {RCHAN} && !d.writeopen else q.owes <= {RCHAN, WCHAN} && !d.readopen)
    case CloseWake(w) => if w then InWake(q, RCHAN, {}) && !d.writeopen else InWake(q, WCHAN, {RCHAN}) && !d.readopen
  }

  ghost predicate PipeInv(s: PipeState) {
    && |s.apps| == |s.g.procs| && RingOk(s.ring) && Inv(s.g) && s.g.conds == Conds(s.ring)
    && (forall p :: 0 <= p < |s.apps| ==> AppFits(s.apps[p], s.g.procs[p], s.ring, s.cut))
    && EndsOk(s)
  }

  lemma MoveDisciplined(s: PipeState, m: Move)
    requires CanMove(s, m) && AppFits(s.apps[Who(m)], s.g.procs[Who(m)], s.ring, s.cut) && s.g.conds == Conds(s.ring)
    ensures StepOf(s, m).p == Who(m) && Disciplined(s.g, StepOf(s, m))
    ensures DoMove(s, m).g.conds == Conds(DoMove(s, m).ring)
  {
  }

  /** How one move changes the ring: a byte in, a byte out, an end closed, or nothing. */
  lemma RingKeeps(s: PipeState, m: Move)
    requires CanMove(s, m) && RingOk(s.ring)
    ensures var d, d' := s.ring, DoMove(s, m).ring;
            && RingOk(d') && d.accepted <= d'.accepted && d.delivered <= d'.delivered
            && (d'.readopen ==> d.readopen) && (d'.writeopen ==> d.writeopen)
            && (d' != d ==> StepOf(s, m).Update?)
            && (d'.readopen != d.readopen ==> m.CloseSet? && s.apps[Who(m)] == Closing(false))
            && (d'.writeopen != d.writeopen ==> m.CloseSet? && s.apps[Who(m)] == Closing(true))
  {
    var d := s.ring;
    if m.PutByte? {
      var app := s.apps[Who(m)];
      PutKeeps(d, app.src[|app.at|]);
    } else if m.GetByte? {
      GetKeeps(d);
    }
  }

  /** A process that does not move keeps its place: if it holds the lock the
      data stays, and otherwise its facts are ones that only grow. */
  lemma OtherKeeps(s: PipeState, m: Move, p: nat)
    requires CanMove(s, m) && RingOk(s.ring) && LocksOk(s.g) && p < |s.apps| && p != Who(m)
    requires StepOf(s, m).p == Who(m) && AppFits(s.apps[p], s.g.procs[p], s.ring, s.cut)
    ensures AppFits(s.apps[p], DoMove(s, m).g.procs[p], DoMove(s, m).ring, DoMove(s, m).cut)
  {
    hide RingOk, StepOf, Put, Get;
    RingKeeps(s, m);
    assert LockOk(s.g, p) && LockOk(s.g, Who(m));
    ProcOfOther(s, m, p);
  }

  lemma ProcOfOther(s: PipeState, m: Move, p: nat)
    requires CanMove(s, m) && StepOf(s, m).p == Who(m) && p < |s.apps| && p != Who(m)
    ensures DoMove(s, m).g.procs[p].pc == s.g.procs[p].pc && DoMove(s, m).g.procs[p].owes == s.g.procs[p].owes
  {
  }

  /** A byte put in can only concern readers, one taken out only writers. */
  lemma Concerns(d: Ring, b: Byte)
    requires RingOk(d)
    ensures !Full(d) ==> Conds(Put(d, b)) - Conds(d) <= {RCHAN}
    ensures !Empty(d) ==> Conds(Get(d)) - Conds(d) <= {WCHAN}
    ensures Conds(d.(writeopen := false)) - Conds(d) <= {RCHAN}
    ensures Conds(d.(readopen := false)) - Conds(d) <= {WCHAN}
  {
    var shutW, shutR := d.(writeopen := false), d.(readopen := false);
    assert Full(shutW) == Full(d) && Empty(shutR) == Empty(d);
    assert shutW.readopen == d.readopen && shutR.writeopen == d.writeopen;
  }

  /** Steps inside sleep, wakeup and the scheduler. */
  lemma SelfInner(s: PipeState, m: Move)
    requires CanMove(s, m) && m.Inner? && AppFits(s.apps[Who(m)], s.g.procs[Who(m)], s.ring, s.cut)
    ensures DoMove(s, m).ring == s.ring && NextApp(s, m) == s.apps[Who(m)]
    ensures AppFits(s.apps[Who(m)], DoMove(s, m).g.procs[Who(m)], s.ring, s.cut)
  {
    hide InOrder, Fetched, Full, Empty;
    var q, q' := s.g.procs[Who(m)], DoMove(s, m).g.procs[Who(m)];
    assert q'.owes == if m.st.StartScan? then q.owes - {q.pc.c} else q.owes;
  }

  lemma SelfWrite(s: PipeState, m: Move)
    requires CanMove(s, m) && RingOk(s.ring) && AppFits(s.apps[Who(m)], s.g.procs[Who(m)], s.ring, s.cut) && s.g.conds == Conds(s.ring)
    requires m.CallWrite? || m.FullWake? || m.FullSleep? || m.FullQuit? || m.DoneWake? || m.DoneRelease?
    ensures AppFits(NextApp(s, m), DoMove(s, m).g.procs[Who(m)], DoMove(s, m).ring, DoMove(s, m).cut)
  {
    hide Full, RingOk;
    FillTests(s.ring);
    var o := s.g.procs[Who(m)].owes;
    assert o <= {RCHAN} ==> o <= {} + {RCHAN};
  }

  /** A byte written: readers are owed a wakeup if the pipe was empty. */
  lemma SelfPut(s: PipeState, m: Move)
    requires CanMove(s, m) && RingOk(s.ring) && AppFits(s.apps[Who(m)], s.g.procs[Who(m)], s.ring, s.cut) && s.g.conds == Conds(s.ring)
    requires m.PutByte?
    ensures AppFits(NextApp(s, m), DoMove(s, m).g.procs[Who(m)], DoMove(s, m).ring, DoMove(s, m).cut)
  {
    Concerns(s.ring, s.apps[Who(m)].src[|s.apps[Who(m)].at|]);
  }

  lemma SelfRead(s: PipeState, m: Move)
    requires CanMove(s, m) && RingOk(s.ring) && AppFits(s.apps[Who(m)], s.g.procs[Who(m)], s.ring, s.cut) && s.g.conds == Conds(s.ring)
    requires m.CallRead? || m.EmptySleep? || m.EmptyQuit? || m.BeginCopy? || m.CopyWake? || m.ReadRelease?
    ensures AppFits(NextApp(s, m), DoMove(s, m).g.procs[Who(m)], DoMove(s, m).ring, DoMove(s, m).cut)
  {
    assert forall o: set<nat>, c: nat {:trigger o <= {c}} :: o <= {c} ==> o <= {} + {c};
  }

  lemma SelfGet(s: PipeState, m: Move)
    requires CanMove(s, m) && RingOk(s.ring) && AppFits(s.apps[Who(m)], s.g.procs[Who(m)], s.ring, s.cut) && s.g.conds == Conds(s.ring)
    requires m.GetByte?
    ensures AppFits(NextApp(s, m), DoMove(s, m).g.procs[Who(m)], DoMove(s, m).ring, DoMove(s, m).cut)
  {
    Concerns(s.ring, 0);
  }

  lemma SelfShut(s: PipeState, m: Move)
    requires CanMove(s, m) && RingOk(s.ring) && AppFits(s.apps[Who(m)], s.g.procs[Who(m)], s.ring, s.cut) && s.g.conds == Conds(s.ring)
    requires m.CloseSet?
    ensures AppFits(NextApp(s, m), DoMove(s, m).g.procs[Who(m)], DoMove(s, m).ring, DoMove(s, m).cut)
  {
    Concerns(s.ring, 0);
  }

  lemma SelfClose(s: PipeState, m: Move)
    requires CanMove(s, m) && RingOk(s.ring) && AppFits(s.apps[Who(m)], s.g.procs[Who(m)], s.ring, s.cut) && s.g.conds == Conds(s.ring)
    requires m.CallClose? || m.CloseWakeup? || m.CloseRelease?
    ensures AppFits(NextApp(s, m), DoMove(s, m).g.procs[Who(m)], DoMove(s, m).ring, DoMove(s, m).cut)
  {
    assert forall o: set<nat>, c: nat {:trigger o <= {c}} :: o <= {c} ==> o <= {} + {c};
  }

  lemma SelfKeeps(s: PipeState, m: Move)
    requires CanMove(s, m) && RingOk(s.ring) && AppFits(s.apps[Who(m)], s.g.procs[Who(m)], s.ring, s.cut) && s.g.conds == Conds(s.ring)
    ensures AppFits(NextApp(s, m), DoMove(s, m).g.procs[Who(m)], DoMove(s, m).ring, DoMove(s, m).cut)
  {
    hide AppFits, Able, Next, StepOf, RingOk;
    if m.Inner? {
      SelfInner(s, m);
    } else if m.CallClose? || m.CloseWakeup? || m.CloseRelease? {
      SelfClose(s, m);
    } else if m.CloseSet? {
      SelfShut(s, m);
    } else if m.CallRead? || m.EmptySleep? || m.EmptyQuit? || m.BeginCopy? || m.CopyWake? || m.ReadRelease? {
      SelfRead(s, m);
    } else if m.GetByte? {
      SelfGet(s, m);
    } else if m.PutByte? {
      SelfPut(s, m);
    } else {
      SelfWrite(s, m);
    }
  }

  /** While a process is reading, the read end is open; writing likewise. */
  ghost predicate EndsOk(s: PipeState) {
    && (forall p :: 0 <= p < |s.apps| && InReader(s.apps[p]) ==> EndOpen(s, false))
    && (forall p :: 0 <= p < |s.apps| && InWriter(s.apps[p]) ==> EndOpen(s, true))
  }

  /** How a move changes who is inside which end. */
  lemma WhoIsInside(s: PipeState, m: Move)
    requires CanMove(s, m)
    ensures var app, app' := s.apps[Who(m)], NextApp(s, m);
            && (InReader(app') ==> InReader(app) || (m.CallRead? && EndOpen(s, false)))
            && (InWriter(app') ==> InWriter(app) || (m.CallWrite? && EndOpen(s, true)))
            && (forall e :: InClose(app', e) ==> InClose(app, e) || (m.CallClose? && m.writable == e && EndIdle(s, e) && EndOpen(s, e)))
  {
    hide Able, StepOf, Full, Empty;
  }

  /** An end in use stays open: whoever closes it has found it idle. */
  lemma EndKeeps(s: PipeState, m: Move, e: bool)
    requires CanMove(s, m) && RingOk(s.ring)
    requires forall p :: 0 <= p < |s.apps| && (if e then InWriter(s.apps[p]) else InReader(s.apps[p])) ==> EndOpen(s, e)
    ensures var s' := DoMove(s, m);
            forall p :: 0 <= p < |s'.apps| && (if e then InWriter(s'.apps[p]) else InReader(s'.apps[p])) ==> EndOpen(s', e)
  {
    hide RingOk, StepOf, Next, CanMove, NextApp;
    RingKeeps(s, m);
    WhoIsInside(s, m);
    CanBe(s, m);
    var s', w := DoMove(s, m), Who(m);
    forall p | 0 <= p < |s'.apps| && (if e then InWriter(s'.apps[p]) else InReader(s'.apps[p])) ensures EndOpen(s', e) {
      if p != w {
        assert s'.apps[p] == s.apps[p];
      }
      assert EndOpen(s, e);
      forall q | 0 <= q < |s'.apps| ensures !InClose(s'.apps[q], e) {
        assert !InClose(s.apps[q], e);
        assert q != w ==> s'.apps[q] == s.apps[q];
      }
    }
  }

  lemma EndsKeep(s: PipeState, m: Move)
    requires CanMove(s, m) && RingOk(s.ring) && EndsOk(s)
    ensures EndsOk(DoMove(s, m))
  {
    hide CanMove, DoMove, EndOpen;
    EndKeeps(s, m, true);
    EndKeeps(s, m, false);
  }

  lemma MoveKeeps(s: PipeState, m: Move)
    requires PipeInv(s) && CanMove(s, m)
    ensures PipeInv(DoMove(s, m))
  {
    hide AppFits, Able, Next, StepOf, RingOk, Inv, EndsOk, Disciplined, CanMove;
    CanBe(s, m);
    MoveDisciplined(s, m);
    StepKeeps(s.g, StepOf(s, m));
    RingKeeps(s, m);
    EndsKeep(s, m);
    assert LocksOk(s.g) by { InvLocks(s.g); }
    var s' := DoMove(s, m);
    forall p | 0 <= p < |s.apps| ensures AppFits(s'.apps[p], s'.g.procs[p], s'.ring, s'.cut) {
      if p == Who(m) {
        SelfKeeps(s, m);
      } else {
        OtherKeeps(s, m, p);
      }
    }
  }

  lemma CanBe(s: PipeState, m: Move)
    requires CanMove(s, m)
    ensures Who(m) < |s.apps| == |s.g.procs| && |s.ring.data| == PIPESIZE && Able(s.g, StepOf(s, m))
  {
  }

  lemma InvLocks(g: State)
    requires Inv(g)
    ensures LocksOk(g)
  {
  }

  // ----- Runs -----

  ghost predicate Runs(s: PipeState, run: seq<Move>)
    decreases |run|
  {
    run == [] || (CanMove(s, run[0]) && Runs(DoMove(s, run[0]), run[1..]))
  }

  ghost function End(s: PipeState, run: seq<Move>): PipeState
    requires Runs(s, run)
    decreases |run|
  {
    if run == [] then s else End(DoMove(s, run[0]), run[1..])
  }

  /** A new pipe: pipealloc does not clear the buffer. */
  ghost predicate Initial(s: PipeState) {
    && Start(s.g) && |s.apps| == |s.g.procs| && !s.cut && (forall p :: 0 <= p < |s.apps| ==> s.apps[p] == Idle)
    && |s.ring.data| == PIPESIZE && s.ring.(data := []) == Ring([], 0, 0, true, true, [], []) && s.g.conds == Conds(s.ring)
  }

  lemma {:induction false} RunKeepsPipe(s: PipeState, run: seq<Move>)
    requires PipeInv(s) && Runs(s, run)
    ensures PipeInv(End(s, run))
    decreases |run|
  {
    hide PipeInv, CanMove;
    if run != [] {
      MoveKeeps(s, run[0]);
      RunKeepsPipe(DoMove(s, run[0]), run[1..]);
    }
  }

  lemma Reached(s: PipeState, run: seq<Move>)
    requires Initial(s) && Runs(s, run)
    ensures PipeInv(End(s, run))
  {
    StartInv(s.g);
    RunKeepsPipe(s, run);
  }

  /** In every interleaving the bytes delivered are a prefix of the bytes
      accepted, and between 0 and 512 of them are under way. */
  lemma StreamIsPrefix(s: PipeState, run: seq<Move>)
    requires Initial(s) && Runs(s, run)
    ensures var d := End(s, run).ring;
            d.delivered <= d.accepted && 0 <= |d.accepted| - |d.delivered| <= PIPESIZE
  {
    Reached(s, run);
  }

  /** A piperead that returns got the next bytes of the stream in one piece; it
      is short only if it emptied the pipe, and empty-handed only at the end of
      the stream. */
  lemma ReadReturns(s: PipeState, run: seq<Move>, p: nat)
    requires Initial(s) && Runs(s, run) && CanMove(End(s, run), ReadRelease(p))
    ensures var e := End(s, run);
            var d, app := e.ring, e.apps[p];
            && app.ReadDone? && app.start + |app.got| <= |d.accepted|
            && app.got == d.accepted[app.start..app.start + |app.got|]
            && (|app.got| < app.n ==> Empty(d)) && (app.n > 0 ==> |app.got| <= app.n)
            && (app.n > 0 && app.got == [] ==> Empty(d) && !d.writeopen)
  {
    Reached(s, run);
    var e := End(s, run);
    assert AppFits(e.apps[p], e.g.procs[p], e.ring, e.cut);
  }

  /** A pipewrite that returns its count had every byte accepted, in order. */
  lemma WriteReturns(s: PipeState, run: seq<Move>, p: nat)
    requires Initial(s) && Runs(s, run) && CanMove(End(s, run), DoneRelease(p))
    ensures var e := End(s, run);
            e.apps[p].WriteDone? && |e.apps[p].at| == |e.apps[p].src| && InOrder(e.ring, e.apps[p].src, e.apps[p].at)
  {
    Reached(s, run);
    var e := End(s, run);
    assert AppFits(e.apps[p], e.g.procs[p], e.ring, e.cut);
  }

  /** A killed piperead gives up only where it would sleep: every byte accepted
      has been delivered, and there may be more. */
  lemma ReadGivesUp(s: PipeState, run: seq<Move>, p: nat)
    requires Initial(s) && Runs(s, run) && CanMove(End(s, run), EmptyQuit(p))
    ensures var d := End(s, run).ring; d.delivered == d.accepted && d.writeopen && DoMove(End(s, run), EmptyQuit(p)).ring == d
  {
    Reached(s, run);
    FillTests(End(s, run).ring);
  }

  /** A pipewrite gives up only with bytes left to write and 512 under way, when
      it is killed or nobody can read them; those it has written are in order. */
  lemma WriteGivesUp(s: PipeState, run: seq<Move>, p: nat, killed: bool)
    requires Initial(s) && Runs(s, run) && CanMove(End(s, run), FullQuit(p, killed))
    ensures var e := End(s, run);
            && e.apps[p].Writing? && |e.apps[p].at| < |e.apps[p].src| && InOrder(e.ring, e.apps[p].src, e.apps[p].at)
            && |e.ring.accepted| - |e.ring.delivered| == 512 && (killed || !e.ring.readopen)
            && DoMove(e, FullQuit(p, killed)).ring == e.ring
  {
    Reached(s, run);
    var e := End(s, run);
    FillTests(e.ring);
    assert AppFits(e.apps[p], e.g.procs[p], e.ring, e.cut);
  }

  /** With the lock free, only a writer that gave up owes a wakeup. */
  lemma WhoOwes(s: PipeState, q: nat, c: nat, p: nat)
    requires PipeInv(s) && s.g.lk.Nobody? && Pending(s.g, q, c, p)
    ensures q < |s.apps| && s.apps[q].Left? && c == RCHAN && (s.cut || !s.ring.readopen)
  {
    assert AppFits(s.apps[q], s.g.procs[q], s.ring, s.cut) && LockOk(s.g, q);
  }

  lemma SleeperIs(s: PipeState, p: nat)
    requires PipeInv(s) && p < |s.apps| && s.g.procs[p].state.Asleep?
    ensures s.apps[p].Writing? || s.apps[p].Reading?
    ensures s.g.procs[p].chan == if s.apps[p].Reading? then RCHAN else WCHAN
    ensures s.apps[p].Reading? ==> s.ring.readopen
    ensures s.g.procs[p].chan in s.g.conds ==> exists q: nat :: Pending(s.g, q, s.g.procs[p].chan, p)
  {
    assert AppFits(s.apps[p], s.g.procs[p], s.ring, s.cut) && StateOk(s.g.procs[p]);
    assert WakeOk(s.g, p);
    assert Committed(s.g.procs[p], s.g.procs[p].chan);
  }

  /** Unless a write of more than 512 bytes has been killed on a full pipe, a
      reader asleep when the lock is free has an empty pipe that can still be
      written, whoever else is killed. */
  lemma ReaderSleepsOnEmpty(s: PipeState, run: seq<Move>, p: nat)
    requires Initial(s) && Runs(s, run) && End(s, run).g.lk.Nobody? && !End(s, run).cut
    requires p < |End(s, run).g.procs| && End(s, run).g.procs[p].state.Asleep? && End(s, run).g.procs[p].chan == RCHAN
    ensures Empty(End(s, run).ring) && End(s, run).ring.writeopen
  {
    hide PipeInv, Runs, Pending, Initial;
    Reached(s, run);
    var e := End(s, run);
    Sizes(e);
    SleeperIs(e, p);
    forall q: nat ensures !Pending(e.g, q, RCHAN, p) {
      if Pending(e.g, q, RCHAN, p) {
        WhoOwes(e, q, RCHAN, p);
      }
    }
  }

  lemma Sizes(s: PipeState)
    requires PipeInv(s)
    ensures |s.apps| == |s.g.procs| && s.g.conds == Conds(s.ring)
  {
  }

  /** A writer asleep when the lock is free has a full pipe that can still be
      read, whoever is killed. */
  lemma WriterSleepsOnFull(s: PipeState, run: seq<Move>, p: nat)
    requires Initial(s) && Runs(s, run) && End(s, run).g.lk.Nobody?
    requires p < |End(s, run).g.procs| && End(s, run).g.procs[p].state.Asleep? && End(s, run).g.procs[p].chan == WCHAN
    ensures Full(End(s, run).ring) && End(s, run).ring.readopen
  {
    hide PipeInv, Runs, Pending, Initial;
    Reached(s, run);
    var e := End(s, run);
    Sizes(e);
    SleeperIs(e, p);
    forall q: nat ensures !Pending(e.g, q, WCHAN, p) {
      if Pending(e.g, q, WCHAN, p) {
        WhoOwes(e, q, WCHAN, p);
      }
    }
  }

  // ----- Closing an end -----

  lemma {:induction false} RunThen(s: PipeState, a: seq<Move>, b: seq<Move>)
    requires Runs(s, a) && Runs(End(s, a), b)
    ensures Runs(s, a + b) && End(s, a + b) == End(End(s, a), b)
    decreases |a|
  {
    hide CanMove, DoMove;
    if a == [] {
      assert a + b == b;
    } else {
      assert (a + b)[1..] == a[1..] + b;
      RunThen(DoMove(s, a[0]), a[1..], b);
    }
  }

  lemma OneMore(s: PipeState, a: seq<Move>, m: Move)
    requires Runs(s, a) && CanMove(End(s, a), m)
    ensures Runs(s, a + [m]) && End(s, a + [m]) == DoMove(End(s, a), m)
  {
    hide CanMove, DoMove;
    var e := End(s, a);
    assert [m][1..] == [];
    assert Runs(e, [m]);
    assert End(e, [m]) == End(DoMove(e, m), []);
    RunThen(s, a, [m]);
  }

  /** pipeclose closes the end it was called for, and only that end. */
  lemma CloseShuts(s: PipeState, p: nat)
    requires PipeInv(s) && CanMove(s, CloseSet(p))
    ensures s.apps[p].Closing?
    ensures DoMove(s, CloseSet(p)).ring ==
            if s.apps[p].writable then s.ring.(writeopen := false) else s.ring.(readopen := false)
    ensures DoMove(s, CloseSet(p)).apps[p] == Closed(s.apps[p].writable)
  {
  }

  /** An end that is shut stays shut. */
  lemma {:induction false} ShutForGood(s: PipeState, run: seq<Move>)
    requires PipeInv(s) && Runs(s, run)
    ensures End(s, run).ring.writeopen ==> s.ring.writeopen
    ensures End(s, run).ring.readopen ==> s.ring.readopen
    decreases |run|
  {
    hide PipeInv, CanMove;
    if run != [] {
      assert RingOk(s.ring) by { InvRing(s); }
      RingKeeps(s, run[0]);
      MoveKeeps(s, run[0]);
      ShutForGood(DoMove(s, run[0]), run[1..]);
    }
  }

  lemma InvRing(s: PipeState)
    requires PipeInv(s)
    ensures RingOk(s.ring)
  {
  }

  /** When pipeclose lets go of the lock its end is shut. */
  lemma ShutAtRelease(s: PipeState, p: nat)
    requires PipeInv(s) && CanMove(s, CloseRelease(p))
    ensures s.apps[p].CloseWake?
    ensures if s.apps[p].writable then !DoMove(s, CloseRelease(p)).ring.writeopen else !DoMove(s, CloseRelease(p)).ring.readopen
  {
    assert AppFits(s.apps[p], s.g.procs[p], s.ring, s.cut);
  }

  /** Once the write end has been closed it stays closed, and with the lock free
      no reader sleeps, unless a write of more than 512 bytes was killed on a
      full pipe; once the read end has been closed no writer sleeps. */
  lemma ClosedEndStrandsNobody(s: PipeState, a: seq<Move>, p: nat, b: seq<Move>, q: nat)
    requires Initial(s) && Runs(s, a) && CanMove(End(s, a), CloseRelease(p))
    requires Runs(DoMove(End(s, a), CloseRelease(p)), b)
    ensures End(s, a).apps[p].CloseWake?
    ensures var e := End(DoMove(End(s, a), CloseRelease(p)), b);
            if End(s, a).apps[p].writable then
              !e.ring.writeopen && (e.g.lk.Nobody? && !e.cut && q < |e.g.procs| ==> !(e.g.procs[q].state.Asleep? && e.g.procs[q].chan == RCHAN))
            else
              !e.ring.readopen && (e.g.lk.Nobody? && q < |e.g.procs| ==> !(e.g.procs[q].state.Asleep? && e.g.procs[q].chan == WCHAN))
  {
    hide PipeInv, CanMove, DoMove, Runs, Initial, Empty, Full, AppFits;
    var m, c := CloseRelease(p), End(s, a);
    Reached(s, a);
    ShutAtRelease(c, p);
    MoveKeeps(c, m);
    ShutForGood(DoMove(c, m), b);
    OneMore(s, a, m);
    RunThen(s, a + [m], b);
    var e := End(DoMove(c, m), b);
    if e.g.lk.Nobody? && q < |e.g.procs| && e.g.procs[q].state.Asleep? {
      if e.g.procs[q].chan == RCHAN && !e.cut {
        ReaderSleepsOnEmpty(s, a + [m] + b, q);
      } else if e.g.procs[q].chan == WCHAN {
        WriterSleepsOnFull(s, a + [m] + b, q);
      }
    }
  }

  // ----- A writer killed while the pipe is full -----

  /** The longest write of a run has at most n bytes. */
  ghost predicate WritesWithin(run: seq<Move>, n: nat) {
    forall i :: 0 <= i < |run| && run[i].CallWrite? ==> |run[i].src| <= n
  }

  ghost predicate ShortWriters(s: PipeState) {
    forall p :: 0 <= p < |s.apps| && InWriter(s.apps[p]) ==> |s.apps[p].src| <= PIPESIZE
  }

  lemma ShortMove(s: PipeState, m: Move)
    requires CanMove(s, m) && ShortWriters(s) && (m.CallWrite? ==> |m.src| <= PIPESIZE)
    ensures ShortWriters(DoMove(s, m)) && DoMove(s, m).cut == s.cut
  {
    hide Able, StepOf, Next, NextRing;
    var s', w := DoMove(s, m), Who(m);
    forall p | 0 <= p < |s'.apps| && InWriter(s'.apps[p]) ensures |s'.apps[p].src| <= PIPESIZE {
      assert p != w ==> s'.apps[p] == s.apps[p];
      assert p == w && !m.CallWrite? ==> InWriter(s.apps[w]) && NextApp(s, m).src == s.apps[w].src;
    }
  }

  /** Writes that fit the pipe are never cut. */
  lemma {:induction false} ShortNeverCut(s: PipeState, run: seq<Move>)
    requires Runs(s, run) && ShortWriters(s) && WritesWithin(run, PIPESIZE)
    ensures End(s, run).cut == s.cut
    decreases |run|
  {
    hide CanMove, DoMove, ShortWriters;
    if run != [] {
      assert run[0].CallWrite? ==> |run[0].src| <= PIPESIZE;
      ShortMove(s, run[0]);
      assert forall i :: 0 <= i < |run[1..]| ==> run[1..][i] == run[i + 1];
      ShortNeverCut(DoMove(s, run[0]), run[1..]);
    }
  }

  /** Move i of the run is a write of more than 512 bytes that gives up because
      it is killed. */
  ghost predicate CutsAt(s: PipeState, run: seq<Move>, i: nat) {
    && i < |run| && run[i].FullQuit? && run[i].killed && Runs(s, run[..i])
    && var e := End(s, run[..i]);
       run[i].p < |e.apps| && e.apps[run[i].p].Writing? && |e.apps[run[i].p].src| > 512
  }

  /** `cut` is what it says. */
  lemma {:induction false} CutExact(s: PipeState, run: seq<Move>)
    requires Runs(s, run) && !s.cut
    ensures End(s, run).cut <==> exists i: nat :: CutsAt(s, run, i)
    decreases |run|
  {
    hide CanMove, DoMove;
    if run != [] {
      var s', rest := DoMove(s, run[0]), run[1..];
      assert s'.cut <==> CutsAt(s, run, 0) by { CutNow(s, run); }
      if s'.cut {
        CutStays(s', rest);
      } else {
        CutExact(s', rest);
        forall i: nat ensures CutsAt(s, run, i + 1) <==> CutsAt(s', rest, i) {
          CutLater(s, run, i);
        }
        if i: nat :| CutsAt(s', rest, i) {
          assert CutsAt(s, run, i + 1);
        }
        if i: nat :| CutsAt(s, run, i) {
          var j: nat := i - 1;
          assert CutsAt(s, run, j + 1);
          assert CutsAt(s', rest, j);
        }
      }
    }
  }

  lemma CutNow(s: PipeState, run: seq<Move>)
    requires run != [] && CanMove(s, run[0]) && !s.cut
    ensures DoMove(s, run[0]).cut <==> CutsAt(s, run, 0)
  {
    assert run[..0] == [];
  }

  lemma CutLater(s: PipeState, run: seq<Move>, i: nat)
    requires Runs(s, run) && run != []
    ensures CutsAt(s, run, i + 1) <==> CutsAt(DoMove(s, run[0]), run[1..], i)
  {
    hide CanMove, DoMove;
    if i + 1 < |run| {
      assert run[1..][i] == run[i + 1] && run[..i + 1][1..] == run[1..][..i] && run[..i + 1][0] == run[0];
    }
  }

  lemma {:induction false} CutStays(s: PipeState, run: seq<Move>)
    requires Runs(s, run) && s.cut
    ensures End(s, run).cut
    decreases |run|
  {
    hide CanMove;
    if run != [] {
      CutStays(DoMove(s, run[0]), run[1..]);
    }
  }

  /** Process 1 is in pipewrite with the lock, k bytes written; process 0 sleeps in piperead. */
  ghost predicate Stranding(s: PipeState, src: seq<Byte>, k: nat) {
    && |s.apps| == |s.g.procs| == 2 && s.g.pt.Nobody? && RingOk(s.ring) && |s.ring.accepted| == k && s.ring.delivered == []
    && s.g.procs[0].state.Asleep? && s.g.procs[0].chan == RCHAN
    && s.g.procs[1].pc.Held? && s.apps[1].Writing? && s.apps[1].src == src && |s.apps[1].at| == k
  }

  lemma PutOne(s: PipeState, src: seq<Byte>, k: nat)
    requires Stranding(s, src, k) && k < |src| && k < PIPESIZE
    ensures CanMove(s, PutByte(1)) && Stranding(DoMove(s, PutByte(1)), src, k + 1)
  {
    FillTests(s.ring);
    PutKeeps(s.ring, src[k]);
  }

  lemma {:induction false} PutMany(s: PipeState, src: seq<Byte>, run: seq<Move>, k: nat) returns (r: seq<Move>)
    requires Runs(s, run) && Stranding(End(s, run), src, k) && k <= PIPESIZE < |src|
    requires WritesWithin(run, |src|)
    ensures Runs(s, r) && Stranding(End(s, r), src, PIPESIZE) && WritesWithin(r, |src|)
    decreases PIPESIZE - k
  {
    hide Stranding, CanMove, DoMove;
    r := run;
    if k < PIPESIZE {
      PutOne(End(s, run), src, k);
      OneMore(s, run, PutByte(1));
      r := PutMany(s, src, run + [PutByte(1)], k + 1);
    }
  }

  ghost function Blank(data: seq<Byte>): PipeState {
    var q := Proc(Out, Running, 0, {});
    var d := Ring(data, 0, 0, true, true, [], []);
    PipeState(State(Nobody, Nobody, [q, q], Conds(d)), d, [Idle, Idle], false)
  }

  ghost function AsleepState(data: seq<Byte>): PipeState {
    var d := Ring(data, 0, 0, true, true, [], []);
    PipeState(State(Nobody, Nobody, [Proc(Parked(RCHAN), Asleep, RCHAN, {}), Proc(Out, Running, 0, {})], Conds(d)), d,
              [Reading(1), Idle], false)
  }

  /** A reader goes to sleep on the empty pipe. */
  lemma FallAsleep(data: seq<Byte>) returns (run: seq<Move>)
    requires |data| == PIPESIZE
    ensures Runs(Blank(data), run) && End(Blank(data), run) == AsleepState(data) && WritesWithin(run, 0)
  {
    hide Runs, End;
    var s0 := Blank(data);
    var s1 := DoMove(s0, CallRead(0, 1));
    var s2 := DoMove(s1, EmptySleep(0));
    var s3 := DoMove(s2, Inner(TakePt(0)));
    var s4 := DoMove(s3, Inner(DropLk(0)));
    var s5 := DoMove(s4, Inner(Park(0)));
    assert s5.g.procs == AsleepState(data).g.procs && s5.apps == AsleepState(data).apps;
    run := [];
    NoMove(s0);
    OneMore(s0, run, CallRead(0, 1));
    run := run + [CallRead(0, 1)];
    OneMore(s0, run, EmptySleep(0));
    run := run + [EmptySleep(0)];
    OneMore(s0, run, Inner(TakePt(0)));
    run := run + [Inner(TakePt(0))];
    OneMore(s0, run, Inner(DropLk(0)));
    run := run + [Inner(DropLk(0))];
    OneMore(s0, run, Inner(Park(0)));
    run := run + [Inner(Park(0))];
  }

  lemma NoMove(s: PipeState)
    ensures Runs(s, []) && End(s, []) == s
  {
  }

  lemma StartWriting(data: seq<Byte>, src: seq<Byte>)
    requires |data| == PIPESIZE
    ensures CanMove(AsleepState(data), CallWrite(1, src))
    ensures Stranding(DoMove(AsleepState(data), CallWrite(1, src)), src, 0)
  {
  }

  lemma QuitKilled(s: PipeState, src: seq<Byte>)
    requires Stranding(s, src, PIPESIZE) && PIPESIZE < |src|
    ensures CanMove(s, FullQuit(1, true))
    ensures var e := DoMove(s, FullQuit(1, true));
            && e.g.lk.Nobody? && |e.g.procs| == 2 && e.g.procs[0] == s.g.procs[0] && e.ring == s.ring && !Empty(e.ring)
            && e.g.procs[1].pc.Out?
  {
    FillTests(s.ring);
  }

  /** A write of more than 512 bytes, by a process killed before it finds the
      pipe full, leaves a reader asleep beside 512 bytes, with the lock free and
      nobody in wakeup. */
  lemma KilledWriterStrandsReader(data: seq<Byte>, src: seq<Byte>) returns (run: seq<Move>)
    requires |data| == PIPESIZE < |src|
    ensures Initial(Blank(data)) && Runs(Blank(data), run) && WritesWithin(run, |src|)
    ensures var end := End(Blank(data), run);
            var e := end.g;
            && e.lk.Nobody? && |e.procs| == 2 && e.procs[0].state.Asleep? && e.procs[0].chan == RCHAN
            && !Empty(end.ring) && e.procs[1].pc.Out?
  {
    hide Runs, End, CanMove, DoMove;
    run := FallAsleep(data);
    StartWriting(data, src);
    OneMore(Blank(data), run, CallWrite(1, src));
    run := PutMany(Blank(data), src, run + [CallWrite(1, src)], 0);
    QuitKilled(End(Blank(data), run), src);
    OneMore(Blank(data), run, FullQuit(1, true));
    run := run + [FullQuit(1, true)];
  }

  /** A process sleeps in piperead beside bytes, or at the end of the stream, while
      the lock is free. */
  ghost predicate Stranded(s: PipeState) {
    && s.g.lk.Nobody? && !(Empty(s.ring) && s.ring.writeopen)
    && (exists p :: 0 <= p < |s.g.procs| && s.g.procs[p].state.Asleep? && s.g.procs[p].chan == RCHAN)
  }

  /** Whoever is killed, no run whose writes have at most n bytes strands a reader. */
  ghost predicate NeverStranded(n: nat) {
    forall s: PipeState, run: seq<Move> :: Initial(s) && Runs(s, run) && WritesWithin(run, n) ==> !Stranded(End(s, run))
  }

  /** Exactly the bound on the largest write for which readers are safe. */
  lemma LargestWriteExact(n: nat)
    ensures NeverStranded(n) <==> n <= PIPESIZE
  {
    hide Runs, End, Initial;
    if n <= PIPESIZE {
      forall s: PipeState, run: seq<Move> | Initial(s) && Runs(s, run) && WritesWithin(run, n)
        ensures !Stranded(End(s, run))
      {
        StartsShort(s);
        ShortNeverCut(s, run);
        if Stranded(End(s, run)) {
          var p :| 0 <= p < |End(s, run).g.procs| && End(s, run).g.procs[p].state.Asleep? && End(s, run).g.procs[p].chan == RCHAN;
          ReaderSleepsOnEmpty(s, run, p);
        }
      }
    } else {
      var data: seq<Byte> := seq(PIPESIZE, _ => 0);
      var src: seq<Byte> := seq(n, _ => 0);
      var run := KilledWriterStrandsReader(data, src);
      assert Stranded(End(Blank(data), run));
    }
  }

  lemma StartsShort(s: PipeState)
    requires Initial(s)
    ensures ShortWriters(s) && !s.cut
  {
  }
}
