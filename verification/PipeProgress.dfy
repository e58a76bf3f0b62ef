/** No run of the pipe's calls gets stuck: from wherever a run has come to, and
    without anybody being killed, every call can go on until it has returned or
    waits where it must, a read at an empty pipe that can be written or a write
    at a full one that can be read.
 */
module PipeProgress {
  import opened Sleeping
  import opened Pipe

  /** A move in which nobody finds itself killed. */
  predicate Calm(m: Move) {
    !m.EmptyQuit? && !(m.FullQuit? && m.killed) && !(m.Inner? && m.st.Kick?)
  }

  ghost predicate Leads(s: PipeState, t: PipeState) {
    exists run: seq<Move> :: Goes(s, run, t)
  }

  ghost predicate Goes(s: PipeState, run: seq<Move>, t: PipeState) {
    Runs(s, run) && End(s, run) == t && forall i :: 0 <= i < |run| ==> Calm(run[i])
  }

  lemma Stays(s: PipeState)
    ensures Leads(s, s)
  {
    assert Goes(s, [], s);
  }

  lemma LeadsOn(s: PipeState, t: PipeState, u: PipeState)
    requires Leads(s, t) && Leads(t, u)
    ensures Leads(s, u)
  {
    hide Runs, End;
    var a: seq<Move> :| Goes(s, a, t);
    var b: seq<Move> :| Goes(t, b, u);
    RunThen(s, a, b);
    assert Goes(s, a + b, u);
  }

  /** One move more; the data and the other processes' places change only as the
      move says. */
  lemma Moves(s: PipeState, t: PipeState, m: Move) returns (u: PipeState)
    requires Leads(s, t) && PipeInv(t) && CanMove(t, m) && Calm(m)
    ensures Leads(s, u) && PipeInv(u) && u == DoMove(t, m)
    ensures |u.apps| == |u.g.procs| == |t.apps|
  {
    hide PipeInv, CanMove, DoMove;
    u := DoMove(t, m);
    assert [m][1..] == [];
    assert Runs(u, []) && End(u, []) == u;
    assert Runs(t, [m]) && End(t, [m]) == u;
    assert Goes(t, [m], u);
    LeadsOn(s, t, u);
    MoveKeeps(t, m);
    Sizes(t);
    Sizes(u);
    SameSize(t, m);
  }

  lemma SameSize(s: PipeState, m: Move)
    requires CanMove(s, m)
    ensures |DoMove(s, m).apps| == |s.apps|
  {
  }

  /** What the invariant says of one process. */
  lemma Place(s: PipeState, p: nat)
    requires PipeInv(s) && p < |s.apps|
    ensures |s.apps| == |s.g.procs| && |s.ring.data| == PIPESIZE && s.g.conds == Conds(s.ring)
    ensures AppFits(s.apps[p], s.g.procs[p], s.ring, s.cut) && LockOk(s.g, p) && StateOk(s.g.procs[p]) && WakeOk(s.g, p)
  {
  }

  lemma Holders(s: PipeState)
    requires PipeInv(s)
    ensures |s.apps| == |s.g.procs|
    ensures (s.g.lk.By? ==> s.g.lk.p < |s.apps|) && (s.g.pt.By? ==> s.g.pt.p < |s.apps|)
  {
  }

  /** The same data and the same places. */
  predicate Same(s: PipeState, t: PipeState) {
    t.apps == s.apps && t.ring == s.ring && t.cut == s.cut
  }

  // ----- Finishing what is under way -----

  lemma {:induction false} ScanToEnd(s: PipeState, q: nat) returns (t: PipeState)
    requires PipeInv(s) && q < |s.apps| == |s.g.procs| && |s.ring.data| == PIPESIZE && s.g.procs[q].pc.Scan?
    ensures Leads(s, t) && PipeInv(t) && Same(s, t) && |t.g.procs| == |s.g.procs|
    ensures t.g.pt.Nobody? && t.g.procs[q].pc == if s.g.procs[q].pc.locked then Held else Out
    decreases |s.g.procs| - s.g.procs[q].pc.k
  {
    hide PipeInv, Leads;
    Stays(s);
    var k := s.g.procs[q].pc.k;
    if k < |s.g.procs| {
      var u := Moves(s, s, Inner(ScanOne(q)));
      assert u.apps == s.apps;
      assert u.g.procs[q].pc == Scan(s.g.procs[q].pc.c, k + 1, s.g.procs[q].pc.locked);
      t := ScanToEnd(u, q);
      LeadsOn(s, u, t);
    } else {
      t := Moves(s, s, Inner(EndScan(q)));
      assert t.apps == s.apps;
    }
  }

  lemma FreeTable(s: PipeState) returns (t: PipeState)
    requires PipeInv(s)
    ensures Leads(s, t) && PipeInv(t) && Same(s, t) && t.g.pt.Nobody?
  {
    hide PipeInv, Leads, AppFits, Conds, WakeOk;
    Stays(s);
    t := s;
    if s.g.pt.By? {
      var q := s.g.pt.p;
      Holders(s);
      Place(s, q);
      if s.g.procs[q].pc.Scan? {
        t := ScanToEnd(s, q);
      } else if s.g.procs[q].pc.Back? {
        t := Moves(s, s, Inner(Resume(q)));
      } else {
        if s.g.procs[q].pc.Handing? {
          t := Moves(s, s, Inner(DropLk(q)));
        }
        t := Moves(s, t, Inner(Park(q)));
      }
      assert t.apps == s.apps;
    }
  }

  /** q has the spinlock, and ptable.lock is free. */
  ghost predicate Alone(s: PipeState, q: nat) {
    PipeInv(s) && q < |s.apps| == |s.g.procs| && |s.ring.data| == PIPESIZE && s.g.pt.Nobody? && s.g.lk == By(q)
  }

  ghost predicate Quiet(s: PipeState) {
    PipeInv(s) && s.g.pt.Nobody? && s.g.lk.Nobody?
  }

  lemma FallAsleep(s: PipeState, q: nat) returns (t: PipeState)
    requires Alone(s, q) && s.g.procs[q].pc.ToSleep?
    ensures Leads(s, t) && Quiet(t) && Same(s, t)
  {
    hide PipeInv, Leads;
    Stays(s);
    t := Moves(s, s, Inner(TakePt(q)));
    t := Moves(s, t, Inner(DropLk(q)));
    t := Moves(s, t, Inner(Park(q)));
    assert t.apps == s.apps;
  }

  /** A wakeup made with the lock held comes back. */
  lemma WokenAll(s: PipeState, q: nat) returns (t: PipeState)
    requires Alone(s, q) && (s.g.procs[q].pc.Held? || s.g.procs[q].pc.WakeWait?)
    ensures Leads(s, t) && Alone(t, q) && Same(s, t) && t.g.procs[q].pc.Held?
  {
    hide PipeInv, Leads, AppFits, Conds, WakeOk;
    Stays(s);
    Place(s, q);
    t := s;
    if s.g.procs[q].pc.WakeWait? {
      var u := Moves(s, s, Inner(StartScan(q)));
      assert u.apps == s.apps;
      t := ScanToEnd(u, q);
      LeadsOn(s, u, t);
      Place(t, q);
    }
  }

  /** q has returned from its call, or waits where it must. */
  predicate Settled(s: PipeState, q: nat)
    requires q < |s.apps|
  {
    || s.apps[q].Idle? || s.apps[q].Left?
    || (s.apps[q].Reading? && Empty(s.ring) && s.ring.writeopen)
    || (s.apps[q].Writing? && Full(s.ring) && s.ring.readopen)
  }

  /** Only q has moved to another place in its call. */
  predicate OnlyOf(s: PipeState, t: PipeState, q: nat) {
    q < |s.apps| == |t.apps| && t.apps == s.apps[q := t.apps[q]]
  }

  /** What a process about to sleep has seen. */
  lemma SawNothing(s: PipeState, q: nat)
    requires Alone(s, q) && s.g.procs[q].pc.ToSleep?
    ensures s.apps[q].Reading? || s.apps[q].Writing?
    ensures s.apps[q].Reading? ==> Empty(s.ring) && s.ring.writeopen
    ensures s.apps[q].Writing? ==> Full(s.ring) && s.ring.readopen
  {
    hide PipeInv;
    Place(s, q);
  }

  lemma Sleeps(s: PipeState, q: nat) returns (t: PipeState)
    requires Alone(s, q) && s.g.procs[q].pc.ToSleep?
    ensures Leads(s, t) && Quiet(t) && OnlyOf(s, t, q) && Settled(t, q)
  {
    hide PipeInv, Leads, Empty, Full;
    SawNothing(s, q);
    t := FallAsleep(s, q);
  }

  // ----- A writer with the lock -----

  lemma WriteEnds(s: PipeState, q: nat) returns (t: PipeState)
    requires Alone(s, q) && (s.apps[q].WriteDone? || s.apps[q].WriteFull?)
    ensures Leads(s, t) && Quiet(t) && OnlyOf(s, t, q) && Settled(t, q)
  {
    hide PipeInv, Leads;
    Place(s, q);
    var u := WokenAll(s, q);
    if s.apps[q].WriteDone? {
      t := Moves(s, u, DoneRelease(q));
    } else {
      u := Moves(s, u, FullSleep(q));
      Place(u, q);
      t := Sleeps(u, q);
      LeadsOn(s, u, t);
    }
  }

  lemma {:induction false} WriterOut(s: PipeState, q: nat) returns (t: PipeState)
    requires Alone(s, q) && s.apps[q].Writing? && s.g.procs[q].pc.Held?
    ensures Leads(s, t) && Quiet(t) && OnlyOf(s, t, q) && Settled(t, q)
    decreases |s.apps[q].src| - |s.apps[q].at|
  {
    hide PipeInv, Leads, CanMove, DoMove, Settled, Quiet;
    var u := WriteTurn(s, q);
    if u.g.lk.By? {
      if u.apps[q].Writing? {
        t := WriterOut(u, q);
      } else {
        t := WriteEnds(u, q);
      }
      LeadsOn(s, u, t);
    } else {
      t := u;
    }
  }

  ghost predicate WroteOne(s: PipeState, t: PipeState, q: nat)
    requires q < |s.apps| == |t.apps| && s.apps[q].Writing?
  {
    && q < |t.g.procs| && t.apps[q].Writing? && t.g.procs[q].pc.Held? && t.apps[q].src == s.apps[q].src
    && |s.apps[q].at| < |t.apps[q].at| <= |t.apps[q].src|
  }

  /** The next byte, or the way out of the loop. */
  lemma WriteTurn(s: PipeState, q: nat) returns (t: PipeState)
    requires Alone(s, q) && s.apps[q].Writing? && s.g.procs[q].pc.Held?
    ensures Leads(s, t) && OnlyOf(s, t, q)
    ensures if t.g.lk.Nobody? then Quiet(t) && Settled(t, q) else Alone(t, q)
    ensures t.g.lk.By? ==> t.apps[q].WriteDone? || t.apps[q].WriteFull? || WroteOne(s, t, q)
  {
    hide PipeInv, Leads, WakeOk;
    Stays(s);
    Place(s, q);
    var app := s.apps[q];
    if |app.at| >= |app.src| {
      t := Moves(s, s, DoneWake(q));
    } else if !Full(s.ring) {
      t := Moves(s, s, PutByte(q));
    } else if s.ring.readopen {
      t := Moves(s, s, FullWake(q));
    } else {
      t := Moves(s, s, FullQuit(q, false));
    }
    Place(t, q);
  }

  // ----- A reader with the lock -----

  lemma ReadEnds(s: PipeState, q: nat) returns (t: PipeState)
    requires Alone(s, q) && s.apps[q].ReadDone?
    ensures Leads(s, t) && Quiet(t) && OnlyOf(s, t, q) && Settled(t, q)
  {
    hide PipeInv, Leads;
    Place(s, q);
    var u := WokenAll(s, q);
    t := Moves(s, u, ReadRelease(q));
  }

  lemma {:induction false} CopierOut(s: PipeState, q: nat) returns (t: PipeState)
    requires Alone(s, q) && s.apps[q].Copying?
    ensures Leads(s, t) && Quiet(t) && OnlyOf(s, t, q) && Settled(t, q)
    decreases s.apps[q].n - |s.apps[q].got|
  {
    hide PipeInv, Leads, CanMove, DoMove, Settled, Quiet;
    var u := CopyTurn(s, q);
    if u.apps[q].Copying? {
      t := CopierOut(u, q);
    } else {
      t := ReadEnds(u, q);
    }
    LeadsOn(s, u, t);
  }

  lemma CopyTurn(s: PipeState, q: nat) returns (t: PipeState)
    requires Alone(s, q) && s.apps[q].Copying?
    ensures Leads(s, t) && OnlyOf(s, t, q) && Alone(t, q)
    ensures t.apps[q].ReadDone? || (t.apps[q].Copying? && t.apps[q].n == s.apps[q].n && |s.apps[q].got| < |t.apps[q].got| <= t.apps[q].n)
  {
    hide PipeInv, Leads, WakeOk;
    Stays(s);
    Place(s, q);
    if |s.apps[q].got| >= s.apps[q].n || Empty(s.ring) {
      t := Moves(s, s, CopyWake(q));
    } else {
      t := Moves(s, s, GetByte(q));
    }
    Place(t, q);
  }

  lemma ReaderOut(s: PipeState, q: nat) returns (t: PipeState)
    requires Alone(s, q) && s.apps[q].Reading? && s.g.procs[q].pc.Held?
    ensures Leads(s, t) && Quiet(t) && OnlyOf(s, t, q) && Settled(t, q)
  {
    hide PipeInv, Leads, Settled, Quiet, WakeOk;
    Stays(s);
    Place(s, q);
    if Empty(s.ring) && s.ring.writeopen {
      var u := Moves(s, s, EmptySleep(q));
      Place(u, q);
      t := Sleeps(u, q);
      LeadsOn(s, u, t);
    } else {
      var u := Moves(s, s, BeginCopy(q));
      Place(u, q);
      t := CopierOut(u, q);
      LeadsOn(s, u, t);
    }
  }

  // ----- A closer with the lock -----

  lemma CloserOut(s: PipeState, q: nat) returns (t: PipeState)
    requires Alone(s, q) && (s.apps[q].Closing? || s.apps[q].Closed? || s.apps[q].CloseWake?)
    ensures Leads(s, t) && Quiet(t) && OnlyOf(s, t, q) && Settled(t, q)
  {
    hide PipeInv, Leads, CanMove, DoMove, Quiet, AppFits, WakeOk;
    Stays(s);
    var u := s;
    if s.apps[q].Closing? {
      u := Shuts(s, q);
    }
    if u.apps[q].Closed? {
      var v := CallsWakeup(u, q);
      LeadsOn(s, u, v);
      u := v;
    }
    t := CloseEnds(u, q);
    LeadsOn(s, u, t);
  }

  lemma Shuts(s: PipeState, q: nat) returns (t: PipeState)
    requires Alone(s, q) && s.apps[q].Closing?
    ensures Leads(s, t) && Alone(t, q) && OnlyOf(s, t, q) && t.apps[q].Closed?
  {
    hide PipeInv, Leads, WakeOk;
    Stays(s);
    Place(s, q);
    t := Moves(s, s, CloseSet(q));
  }

  lemma CallsWakeup(s: PipeState, q: nat) returns (t: PipeState)
    requires Alone(s, q) && s.apps[q].Closed?
    ensures Leads(s, t) && Alone(t, q) && OnlyOf(s, t, q) && t.apps[q].CloseWake?
  {
    hide PipeInv, Leads, WakeOk;
    Stays(s);
    Place(s, q);
    t := Moves(s, s, CloseWakeup(q));
  }

  lemma CloseEnds(s: PipeState, q: nat) returns (t: PipeState)
    requires Alone(s, q) && s.apps[q].CloseWake?
    ensures Leads(s, t) && Quiet(t) && OnlyOf(s, t, q) && Settled(t, q)
  {
    hide PipeInv, Leads, WakeOk;
    Place(s, q);
    var u := WokenAll(s, q);
    t := Moves(s, u, CloseRelease(q));
  }

  // ----- All together -----

  /** Whoever has the spinlock goes on until it gives it back. */
  lemma FreeSpin(s: PipeState) returns (t: PipeState)
    requires PipeInv(s) && s.g.pt.Nobody?
    ensures Leads(s, t) && Quiet(t) && |t.apps| == |s.apps|
    ensures forall r :: 0 <= r < |s.apps| ==> t.apps[r] == s.apps[r] || Settled(t, r)
  {
    hide PipeInv, Leads, CanMove, DoMove, Settled, WakeOk;
    Stays(s);
    t := s;
    if s.g.lk.By? {
      var q := s.g.lk.p;
      Holders(s);
      t := HolderOut(s, q);
    }
  }

  lemma HolderOut(s: PipeState, q: nat) returns (t: PipeState)
    requires PipeInv(s) && s.g.pt.Nobody? && s.g.lk == By(q) && q < |s.apps|
    ensures Leads(s, t) && Quiet(t) && OnlyOf(s, t, q) && Settled(t, q)
  {
    hide PipeInv, Leads, CanMove, DoMove, Settled, WakeOk, Quiet;
    Place(s, q);
    match s.apps[q]
    case Writing(_, _) =>
      if s.g.procs[q].pc.ToSleep? { t := Sleeps(s, q); } else { t := WriterOut(s, q); }
    case WriteFull(_, _) => t := WriteEnds(s, q);
    case WriteDone(_, _) => t := WriteEnds(s, q);
    case Reading(_) =>
      if s.g.procs[q].pc.ToSleep? { t := Sleeps(s, q); } else { t := ReaderOut(s, q); }
    case Copying(_, _, _) => t := CopierOut(s, q);
    case ReadDone(_, _, _) => t := ReadEnds(s, q);
    case Closing(_) => t := CloserOut(s, q);
    case Closed(_) => t := CloserOut(s, q);
    case CloseWake(_) => t := CloserOut(s, q);
  }

  /** With the locks free, whoever is asleep in a call waits where it must. */
  lemma AsleepSettled(s: PipeState, p: nat)
    requires Quiet(s) && p < |s.apps| == |s.g.procs| && s.g.procs[p].state.Asleep?
    ensures Settled(s, p) || s.cut
  {
    hide PipeInv, Pending, Empty, Full;
    Sizes(s);
    SleeperIs(s, p);
    var c := s.g.procs[p].chan;
    if c in s.g.conds {
      var q: nat :| Pending(s.g, q, c, p);
      WhoOwes(s, q, c, p);
    }
  }

  /** A process inside a call, with the locks free and not asleep, goes on. */
  lemma GoesOn(s: PipeState, p: nat) returns (t: PipeState)
    requires Quiet(s) && p < |s.apps| == |s.g.procs| && !s.g.procs[p].state.Asleep? && (s.apps[p].Reading? || s.apps[p].Writing?)
    ensures Leads(s, t) && Quiet(t) && OnlyOf(s, t, p) && Settled(t, p)
  {
    hide PipeInv, Leads, CanMove, DoMove, Settled, Quiet, WakeOk;
    var u := ComesIn(s, p);
    if s.apps[p].Reading? {
      t := ReaderOut(u, p);
    } else {
      t := WriterOut(u, p);
    }
    LeadsOn(s, u, t);
  }

  lemma ComesIn(s: PipeState, p: nat) returns (t: PipeState)
    requires Quiet(s) && p < |s.apps| == |s.g.procs| && !s.g.procs[p].state.Asleep? && (s.apps[p].Reading? || s.apps[p].Writing?)
    ensures Leads(s, t) && Alone(t, p) && t.apps == s.apps && t.g.procs[p].pc.Held?
  {
    hide PipeInv, Leads, WakeOk, Conds;
    Stays(s);
    Place(s, p);
    t := s;
    if s.g.procs[p].pc.Parked? {
      t := Moves(s, s, Inner(Run(p)));
      t := Moves(s, t, Inner(Resume(p)));
      assert t.apps == s.apps;
    }
    t := Moves(s, t, Inner(Acquire(p)));
    assert t.apps == s.apps;
    Place(t, p);
  }

  /** Wherever a run has come to, it can be continued, with nobody killed, so that
      both locks are free and p has returned from its call or waits where it must:
      a read at an empty pipe open for writing, a write at a full pipe open for
      reading.  Only a write of more than 512 bytes killed on a full pipe can
      keep it from that. */
  lemma NoCallIsStuck(s: PipeState, run: seq<Move>, p: nat)
    requires Initial(s) && Runs(s, run) && p < |End(s, run).apps|
    ensures exists more: seq<Move> :: Calms(End(s, run), more, p)
  {
    hide PipeInv, CanMove, DoMove, Initial, Settled, Runs, AppFits, WakeOk;
    var e := End(s, run);
    Reached(s, run);
    var a := FreeTable(e);
    var b := FreeSpin(a);
    LeadsOn(e, a, b);
    var t := b;
    Place(b, p);
    if !Settled(b, p) && !b.g.procs[p].state.Asleep? {
      InsideFree(b, p);
      t := GoesOn(b, p);
      LeadsOn(e, b, t);
    } else if b.g.procs[p].state.Asleep? {
      AsleepSettled(b, p);
    }
    var more: seq<Move> :| Goes(e, more, t);
    assert Calms(e, more, p);
  }

  lemma InsideFree(s: PipeState, p: nat)
    requires Quiet(s) && p < |s.apps|
    ensures s.apps[p].Idle? || s.apps[p].Left? || s.apps[p].Reading? || s.apps[p].Writing?
    ensures |s.apps| == |s.g.procs| && (s.apps[p].Idle? || s.apps[p].Left? ==> Settled(s, p))
  {
    hide PipeInv;
    Place(s, p);
  }

  /** `more` goes on from e without a kill to where p is settled. */
  ghost predicate Calms(e: PipeState, more: seq<Move>, p: nat) {
    && Runs(e, more) && (forall i :: 0 <= i < |more| ==> Calm(more[i]))
    && var t := End(e, more);
       p < |t.apps| && t.g.lk.Nobody? && t.g.pt.Nobody? && (Settled(t, p) || t.cut)
  }
}
