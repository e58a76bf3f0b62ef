/** No run of acquiresleep and releasesleep gets stuck: from wherever a run has
    come to, every process waiting for the sleep-lock can still get it.
 */
module SleepProgress {
  import opened Sleeping
  import opened SleepLock

  ghost predicate Leads(s: LockState, t: LockState) {
    exists run: seq<Move> :: Runs(s, run) && End(s, run) == t
  }

  lemma Stays(s: LockState)
    ensures Leads(s, s)
  {
    assert Runs(s, []) && End(s, []) == s;
  }

  lemma {:induction false} RunThen(s: LockState, a: seq<Move>, b: seq<Move>)
    requires Runs(s, a) && Runs(End(s, a), b)
    ensures Runs(s, a + b) && End(s, a + b) == End(End(s, a), b)
    decreases |a|
  {
    hide CanMove, DoMove;
    if a == [] {
      assert a + b == b;
    } else {
      assert (a + b)[1..] == a[1..] + b;
      RunThen(DoMove(s, a[0]), a[1..], b);
    }
  }

  lemma LeadsOn(s: LockState, t: LockState, u: LockState)
    requires Leads(s, t) && Leads(t, u)
    ensures Leads(s, u)
  {
    hide Runs, End;
    var a: seq<Move> :| Runs(s, a) && End(s, a) == t;
    var b: seq<Move> :| Runs(t, b) && End(t, b) == u;
    RunThen(s, a, b);
  }

  /** One move more; what it keeps is in LockInv. */
  lemma Moves(s: LockState, t: LockState, m: Move) returns (u: LockState)
    requires Leads(s, t) && LockInv(t) && CanMove(t, m)
    ensures Leads(s, u) && LockInv(u) && u == DoMove(t, m) && |u.apps| == |t.apps|
  {
    hide LockInv, CanMove, DoMove;
    u := DoMove(t, m);
    assert [m][1..] == [];
    assert Runs(u, []) && End(u, []) == u;
    assert Runs(t, [m]) && End(t, [m]) == u;
    LeadsOn(s, t, u);
    MoveKeeps(t, m);
    Sizes(t);
    Sizes(u);
    SameSize(t, m);
  }

  lemma SameSize(s: LockState, m: Move)
    requires CanMove(s, m)
    ensures |DoMove(s, m).apps| == |s.apps|
  {
  }

  lemma Sizes(s: LockState)
    requires LockInv(s)
    ensures |s.apps| == |s.g.procs|
  {
  }

  /** What the invariant says of one process. */
  lemma Place(s: LockState, p: nat)
    requires LockInv(s) && p < |s.apps|
    ensures |s.apps| == |s.g.procs| && AppFits(s.apps[p], s.g.procs[p]) && LockOk(s.g, p) && StateOk(s.g.procs[p])
  {
  }

  /** The locks are free, or their holders are processes. */
  lemma Holders(s: LockState)
    requires LockInv(s)
    ensures (s.g.lk.By? ==> s.g.lk.p < |s.apps|) && (s.g.pt.By? ==> s.g.pt.p < |s.apps|)
  {
  }

  // ----- Finishing what is under way -----

  /** A scan runs to the end of the process table. */
  lemma {:induction false} ScanToEnd(s: LockState, q: nat) returns (t: LockState)
    requires LockInv(s) && q < |s.apps| == |s.g.procs| && s.g.procs[q].pc.Scan?
    ensures Leads(s, t) && LockInv(t) && t.apps == s.apps && t.locked == s.locked
    ensures t.g.pt.Nobody? && t.g.procs[q].pc == if s.g.procs[q].pc.locked then Held else Out
    decreases |s.g.procs| - s.g.procs[q].pc.k
  {
    hide LockInv, Leads;
    Stays(s);
    var k := s.g.procs[q].pc.k;
    if k < |s.g.procs| {
      var u := Moves(s, s, Inner(ScanOne(q)));
      Sizes(u);
      assert u.apps == s.apps;
      assert u.g.procs[q].pc == Scan(s.g.procs[q].pc.c, k + 1, s.g.procs[q].pc.locked);
      t := ScanToEnd(u, q);
      LeadsOn(s, u, t);
    } else {
      t := Moves(s, s, Inner(EndScan(q)));
      assert t.apps == s.apps;
    }
  }

  /** Whoever has ptable.lock gives it back. */
  lemma FreeTable(s: LockState) returns (t: LockState)
    requires LockInv(s)
    ensures Leads(s, t) && LockInv(t) && t.apps == s.apps && t.locked == s.locked && t.g.pt.Nobody?
  {
    hide LockInv, Leads;
    Stays(s);
    t := s;
    if s.g.pt.By? {
      var q := s.g.pt.p;
      Holders(s);
      Place(s, q);
      if s.g.procs[q].pc.Scan? {
        t := ScanToEnd(s, q);
      } else if s.g.procs[q].pc.Back? {
        t := Moves(s, s, Inner(Resume(q)));
      } else {
        if s.g.procs[q].pc.Handing? {
          t := Moves(s, s, Inner(DropLk(q)));
        }
        t := Moves(s, t, Inner(Park(q)));
      }
      assert t.apps == s.apps;
    }
  }

  /** From sleep to having given up the processor. */
  lemma FallAsleep(s: LockState, q: nat) returns (t: LockState)
    requires LockInv(s) && q < |s.apps| == |s.g.procs| && s.g.procs[q].pc.ToSleep? && s.g.pt.Nobody?
    ensures Leads(s, t) && LockInv(t) && t.apps == s.apps && t.g.pt.Nobody? && t.g.lk.Nobody?
  {
    hide LockInv, Leads;
    Stays(s);
    t := Moves(s, s, Inner(TakePt(q)));
    t := Moves(s, t, Inner(DropLk(q)));
    t := Moves(s, t, Inner(Park(q)));
    assert t.apps == s.apps;
  }

  /** From the call of wakeup in releasesleep to its end. */
  lemma WakeAndFinish(s: LockState, q: nat) returns (t: LockState)
    requires LockInv(s) && q < |s.apps| == |s.g.procs| && s.g.pt.Nobody? && s.g.lk == By(q)
    requires s.apps[q].Given? || s.apps[q].Waking?
    ensures Leads(s, t) && LockInv(t) && t.g.pt.Nobody? && t.g.lk.Nobody? && t.locked == s.locked && t.apps == s.apps[q := Idle]
  {
    hide LockInv, Leads, CanMove, DoMove;
    Stays(s);
    Place(s, q);
    t := s;
    if s.apps[q].Given? {
      t := CallsWakeup(s, q);
    }
    if t.g.procs[q].pc.WakeWait? {
      t := Scans(s, t, q);
    }
    t := Finishes(s, t, q);
    assert t.apps == s.apps[q := Idle];
  }

  lemma CallsWakeup(s: LockState, q: nat) returns (t: LockState)
    requires LockInv(s) && q < |s.apps| == |s.g.procs| && s.g.pt.Nobody? && s.g.lk == By(q) && s.apps[q].Given?
    ensures Leads(s, t) && LockInv(t) && t.apps == s.apps[q := Waking] && t.locked == s.locked && t.g.pt.Nobody? && t.g.lk == By(q)
    ensures |t.g.procs| == |s.g.procs| && t.g.procs[q].pc.WakeWait? && t.g.procs[q].pc.locked
  {
    hide LockInv, Leads;
    Stays(s);
    Place(s, q);
    t := Moves(s, s, CallWakeup(q));
  }

  lemma Scans(s: LockState, t: LockState, q: nat) returns (u: LockState)
    requires Leads(s, t) && LockInv(t) && q < |t.apps| == |t.g.procs| && t.g.pt.Nobody? && t.apps[q].Waking?
    requires t.g.procs[q].pc.WakeWait? && t.g.procs[q].pc.locked
    ensures Leads(s, u) && LockInv(u) && u.apps == t.apps && u.locked == t.locked && u.g.pt.Nobody?
    ensures |u.g.procs| == |t.g.procs| && u.g.procs[q].pc.Held?
  {
    hide LockInv, Leads;
    u := Moves(s, t, Inner(StartScan(q)));
    assert u.apps == t.apps;
    var v := ScanToEnd(u, q);
    LeadsOn(s, u, v);
    Sizes(v);
    u := v;
  }

  lemma Finishes(s: LockState, t: LockState, q: nat) returns (u: LockState)
    requires Leads(s, t) && LockInv(t) && q < |t.apps| == |t.g.procs| && t.g.pt.Nobody? && t.apps[q].Waking? && t.g.procs[q].pc.Held?
    ensures Leads(s, u) && LockInv(u) && u.apps == t.apps[q := Idle] && u.locked == t.locked && u.g.pt.Nobody? && u.g.lk.Nobody?
  {
    hide LockInv, Leads;
    u := Moves(s, t, Finish(q));
  }

  /** Clear, wakeup and the end of releasesleep. */
  lemma GivesUp(s: LockState, q: nat) returns (t: LockState)
    requires LockInv(s) && q < |s.apps| == |s.g.procs| && s.g.pt.Nobody? && s.g.lk == By(q) && s.apps[q].Giving?
    ensures Leads(s, t) && LockInv(t) && t.g.pt.Nobody? && t.g.lk.Nobody? && !t.locked && t.apps == s.apps[q := Idle]
  {
    hide LockInv, Leads;
    Stays(s);
    Place(s, q);
    var u := Moves(s, s, Clear(q));
    t := WakeAndFinish(u, q);
    LeadsOn(s, u, t);
  }

  lemma TakesFlag(s: LockState, q: nat) returns (t: LockState)
    requires LockInv(s) && q < |s.apps| == |s.g.procs| && s.g.pt.Nobody? && s.g.lk == By(q) && s.g.procs[q].pc.Held?
    requires s.apps[q].Got? || (s.apps[q].Getting? && !s.locked)
    ensures Leads(s, t) && LockInv(t) && t.g.pt.Nobody? && t.g.lk.Nobody? && t.apps == s.apps[q := Owner]
  {
    hide LockInv, Leads;
    Stays(s);
    t := s;
    if s.apps[q].Getting? {
      t := Moves(s, s, Grab(q));
    }
    t := Moves(s, t, Leave(q));
  }

  /** Whoever has the spinlock gives it back; one that was waiting still is, or
      has the sleep-lock. */
  lemma FreeSpin(s: LockState, p: nat) returns (t: LockState)
    requires LockInv(s) && s.g.pt.Nobody? && p < |s.apps| && s.apps[p].Getting?
    ensures Leads(s, t) && LockInv(t) && t.g.pt.Nobody? && t.g.lk.Nobody? && |t.apps| == |s.apps|
    ensures t.apps[p].Getting? || t.apps[p].Owner?
  {
    hide LockInv, Leads, CanMove, DoMove;
    Stays(s);
    t := s;
    if s.g.lk.By? {
      var q := s.g.lk.p;
      Holders(s);
      Place(s, q);
      match s.apps[q]
      case Getting =>
        if s.g.procs[q].pc.ToSleep? {
          t := FallAsleep(s, q);
        } else if s.locked {
          var u := StartsSleep(s, q);
          t := FallAsleep(u, q);
          LeadsOn(s, u, t);
        } else {
          t := TakesFlag(s, q);
        }
      case Got => t := TakesFlag(s, q);
      case Giving => t := GivesUp(s, q);
      case Given => t := WakeAndFinish(s, q);
      case Waking => t := WakeAndFinish(s, q);
    }
  }

  lemma StartsSleep(s: LockState, q: nat) returns (t: LockState)
    requires LockInv(s) && q < |s.apps| == |s.g.procs| && s.g.pt.Nobody? && s.g.procs[q].pc.Held? && s.apps[q].Getting? && s.locked
    ensures Leads(s, t) && LockInv(t) && t.apps == s.apps && t.g.pt.Nobody? && |t.g.procs| == |s.g.procs| && t.g.procs[q].pc.ToSleep?
  {
    hide LockInv, Leads;
    Stays(s);
    t := Moves(s, s, TrySleep(q));
    assert t.apps == s.apps;
  }

  // ----- Passing the lock on -----

  lemma Holder(s: LockState) returns (h: nat)
    requires LockInv(s) && s.locked
    ensures h < |s.apps| && Holds(s.apps[h])
  {
    h :| 0 <= h < |s.apps| && Holds(s.apps[h]);
  }

  /** The owner, if there is one, releases the sleep-lock. */
  lemma Vacate(s: LockState, p: nat) returns (t: LockState)
    requires LockInv(s) && s.g.pt.Nobody? && s.g.lk.Nobody? && p < |s.apps| && s.apps[p].Getting?
    ensures Leads(s, t) && LockInv(t) && t.g.pt.Nobody? && t.g.lk.Nobody? && !t.locked && |t.apps| == |s.apps| && t.apps[p].Getting?
  {
    hide LockInv, Leads;
    Stays(s);
    t := s;
    if s.locked {
      var h := Holder(s);
      Place(s, h);
      var u := Moves(s, s, CallRelease(h));
      t := GivesUp(u, h);
      LeadsOn(s, u, t);
    }
  }

  /** With the sleep-lock and the spinlock free nobody sleeps. */
  lemma NobodyAsleep(s: LockState, p: nat)
    requires LockInv(s) && !s.locked && s.g.lk.Nobody? && p < |s.apps| && s.apps[p].Getting?
    ensures !s.g.procs[p].state.Asleep?
  {
    var e := s.g;
    assert StateOk(e.procs[p]) && WakeOk(e, p) && AppFits(s.apps[p], e.procs[p]);
    forall q: nat ensures !Pending(e, q, CHAN, p) {
      NonePending(s, q, CHAN, p);
    }
    assert Committed(e.procs[p], CHAN) ==> CHAN !in e.conds;
  }

  /** A process that waits, with everything free, takes the lock. */
  lemma Takes(s: LockState, p: nat) returns (t: LockState)
    requires LockInv(s) && s.g.pt.Nobody? && s.g.lk.Nobody? && !s.locked && p < |s.apps| && s.apps[p].Getting?
    ensures Leads(s, t) && LockInv(t) && |t.apps| == |s.apps| && t.apps[p].Owner?
  {
    hide LockInv, Leads;
    Stays(s);
    Place(s, p);
    NobodyAsleep(s, p);
    t := s;
    if s.g.procs[p].pc.Parked? {
      t := Moves(s, s, Inner(Run(p)));
      t := Moves(s, t, Inner(Resume(p)));
    }
    t := Moves(s, t, Inner(Acquire(p)));
    var u := TakesFlag(t, p);
    LeadsOn(s, t, u);
    t := u;
  }

  /** Wherever a run has come to, a process waiting in acquiresleep can still get
      the sleep-lock: some continuation of the run ends with it as the owner. */
  lemma AlwaysObtainable(s: LockState, run: seq<Move>, p: nat)
    requires Initial(s) && Runs(s, run) && p < |End(s, run).apps| && End(s, run).apps[p].Getting?
    ensures exists more: seq<Move> ::
              && Runs(End(s, run), more)
              && p < |End(End(s, run), more).apps| && End(End(s, run), more).apps[p].Owner?
  {
    hide LockInv, CanMove, DoMove, Initial;
    var e := End(s, run);
    assert LockInv(e) by { InitialInv(s); RunKeepsLock(s, run); }
    var a := FreeTable(e);
    var b := FreeSpin(a, p);
    LeadsOn(e, a, b);
    var t := b;
    if b.apps[p].Getting? {
      var c := Vacate(b, p);
      t := Takes(c, p);
      LeadsOn(e, b, c);
      LeadsOn(e, c, t);
    }
    var more: seq<Move> :| Runs(e, more) && End(e, more) == t;
  }

  lemma InitialInv(s: LockState)
    requires Initial(s)
    ensures LockInv(s)
  {
    StartInv(s.g);
  }
}
