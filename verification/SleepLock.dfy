/** acquiresleep and releasesleep of sleeplock.c as programs on the sleep and
    wakeup machine: the shared data is the flag `locked`, and there is one channel.
 */
module SleepLock {
  import opened Sleeping

  const CHAN := 1

  /** The channel's condition is that the lock is free. */
  function Conds(locked: bool): set<nat> {
    if locked then {} else {CHAN}
  }

  /** Where a process is in the two functions. */
  datatype App =
    | Idle
    | Getting       // acquiresleep, at its loop
    | Got           // locked set, about to release the spinlock
    | Owner         // acquiresleep has returned
    | Giving        // releasesleep, about to clear locked
    | Given         // cleared, about to call wakeup
    | Waking        // in wakeup, then about to release the spinlock

  datatype LockState = LockState(g: State, locked: bool, apps: seq<App>)

  datatype Move =
    | CallAcquire(p: nat) | TrySleep(p: nat) | Grab(p: nat) | Leave(p: nat)
    | CallRelease(p: nat) | Clear(p: nat) | CallWakeup(p: nat) | Finish(p: nat)
    | Inner(st: Step)        // a step inside sleep, wakeup or the scheduler

  predicate InnerStep(app: App, st: Step) {
    || (st.Acquire? && app.Getting?)               // sleep reacquires the spinlock
    || st.TakePt? || st.DropLk? || st.Park? || st.Run? || st.Resume?
    || st.StartScan? || st.ScanOne? || st.EndScan? || st.Kick?
  }

  function StepOf(m: Move): Step {
    match m
    case CallAcquire(p) => Acquire(p)
    case TrySleep(p) => Sleep(p, CHAN)
    case Grab(p) => Update(p, Conds(true))
    case Leave(p) => Release(p)
    case CallRelease(p) => Acquire(p)
    case Clear(p) => Update(p, Conds(false))
    case CallWakeup(p) => Wake(p, CHAN)
    case Finish(p) => Release(p)
    case Inner(st) => st
  }

  /** The code's own tests. */
  predicate CanMove(s: LockState, m: Move) {
    && Able(s.g, StepOf(m)) && StepOf(m).p < |s.apps|
    && var app := s.apps[StepOf(m).p];
       match m
       case CallAcquire(_) => app.Idle?
       case TrySleep(_) => app.Getting? && s.locked
       case Grab(_) => app.Getting? && !s.locked
       case Leave(_) => app.Got?
       case CallRelease(_) => app.Owner?
       case Clear(_) => app.Giving?
       case CallWakeup(_) => app.Given?
       case Finish(_) => app.Waking?
       case Inner(st) => InnerStep(app, st)
  }

  function NextApp(app: App, m: Move): App {
    match m
    case CallAcquire(_) => Getting
    case TrySleep(_) => Getting
    case Grab(_) => Got
    case Leave(_) => Owner
    case CallRelease(_) => Giving
    case Clear(_) => Given
    case CallWakeup(_) => Waking
    case Finish(_) => Idle
    case Inner(_) => app
  }

  function DoMove(s: LockState, m: Move): (s': LockState)
    requires CanMove(s, m)
  {
    var p := StepOf(m).p;
    LockState(Next(s.g, StepOf(m)), if m.Grab? then true else if m.Clear? then false else s.locked, s.apps[p := NextApp(s.apps[p], m)])
  }

  predicate Holds(app: App) {
    app.Got? || app.Owner? || app.Giving?
  }

  predicate AppFits(app: App, q: Proc) {
    match app
    case Idle => q.pc.Out? && q.owes == {}
    case Owner => q.pc.Out? && q.owes == {}
    case Getting => !q.pc.WakeWait? && !q.pc.Scan? && q.owes == {}
                    && (q.pc.ToSleep? || q.pc.Handing? || q.pc.Parking? || q.pc.Parked? ==> q.pc.c == CHAN)
    case Got => q.pc.Held? && q.owes == {}
    case Giving => q.pc.Held? && q.owes == {}
    case Given => q.pc.Held? && q.owes <= {CHAN}
    case Waking => HasLk(q.pc) && !q.pc.ToSleep? && !q.pc.Handing?
                   && (q.pc.Held? || q.pc.Scan? ==> q.owes == {}) && (q.pc.WakeWait? ==> q.pc.c == CHAN && q.owes <= {CHAN})
  }

  ghost predicate LockInv(s: LockState) {
    && |s.apps| == |s.g.procs| && Inv(s.g) && s.g.conds == Conds(s.locked)
    && (forall p :: 0 <= p < |s.apps| ==> AppFits(s.apps[p], s.g.procs[p]))
    && (forall p, q :: 0 <= p < |s.apps| && 0 <= q < |s.apps| && Holds(s.apps[p]) && Holds(s.apps[q]) ==> p == q)
    && (s.locked <==> exists p :: 0 <= p < |s.apps| && Holds(s.apps[p]))
  }

  lemma AppKeeps(s: LockState, m: Move, p: nat)
    requires CanMove(s, m) && |s.apps| == |s.g.procs| && p < |s.apps| && AppFits(s.apps[p], s.g.procs[p])
    ensures |DoMove(s, m).apps| == |s.apps| && AppFits(DoMove(s, m).apps[p], DoMove(s, m).g.procs[p])
  {
  }

  /** The code sleeps only when it has seen the lock taken. */
  lemma MoveDisciplined(s: LockState, m: Move)
    requires CanMove(s, m) && |s.apps| == |s.g.procs| && AppFits(s.apps[StepOf(m).p], s.g.procs[StepOf(m).p])
    requires s.g.conds == Conds(s.locked)
    ensures Disciplined(s.g, StepOf(m))
    ensures DoMove(s, m).g.conds == Conds(DoMove(s, m).locked)
  {
  }

  lemma MoveKeeps(s: LockState, m: Move)
    requires LockInv(s) && CanMove(s, m)
    ensures LockInv(DoMove(s, m))
  {
    hide Inv, AppFits, Next, Able, Disciplined;
    var st, s' := StepOf(m), DoMove(s, m);
    MoveDisciplined(s, m);
    StepKeeps(s.g, st);
    forall p | 0 <= p < |s.apps| ensures AppFits(s'.apps[p], s'.g.procs[p]) {
      AppKeeps(s, m, p);
    }
    assert forall p :: 0 <= p < |s.apps| && p != st.p ==> s'.apps[p] == s.apps[p];
    assert Holds(s'.apps[st.p]) == (m.Grab? || (Holds(s.apps[st.p]) && !m.Clear?));
  }

  ghost predicate Runs(s: LockState, run: seq<Move>)
    decreases |run|
  {
    run == [] || (CanMove(s, run[0]) && Runs(DoMove(s, run[0]), run[1..]))
  }

  ghost function End(s: LockState, run: seq<Move>): LockState
    requires Runs(s, run)
    decreases |run|
  {
    if run == [] then s else End(DoMove(s, run[0]), run[1..])
  }

  ghost predicate Initial(s: LockState) {
    Start(s.g) && !s.locked && s.g.conds == Conds(s.locked) && |s.apps| == |s.g.procs| && forall p :: 0 <= p < |s.apps| ==> s.apps[p] == Idle
  }

  lemma {:induction false} RunKeepsLock(s: LockState, run: seq<Move>)
    requires LockInv(s) && Runs(s, run)
    ensures LockInv(End(s, run))
    decreases |run|
  {
    if run != [] {
      MoveKeeps(s, run[0]);
      RunKeepsLock(DoMove(s, run[0]), run[1..]);
    }
  }

  /** In every run at most one process holds the sleep-lock. */
  lemma OneHolder(s: LockState, run: seq<Move>, p: nat, q: nat)
    requires Initial(s) && Runs(s, run)
    requires p < |End(s, run).apps| && q < |End(s, run).apps| && Holds(End(s, run).apps[p]) && Holds(End(s, run).apps[q])
    ensures p == q
  {
    StartInv(s.g);
    RunKeepsLock(s, run);
  }

  lemma NonePending(s: LockState, q: nat, c: nat, p: nat)
    requires LockInv(s) && s.g.lk.Nobody?
    ensures !Pending(s.g, q, c, p)
  {
    if q < |s.apps| {
      assert AppFits(s.apps[q], s.g.procs[q]) && LockOk(s.g, q);
    }
  }

  /** When the spinlock is free, a process asleep in acquiresleep waits for one
      that has the lock: it has not missed its wakeup. */
  lemma SleeperWaitsForHolder(s: LockState, run: seq<Move>, p: nat)
    requires Initial(s) && Runs(s, run) && End(s, run).g.lk.Nobody?
    requires p < |End(s, run).g.procs| && End(s, run).g.procs[p].state.Asleep?
    ensures exists q :: 0 <= q < |End(s, run).apps| && Holds(End(s, run).apps[q])
  {
    StartInv(s.g);
    RunKeepsLock(s, run);
    var e := End(s, run).g;
    assert StateOk(e.procs[p]) && WakeOk(e, p) && AppFits(End(s, run).apps[p], e.procs[p]);
    assert Committed(e.procs[p], e.procs[p].chan);
    forall q: nat ensures !Pending(e, q, e.procs[p].chan, p) {
      NonePending(End(s, run), q, e.procs[p].chan, p);
    }
  }
}
