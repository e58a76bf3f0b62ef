/** sleep and wakeup of proc.c as a machine of single steps: any number of
    processes share data under one spinlock `lk`; ptable.lock guards process
    states, and a wakeup scans the process table slot by slot.  Of the data the
    machine knows only `conds`, the channels whose condition is true.  A process
    sleeps on a channel when it has seen, under lk, that its condition is false;
    one that makes a condition true must wake the channel, and `owes` lists the
    channels it has still to wake.
 */
module Sleeping {
  datatype Holder = Nobody | By(p: nat)

  datatype Pc =
    | Out                          // holds neither lock
    | Held                         // holds lk
    | ToSleep(c: nat)              // in sleep, holds lk, about to take ptable.lock
    | Handing(c: nat)              // holds both, about to release lk
    | Parking(c: nat)              // holds ptable.lock, about to set chan and state
    | Parked(c: nat)               // has given up the processor
    | Back                         // scheduled again, holds ptable.lock
    | WakeWait(c: nat, locked: bool)         // in wakeup, about to take ptable.lock
    | Scan(c: nat, k: nat, locked: bool)     // in wakeup1, about to look at slot k

  datatype RunState = Running | Runnable | Asleep

  datatype Proc = Proc(pc: Pc, state: RunState, chan: nat, owes: set<nat>)

  datatype State = State(lk: Holder, pt: Holder, procs: seq<Proc>, conds: set<nat>)

  datatype Step =
    | Acquire(p: nat) | Release(p: nat) | Update(p: nat, conds: set<nat>) | Local(p: nat)
    | Sleep(p: nat, c: nat) | TakePt(p: nat) | DropLk(p: nat) | Park(p: nat)
    | Run(p: nat) | Resume(p: nat)
    | Wake(p: nat, c: nat) | StartScan(p: nat) | ScanOne(p: nat) | EndScan(p: nat)
    | Kick(p: nat)                 // kill makes a sleeper runnable

  predicate HasLk(pc: Pc) {
    pc.Held? || pc.ToSleep? || pc.Handing? || (pc.WakeWait? && pc.locked) || (pc.Scan? && pc.locked)
  }

  predicate HasPt(pc: Pc) {
    pc.Handing? || pc.Parking? || pc.Back? || pc.Scan?
  }

  /** The step can be taken: the process is there and the lock it needs is free. */
  predicate Able(s: State, st: Step) {
    && st.p < |s.procs|
    && var pc := s.procs[st.p].pc;
       match st
       case Acquire(_) => pc.Out? && s.lk.Nobody?
       case Release(_) => pc.Held?
       case Update(_, _) => pc.Held?
       case Local(_) => pc.Held?
       case Sleep(_, _) => pc.Held?
       case TakePt(_) => pc.ToSleep? && s.pt.Nobody?
       case DropLk(_) => pc.Handing?
       case Park(_) => pc.Parking?
       case Run(_) => pc.Parked? && s.procs[st.p].state.Runnable? && s.pt.Nobody?
       case Resume(_) => pc.Back?
       case Wake(_, _) => pc.Out? || pc.Held?
       case StartScan(_) => pc.WakeWait? && s.pt.Nobody?
       case ScanOne(_) => pc.Scan? && pc.k < |s.procs|
       case EndScan(_) => pc.Scan? && pc.k >= |s.procs|
       case Kick(_) => s.pt.Nobody?
  }

  /** What callers of sleep must see to: the condition seen false under lk,
      and no wakeup owed. */
  predicate Disciplined(s: State, st: Step)
    requires st.p < |s.procs|
  {
    st.Sleep? ==> st.c !in s.conds && s.procs[st.p].owes == {}
  }

  function Woken(q: Proc, c: nat): Proc {
    if q.state.Asleep? && q.chan == c then q.(state := Runnable) else q
  }

  function Next(s: State, st: Step): (s': State)
    requires Able(s, st)
    ensures |s'.procs| == |s.procs|
  {
    var p := st.p;
    var q := s.procs[p];
    match st
    case Acquire(_) => s.(lk := By(p), procs := s.procs[p := q.(pc := Held)])
    case Release(_) => s.(lk := Nobody, procs := s.procs[p := q.(pc := Out)])
    case Update(_, conds) => s.(conds := conds, procs := s.procs[p := q.(owes := q.owes + (conds - s.conds))])
    case Local(_) => s
    case Sleep(_, c) => s.(procs := s.procs[p := q.(pc := ToSleep(c))])
    case TakePt(_) => s.(pt := By(p), procs := s.procs[p := q.(pc := Handing(q.pc.c))])
    case DropLk(_) => s.(lk := Nobody, procs := s.procs[p := q.(pc := Parking(q.pc.c))])
    case Park(_) => s.(pt := Nobody, procs := s.procs[p := q.(pc := Parked(q.pc.c), chan := q.pc.c, state := Asleep)])
    case Run(_) => s.(pt := By(p), procs := s.procs[p := q.(pc := Back, state := Running)])
    case Resume(_) => s.(pt := Nobody, procs := s.procs[p := q.(pc := Out, chan := 0)])
    case Wake(_, c) => s.(procs := s.procs[p := q.(pc := WakeWait(c, q.pc.Held?))])
    case StartScan(_) =>
      s.(pt := By(p), procs := s.procs[p := q.(pc := Scan(q.pc.c, 0, q.pc.locked), owes := q.owes - {q.pc.c})])
    case ScanOne(_) =>
      var k := q.pc.k;
      var woken := s.procs[k := Woken(s.procs[k], q.pc.c)];
      s.(procs := woken[p := woken[p].(pc := Scan(q.pc.c, k + 1, q.pc.locked))])
    case EndScan(_) => s.(pt := Nobody, procs := s.procs[p := q.(pc := if q.pc.locked then Held else Out)])
    case Kick(_) => if q.state.Asleep? then s.(procs := s.procs[p := q.(state := Runnable)]) else s
  }

  // ----- Invariants -----

  /** The locks are held by the process whose code holds them. */
  ghost predicate LocksOk(s: State) {
    && (forall p :: 0 <= p < |s.procs| ==> LockOk(s, p))
    && (s.lk.By? ==> s.lk.p < |s.procs|) && (s.pt.By? ==> s.pt.p < |s.procs|)
  }

  ghost predicate LockOk(s: State, p: nat)
    requires p < |s.procs|
  {
    (s.lk == By(p) <==> HasLk(s.procs[p].pc)) && (s.pt == By(p) <==> HasPt(s.procs[p].pc))
  }

  ghost predicate StatesOk(s: State) {
    forall p :: 0 <= p < |s.procs| ==> StateOk(s.procs[p])
  }

  ghost predicate StateOk(q: Proc) {
    && (if q.pc.Parked? then !q.state.Running? && q.chan == q.pc.c else q.state.Running?)
    && (q.owes != {} ==> q.pc.Out? || q.pc.Held? || q.pc.WakeWait? || q.pc.Scan?)
  }

  /** Process q has yet to wake slot p for channel c. */
  ghost predicate Pending(s: State, q: nat, c: nat, p: nat) {
    && q < |s.procs|
    && (c in s.procs[q].owes || (s.procs[q].pc.Scan? && s.procs[q].pc.c == c && s.procs[q].pc.k <= p))
  }

  /** Committed to sleeping on c, with lk already released. */
  ghost predicate Committed(q: Proc, c: nat) {
    q.pc == Parking(c) || (q.pc == Parked(c) && q.state.Asleep?)
  }

  /** The condition is still false while lk is held, and once it is released a
      true condition has a wakeup on its way. */
  ghost predicate WakeOk(s: State, p: nat)
    requires p < |s.procs|
  {
    var pc := s.procs[p].pc;
    && (pc.ToSleep? || pc.Handing? ==> pc.c !in s.conds)
    && (forall c :: Committed(s.procs[p], c) && c in s.conds ==> exists q: nat :: Pending(s, q, c, p))
  }

  ghost predicate Inv(s: State) {
    LocksOk(s) && StatesOk(s) && forall p :: 0 <= p < |s.procs| ==> WakeOk(s, p)
  }

  ghost predicate Start(s: State) {
    s.lk.Nobody? && s.pt.Nobody? && forall p :: 0 <= p < |s.procs| ==> s.procs[p] == Proc(Out, Running, 0, {})
  }

  lemma StartInv(s: State)
    requires Start(s)
    ensures Inv(s)
  {
  }

  lemma LocksKeep(s: State, st: Step)
    requires LocksOk(s) && StatesOk(s) && Able(s, st) && Disciplined(s, st)
    ensures LocksOk(Next(s, st)) && StatesOk(Next(s, st))
  {
    var s' := Next(s, st);
    forall p | 0 <= p < |s'.procs| ensures LockOk(s', p) && StateOk(s'.procs[p]) {
      assert LockOk(s, p) && LockOk(s, st.p) && StateOk(s.procs[p]) && StateOk(s.procs[st.p]);
      assert st.ScanOne? ==> StateOk(s.procs[s.procs[st.p].pc.k]);
    }
  }

  /** A wakeup on its way stays so, until it reaches the sleeper. */
  lemma PendingKeeps(s: State, st: Step, q: nat, c: nat, p: nat)
    requires LocksOk(s) && StatesOk(s) && Able(s, st) && Pending(s, q, c, p)
    requires p < |s.procs| && Committed(s.procs[p], c) && Committed(Next(s, st).procs[p], c)
    ensures Pending(Next(s, st), q, c, p)
  {
    assert LockOk(s, p) && LockOk(s, q) && LockOk(s, st.p) && StateOk(s.procs[p]);
  }

  lemma WakeKeeps(s: State, st: Step, p: nat)
    requires LocksOk(s) && StatesOk(s) && Able(s, st) && Disciplined(s, st) && p < |s.procs| && WakeOk(s, p)
    ensures WakeOk(Next(s, st), p)
  {
    var s' := Next(s, st);
    assert LockOk(s, p) && LockOk(s, st.p) && StateOk(s.procs[p]);
    forall c | Committed(s'.procs[p], c) && c in s'.conds ensures exists q: nat :: Pending(s', q, c, p) {
      if Committed(s.procs[p], c) {
        if c in s.conds {
          var q: nat :| Pending(s, q, c, p);
          PendingKeeps(s, st, q, c, p);
        } else {
          assert st.Update?;
          assert Pending(s', st.p, c, p);
        }
      }
    }
  }

  lemma StepKeeps(s: State, st: Step)
    requires Inv(s) && Able(s, st) && Disciplined(s, st)
    ensures Inv(Next(s, st))
  {
    LocksKeep(s, st);
    forall p | 0 <= p < |s.procs| ensures WakeOk(Next(s, st), p) {
      WakeKeeps(s, st, p);
    }
  }

  // ----- Runs -----

  ghost predicate Fits(s: State, run: seq<Step>)
    decreases |run|
  {
    run == [] || (Able(s, run[0]) && Disciplined(s, run[0]) && Fits(Next(s, run[0]), run[1..]))
  }

  ghost function After(s: State, run: seq<Step>): State
    requires Fits(s, run)
    decreases |run|
  {
    if run == [] then s else After(Next(s, run[0]), run[1..])
  }

  lemma {:induction false} RunKeeps(s: State, run: seq<Step>)
    requires Inv(s) && Fits(s, run)
    ensures Inv(After(s, run))
    decreases |run|
  {
    if run != [] {
      StepKeeps(s, run[0]);
      RunKeeps(Next(s, run[0]), run[1..]);
    }
  }

  /** No wakeup is lost: whoever is SLEEPING on a channel whose condition is true
      has a wakeup of that channel still to come, from a process that is not
      itself asleep, in every interleaving. */
  lemma NoLostWakeup(s: State, run: seq<Step>, p: nat)
    requires Start(s) && Fits(s, run)
    requires p < |After(s, run).procs| && After(s, run).procs[p].state.Asleep?
    requires After(s, run).procs[p].chan in After(s, run).conds
    ensures exists q: nat :: Pending(After(s, run), q, After(s, run).procs[p].chan, p) && After(s, run).procs[q].state.Running?
  {
    StartInv(s);
    RunKeeps(s, run);
    var e := After(s, run);
    assert WakeOk(e, p);
    assert Committed(e.procs[p], e.procs[p].chan);
    var q: nat :| Pending(e, q, e.procs[p].chan, p);
    assert StateOk(e.procs[q]);
  }
}
