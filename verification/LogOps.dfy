/** begin_op, end_op and log_write run by many processes at once.  Each step is
    one critical section under log.lock, or one of the unlocked steps of a
    process; a run is any interleaving.  log_write is two steps: it looks at the
    header's length without the lock and adds its block under it.
 */
module LogOps {
  import opened Disk
  import Lists

  /** Where an operation is: elsewhere, or in log_write for a block of the host
      log or the loop log, past the guard and waiting for log.lock. */
  datatype At = Running | Passed(loop: bool, block: nat)

  /** An operation between begin_op and end_op: how many blocks it has added to
      each log so far. */
  datatype Op = Op(host: nat, loop: nat, at: At)

  datatype Panic =
    | NoPanic
    | LogIsCommitting   // end_op
    | TooBig            // log_write
    | OutsideTrans      // log_write
    | TrickFailed       // loopdev_write

  datatype State = State(
    size: nat,                // log.size and loop_log.size
    lh: set<nat>,             // blocks in log.lh
    loopLh: set<nat>,         // blocks in loop_log.lh
    outstanding: int,
    loopOutstanding: int,
    committing: bool,
    loopCommitting: bool,
    mounted: bool,
    ops: seq<Op>,             // operations in progress
    borrowed: bool,           // the committer is inside loopdev_write
    overbooked: bool,         // begin_op admitted one to this transaction that its loop-log test, skipped while unmounted, would not
    panic: Panic)

  /** LoopdevLog is the committer's own log_write; no operation is in progress
      then, so its guard and its insertion are one step. */
  datatype Step =
    | Begin
    | Guard(op: nat, loop: bool, block: nat)
    | Insert(op: nat)
    | End(op: nat)
    | Mount(op: nat)
    | Unmount(op: nat)
    | LoopdevEnter
    | LoopdevLog(block: nat)
    | LoopdevLeave
    | CommitDone

  function Init(size: nat): State {
    State(size, {}, {}, 0, 0, false, false, false, [], false, false, NoPanic)
  }

  function Lh(s: State, loop: bool): set<nat> {
    if loop then s.loopLh else s.lh
  }

  function Used(o: Op, loop: bool): nat {
    if loop then o.loop else o.host
  }

  /** The half of begin_op's test that it makes only while a loop is mounted. */
  predicate LoopTest(s: State) {
    |s.loopLh| + (s.loopOutstanding + 1) * MAXOPBLOCKS <= LOGSIZE
  }

  /** begin_op's test; otherwise the process sleeps. */
  predicate MayBegin(s: State) {
    && !s.committing && !(s.mounted && s.loopCommitting)
    && |s.lh| + (s.outstanding + 1) * MAXOPBLOCKS <= LOGSIZE
    && (s.mounted ==> LoopTest(s))
  }

  predicate IsRunning(s: State, op: nat) {
    op < |s.ops| && s.ops[op].at == Running
  }

  /** What callers of the log promise: an operation adds at most MAXOPBLOCKS
      blocks to either log, and uses loop blocks only while one is mounted. */
  predicate Enabled(s: State, step: Step) {
    && s.panic == NoPanic
    && match step
       case Begin => MayBegin(s)
       case Guard(op, loop, b) =>
         IsRunning(s, op) && (loop ==> s.mounted) && (b in Lh(s, loop) || Used(s.ops[op], loop) < MAXOPBLOCKS)
       case Insert(op) => op < |s.ops| && s.ops[op].at.Passed?
       case End(op) => IsRunning(s, op)
       case Mount(op) => IsRunning(s, op)
       case Unmount(op) => IsRunning(s, op)
       case LoopdevEnter => s.committing && !s.borrowed
       case LoopdevLog(_) => s.borrowed
       case LoopdevLeave => s.borrowed
       case CommitDone => s.committing && !s.borrowed
  }

  predicate HeaderFull(n: int, size: nat) {
    n >= LOGSIZE || n >= size - 1
  }

  function RemoveAt(ops: seq<Op>, i: nat): seq<Op>
    requires i < |ops|
  {
    ops[..i] + ops[i + 1..]
  }

  /** The operation after its insertion: one more block used if it was new. */
  function Inserted(o: Op, isNew: bool): Op
    requires o.at.Passed?
  {
    if !isNew then o.(at := Running)
    else if o.at.loop then o.(at := Running, loop := o.loop + 1)
    else o.(at := Running, host := o.host + 1)
  }

  function Next(s: State, step: Step): State
    requires Enabled(s, step)
  {
    match step
    case Begin =>
      s.(outstanding := s.outstanding + 1, loopOutstanding := s.loopOutstanding + 1,
         ops := s.ops + [Op(0, 0, Running)], overbooked := s.overbooked || !LoopTest(s))
    case Guard(op, loop, b) =>
      if HeaderFull(|Lh(s, loop)|, s.size) then s.(panic := TooBig)
      else if (if loop then s.loopOutstanding else s.outstanding) < 1 then s.(panic := OutsideTrans)
      else s.(ops := s.ops[op := s.ops[op].(at := Passed(loop, b))])
    case Insert(op) =>
      var o := s.ops[op];
      var s' := s.(ops := s.ops[op := Inserted(o, o.at.block !in Lh(s, o.at.loop))]);
      if o.at.loop then s'.(loopLh := s.loopLh + {o.at.block}) else s'.(lh := s.lh + {o.at.block})
    case End(op) =>
      var s' := s.(outstanding := s.outstanding - 1, loopOutstanding := s.loopOutstanding - 1, ops := RemoveAt(s.ops, op));
      if s.committing || s.loopCommitting then s'.(panic := LogIsCommitting)
      else if s'.outstanding == 0 && s'.loopOutstanding == 0 then s'.(committing := true, loopCommitting := true)
      else s'
    case Mount(_) => s.(mounted := true)
    case Unmount(_) => s.(mounted := false)
    case LoopdevEnter => s.(outstanding := s.outstanding + 1, borrowed := true)
    case LoopdevLog(b) =>
      if HeaderFull(|s.lh|, s.size) then s.(panic := TooBig)
      else if s.outstanding < 1 then s.(panic := OutsideTrans)
      else s.(lh := s.lh + {b})
    case LoopdevLeave =>
      var s' := s.(outstanding := s.outstanding - 1, borrowed := false);
      if s'.outstanding != 0 then s'.(panic := TrickFailed) else s'
    case CommitDone =>
      s.(lh := {}, loopLh := {}, committing := false, loopCommitting := false, overbooked := false)
  }

  // ----- Reservations -----

  /** What the operations in progress may still add to a log. */
  function Unused(ops: seq<Op>, loop: bool): int {
    if ops == [] then 0 else Unused(ops[..|ops| - 1], loop) + MAXOPBLOCKS - Used(ops[|ops| - 1], loop)
  }

  ghost predicate Bounded(ops: seq<Op>) {
    forall i :: 0 <= i < |ops| ==> ops[i].host <= MAXOPBLOCKS && ops[i].loop <= MAXOPBLOCKS
  }

  lemma {:induction false} UnusedUpdate(ops: seq<Op>, i: nat, o: Op, loop: bool)
    requires i < |ops|
    ensures Unused(ops[i := o], loop) == Unused(ops, loop) + Used(ops[i], loop) - Used(o, loop)
    decreases |ops|
  {
    var n := |ops| - 1;
    if i < n {
      UnusedUpdate(ops[..n], i, o, loop);
      assert ops[i := o][..n] == ops[..n][i := o];
    } else {
      assert ops[i := o][..n] == ops[..n];
    }
  }

  lemma {:induction false} UnusedRemove(ops: seq<Op>, i: nat, loop: bool)
    requires i < |ops|
    ensures Unused(RemoveAt(ops, i), loop) == Unused(ops, loop) - (MAXOPBLOCKS - Used(ops[i], loop))
    decreases |ops|
  {
    var n := |ops| - 1;
    if i < n {
      UnusedRemove(ops[..n], i, loop);
      assert RemoveAt(ops, i)[..n - 1] == RemoveAt(ops[..n], i);
    } else {
      assert RemoveAt(ops, i) == ops[..n];
    }
  }

  lemma UnusedAppend(ops: seq<Op>, o: Op, loop: bool)
    ensures Unused(ops + [o], loop) == Unused(ops, loop) + MAXOPBLOCKS - Used(o, loop)
  {
    assert (ops + [o])[..|ops|] == ops;
  }

  lemma {:induction false} UnusedBounds(ops: seq<Op>, i: nat, loop: bool)
    requires Bounded(ops) && i < |ops|
    ensures 0 <= MAXOPBLOCKS - Used(ops[i], loop) <= Unused(ops, loop) <= |ops| * MAXOPBLOCKS
    decreases |ops|
  {
    var n := |ops| - 1;
    if i < n {
      UnusedBounds(ops[..n], i, loop);
    } else if n > 0 {
      UnusedBounds(ops[..n], 0, loop);
    }
  }

  lemma UnusedNonNegative(ops: seq<Op>, loop: bool)
    requires Bounded(ops)
    ensures 0 <= Unused(ops, loop) <= |ops| * MAXOPBLOCKS
  {
    if ops != [] {
      UnusedBounds(ops, 0, loop);
    }
  }

  // ----- The invariant -----

  /** A write past its guard adds a block its operation may still add, or none. */
  ghost predicate Promised(s: State) {
    forall i :: 0 <= i < |s.ops| && s.ops[i].at.Passed? ==>
      var at := s.ops[i].at;
      at.block in Lh(s, at.loop) || Used(s.ops[i], at.loop) < MAXOPBLOCKS
  }

  ghost predicate Counts(s: State) {
    && s.loopOutstanding == |s.ops|
    && s.outstanding == |s.ops| + (if s.borrowed then 1 else 0)
    && s.committing == s.loopCommitting
    && (s.borrowed ==> s.committing)
    && (s.committing ==> s.ops == [])
  }

  ghost predicate Inv(s: State) {
    && Counts(s) && Bounded(s.ops) && Promised(s)
    && (!s.committing ==> |s.lh| + Unused(s.ops, false) <= LOGSIZE)
    && (!s.committing && !s.overbooked ==> |s.loopLh| + Unused(s.ops, true) <= LOGSIZE)
    && (s.ops == [] && !s.committing ==> s.lh == {} && s.loopLh == {} && !s.overbooked)
  }

  ghost predicate OnlyTooBig(p: Panic) {
    p == NoPanic || p == TooBig
  }

  lemma BeginKeeps(s: State)
    requires Inv(s) && Enabled(s, Begin)
    ensures Inv(Next(s, Begin)) && Next(s, Begin).panic == NoPanic
  {
    hide Unused;
    UnusedAppend(s.ops, Op(0, 0, Running), false);
    UnusedAppend(s.ops, Op(0, 0, Running), true);
    UnusedNonNegative(s.ops, false);
    UnusedNonNegative(s.ops, true);
  }

  lemma GuardKeeps(s: State, op: nat, loop: bool, b: nat)
    requires Inv(s) && Enabled(s, Guard(op, loop, b))
    ensures Inv(Next(s, Guard(op, loop, b))) && OnlyTooBig(Next(s, Guard(op, loop, b)).panic)
  {
    hide Unused;
    UnusedUpdate(s.ops, op, s.ops[op].(at := Passed(loop, b)), false);
    UnusedUpdate(s.ops, op, s.ops[op].(at := Passed(loop, b)), true);
  }

  lemma InsertKeeps(s: State, op: nat)
    requires Inv(s) && Enabled(s, Insert(op))
    ensures Inv(Next(s, Insert(op))) && Next(s, Insert(op)).panic == s.panic
  {
    hide Unused, Promised;
    var o := Next(s, Insert(op)).ops[op];
    MayInsert(s, op);
    UnusedUpdate(s.ops, op, o, false);
    UnusedUpdate(s.ops, op, o, true);
    InsertPromised(s, op);
  }

  lemma MayInsert(s: State, op: nat)
    requires Promised(s) && op < |s.ops| && s.ops[op].at.Passed?
    ensures s.ops[op].at.block in Lh(s, s.ops[op].at.loop) || Used(s.ops[op], s.ops[op].at.loop) < MAXOPBLOCKS
  {
  }

  lemma InsertPromised(s: State, op: nat)
    requires Promised(s) && Enabled(s, Insert(op))
    ensures Promised(Next(s, Insert(op)))
  {
    var s' := Next(s, Insert(op));
    forall i | 0 <= i < |s'.ops| && s'.ops[i].at.Passed?
      ensures var at := s'.ops[i].at; at.block in Lh(s', at.loop) || Used(s'.ops[i], at.loop) < MAXOPBLOCKS
    {
      assert s'.ops[i] == s.ops[i];
    }
  }

  lemma EndKeeps(s: State, op: nat)
    requires Inv(s) && Enabled(s, End(op))
    ensures Inv(Next(s, End(op))) && Next(s, End(op)).panic == NoPanic
  {
    hide Unused;
    UnusedRemove(s.ops, op, false);
    UnusedRemove(s.ops, op, true);
    UnusedBounds(s.ops, op, false);
    UnusedBounds(s.ops, op, true);
    UnusedNonNegative(RemoveAt(s.ops, op), false);
    UnusedNonNegative(RemoveAt(s.ops, op), true);
  }

  /** Every step keeps the invariant, and the only panic it can reach is the
      full-header one. */
  lemma StepKeeps(s: State, step: Step)
    requires Inv(s) && Enabled(s, step)
    ensures Inv(Next(s, step)) && OnlyTooBig(Next(s, step).panic)
  {
    match step
    case Begin => BeginKeeps(s);
    case Guard(op, loop, b) => GuardKeeps(s, op, loop, b);
    case Insert(op) => InsertKeeps(s, op);
    case End(op) => EndKeeps(s, op);
    case Mount(_) =>
    case Unmount(_) =>
    case LoopdevEnter =>
    case LoopdevLog(_) =>
    case LoopdevLeave =>
    case CommitDone =>
  }

  /** steps is an interleaving that can happen from s, ending in s'. */
  ghost predicate Run(s: State, steps: seq<Step>, s': State)
    decreases |steps|
  {
    if steps == [] then s == s'
    else Enabled(s, steps[0]) && Run(Next(s, steps[0]), steps[1..], s')
  }

  ghost predicate Reachable(s: State) {
    exists size: nat, steps: seq<Step> :: Run(Init(size), steps, s)
  }

  lemma {:induction false} RunKeeps(s: State, steps: seq<Step>, s': State)
    requires Inv(s) && OnlyTooBig(s.panic) && Run(s, steps, s')
    ensures Inv(s') && OnlyTooBig(s'.panic)
    decreases |steps|
  {
    if steps != [] {
      StepKeeps(s, steps[0]);
      RunKeeps(Next(s, steps[0]), steps[1..], s');
    }
  }

  lemma ReachableInv(s: State)
    requires Reachable(s)
    ensures Inv(s) && OnlyTooBig(s.panic)
  {
    var size: nat, steps: seq<Step> :| Run(Init(size), steps, s);
    RunKeeps(Init(size), steps, s);
  }

  /** In every reachable state: the two outstanding counts agree (but for the
      one loopdev_write borrows while committing), committing means no operation
      is in progress, the header plus all unused reservations fits LOGSIZE
      outside commit, and end_op's and loopdev_write's panics never happen. */
  lemma ReservationsHold(s: State)
    requires Reachable(s)
    ensures s.outstanding == s.loopOutstanding + (if s.borrowed then 1 else 0)
    ensures s.committing ==> s.ops == []
    ensures !s.committing ==> |s.lh| <= |s.lh| + Unused(s.ops, false) <= LOGSIZE
    ensures !s.committing && !s.overbooked ==> |s.loopLh| <= |s.loopLh| + Unused(s.ops, true) <= LOGSIZE
    ensures s.panic != LogIsCommitting && s.panic != TrickFailed && s.panic != OutsideTrans
  {
    ReachableInv(s);
    UnusedNonNegative(s.ops, false);
    UnusedNonNegative(s.ops, true);
  }

  /** begin_op goes on exactly when no commit is on and, with ten blocks for
      each operation in progress and ten for this one, the host's header fits its
      30 entries, and the loop's header too while a loop is mounted.  It overbooks
      the loop log exactly when none is mounted and the loop's header would not. */
  lemma BeginExact(s: State)
    requires Reachable(s) && s.panic == NoPanic
    ensures Enabled(s, Begin) <==>
              && !s.committing && |s.lh| + (|s.ops| + 1) * 10 <= 30
              && (s.mounted ==> |s.loopLh| + (|s.ops| + 1) * 10 <= 30)
    ensures Enabled(s, Begin) ==>
              (Next(s, Begin).overbooked <==> s.overbooked || (!s.mounted && |s.loopLh| + (|s.ops| + 1) * 10 > 30))
  {
    ReachableInv(s);
  }

  /** log_write's guard lets a block through exactly below the header's 30
      entries and the blocks of the log after its header. */
  lemma GuardExact(s: State, op: nat, loop: bool, b: nat)
    requires Reachable(s) && Enabled(s, Guard(op, loop, b))
    ensures Next(s, Guard(op, loop, b)).panic ==
            if |Lh(s, loop)| >= 30 || |Lh(s, loop)| >= s.size - 1 then TooBig else NoPanic
  {
    ReachableInv(s);
  }

  /** The committer's own log_write, from loopdev_write, has the same guard on
      the host header and otherwise adds its block. */
  lemma LoopdevLogExact(s: State, b: nat)
    requires Reachable(s) && Enabled(s, LoopdevLog(b))
    ensures Next(s, LoopdevLog(b)) ==
            if |s.lh| >= 30 || |s.lh| >= s.size - 1 then s.(panic := TooBig) else s.(lh := s.lh + {b})
  {
    ReachableInv(s);
  }

  /** Operations begin while a loop is mounted, up to three at a time. */
  lemma BeginsWhileMounted(size: nat)
    ensures exists s :: Reachable(s) && s.mounted && |s.ops| == 2 && Enabled(s, Begin) && Reachable(Next(s, Begin))
    ensures exists s :: Reachable(s) && s.panic == NoPanic && s.mounted && |s.ops| == 3 && !Enabled(s, Begin)
  {
    hide Reachable;
    var a, s0 := Op(0, 0, Running), Init(size);
    var s2 := s0.(mounted := true, outstanding := 1, loopOutstanding := 1, ops := [a]);
    var s4 := s2.(outstanding := 2, loopOutstanding := 2, ops := [a, a]);
    var s5 := s4.(outstanding := 3, loopOutstanding := 3, ops := [a, a, a]);
    BootReachable(size);
    assert Next(Next(s0, Begin), Mount(0)) == s2;
    ThenTwo(s0, Begin, Mount(0), s2);
    assert Next(Next(s2, Begin), Mount(0)) == s4;
    ThenTwo(s2, Begin, Mount(0), s4);
    assert Next(Next(s4, Begin), Mount(0)) == s5;
    ThenTwo(s4, Begin, Mount(0), s5);
    assert Next(s4, Begin) == s5;
  }

  // ----- The loop log's reservations -----

  /** The loop header plus all unused reservations fits LOGSIZE outside commit. */
  ghost predicate LoopBound(s: State) {
    !s.committing ==> |s.loopLh| + Unused(s.ops, true) <= LOGSIZE
  }

  /** There is a reservation left for an operation that begins. */
  ghost predicate LoopRoom(s: State, step: Step) {
    step.Begin? ==> |s.loopLh| + Unused(s.ops, true) + MAXOPBLOCKS <= LOGSIZE
  }

  ghost predicate RoomyBegins(s: State, steps: seq<Step>)
    decreases |steps|
  {
    steps != [] && Enabled(s, steps[0]) ==> LoopRoom(s, steps[0]) && RoomyBegins(Next(s, steps[0]), steps[1..])
  }

  ghost predicate KeepsLoopBound(s: State, steps: seq<Step>)
    decreases |steps|
  {
    LoopBound(s) && (steps != [] && Enabled(s, steps[0]) ==> KeepsLoopBound(Next(s, steps[0]), steps[1..]))
  }

  /** begin_op's loop test leaves that room, and so does its host test while the
      loop header is empty. */
  lemma TestLeavesRoom(s: State)
    requires Inv(s) && Enabled(s, Begin) && (LoopTest(s) || s.loopLh == {})
    ensures LoopRoom(s, Begin)
  {
    UnusedNonNegative(s.ops, true);
  }

  lemma {:induction false} NoneUsed(ops: seq<Op>)
    requires forall i :: 0 <= i < |ops| ==> ops[i].loop == 0
    ensures Unused(ops, true) == |ops| * MAXOPBLOCKS
    decreases |ops|
  {
    if ops != [] {
      NoneUsed(ops[..|ops| - 1]);
    }
  }

  /** The test is the exact condition while the operations in progress have logged
      no loop block; the room it asks for counts those they have logged twice. */
  lemma TestIsRoom(s: State)
    requires Inv(s) && Enabled(s, Begin) && forall i :: 0 <= i < |s.ops| ==> s.ops[i].loop == 0
    ensures LoopTest(s) <==> LoopRoom(s, Begin)
  {
    NoneUsed(s.ops);
  }

  /** Only an operation that begins can break the bound, and does so exactly when
      there is no room for it. */
  lemma StepLoopBound(s: State, step: Step)
    requires Inv(s) && LoopBound(s) && Enabled(s, step)
    ensures LoopBound(Next(s, step)) <==> LoopRoom(s, step)
  {
    hide Unused;
    match step
    case Begin => UnusedAppend(s.ops, Op(0, 0, Running), true);
    case Guard(op, loop, b) => UnusedUpdate(s.ops, op, s.ops[op].(at := Passed(loop, b)), true);
    case Insert(op) =>
      MayInsert(s, op);
      UnusedUpdate(s.ops, op, Next(s, Insert(op)).ops[op], true);
    case End(op) =>
      UnusedRemove(s.ops, op, true);
      UnusedBounds(s.ops, op, true);
    case Mount(_) =>
    case Unmount(_) =>
    case LoopdevEnter =>
    case LoopdevLog(_) =>
    case LoopdevLeave =>
    case CommitDone => NoneUnused();
  }

  lemma NoneUnused()
    ensures Unused([], true) == 0
  {
  }

  /** A run keeps the bound throughout if and only if there was room for every
      operation that began in it. */
  lemma {:induction false} LoopBoundExact(s: State, steps: seq<Step>, s': State)
    requires Inv(s) && LoopBound(s) && Run(s, steps, s')
    ensures RoomyBegins(s, steps) <==> KeepsLoopBound(s, steps)
    decreases |steps|
  {
    hide Inv, LoopBound, LoopRoom;
    if steps != [] {
      StepLoopBound(s, steps[0]);
      StepKeeps(s, steps[0]);
      if LoopRoom(s, steps[0]) {
        LoopBoundExact(Next(s, steps[0]), steps[1..], s');
      }
    }
  }

  lemma ThenTwo(s: State, a: Step, b: Step, t: State)
    requires Reachable(s) && Enabled(s, a) && Enabled(Next(s, a), b) && t == Next(Next(s, a), b)
    ensures Reachable(t)
  {
    hide Reachable, Next, Enabled;
    RunTwo(s, a, b);
    ReachableThen(s, [a, b], t);
  }

  lemma BootReachable(size: nat)
    ensures Reachable(Init(size))
  {
    assert Run(Init(size), [], Init(size));
  }

  /** Two operations, the first of them past its one loop block. */
  function OneLoopBlock(): State {
    Init(LOGSIZE).(loopLh := {0}, outstanding := 2, loopOutstanding := 2, ops := [Op(0, 1, Running), Op(0, 0, Running)])
  }

  lemma OneLoopBlockReachable()
    ensures Reachable(OneLoopBlock())
  {
    hide Reachable;
    var a, s0 := Op(0, 0, Running), Init(LOGSIZE);
    var s2 := s0.(outstanding := 2, loopOutstanding := 2, ops := [a, a]);
    var s4 := s2.(mounted := true, ops := [a.(at := Passed(true, 0)), a]);
    BootReachable(LOGSIZE);
    assert Next(Next(s0, Begin), Begin) == s2;
    ThenTwo(s0, Begin, Begin, s2);
    assert Next(Next(s2, Mount(0)), Guard(0, true, 0)) == s4;
    ThenTwo(s2, Mount(0), Guard(0, true, 0), s4);
    assert Next(Next(s4, Insert(0)), Unmount(0)) == OneLoopBlock();
    ThenTwo(s4, Insert(0), Unmount(0), OneLoopBlock());
  }

  /** The bound can be broken.  An operation logs a loop block, unmounts the loop
      and ends while another goes on; two more begin, and the loop is mounted
      again: 31 blocks may now be logged. */
  lemma OverbookedReachable()
    ensures exists s :: Reachable(s) && s.panic == NoPanic && s.mounted && !s.committing && !LoopBound(s)
  {
    hide Reachable;
    var a := Op(0, 0, Running);
    OneLoopBlockReachable();
    var s6 := OneLoopBlock();
    var s8 := s6.(ops := [a, a]);
    assert Next(Next(s6, End(0)), Begin).ops == s8.ops;
    ThenTwo(s6, End(0), Begin, s8);
    var end := s8.(outstanding := 3, loopOutstanding := 3, ops := [a, a, a], mounted := true, overbooked := true);
    assert Next(Next(s8, Begin), Mount(0)).ops == end.ops;
    ThenTwo(s8, Begin, Mount(0), end);
    UnusedAppend([], a, true);
    UnusedAppend([a], a, true);
    UnusedAppend([a, a], a, true);
    assert [] + [a] == [a] && [a] + [a] == [a, a] && [a, a] + [a] == [a, a, a];
  }

  /** mkfs makes the log LOGSIZE blocks long including its header, so log_write
      within an operation's reservation panics exactly when it finds 29 blocks in
      the header, or all 30, whether or not its block would be absorbed. */
  lemma WriteGuardExact(s: State, op: nat, b: nat)
    requires Reachable(s) && s.size == LOGSIZE && Enabled(s, Guard(op, false, b))
    ensures Next(s, Guard(op, false, b)).panic == TooBig <==> |s.lh| == LOGSIZE - 1 || |s.lh| == LOGSIZE
  {
    ReservationsHold(s);
  }

  // ----- Whether a header outgrows its log -----

  /** The blocks of writes past their guard, from operation k on. */
  ghost function PassedFrom(ops: seq<Op>, loop: bool, k: nat): set<nat> {
    set i | k <= i < |ops| && ops[i].at.Passed? && ops[i].at.loop == loop :: ops[i].at.block
  }

  /** What the header will hold once those writes are done. */
  ghost function Cover(s: State, loop: bool): set<nat> {
    Lh(s, loop) + PassedFrom(s.ops, loop, 0)
  }

  /** Moving one operation past a guard adds its block. */
  lemma PassedUpdate(ops: seq<Op>, k: nat, o: Op, loop: bool)
    requires k < |ops| && ops[k].at == Running
    ensures PassedFrom(ops[k := o], loop, 0) ==
            PassedFrom(ops, loop, 0) + (if o.at.Passed? && o.at.loop == loop then {o.at.block} else {})
  {
    var after := ops[k := o];
    forall b | b in PassedFrom(after, loop, 0)
      ensures b in PassedFrom(ops, loop, 0) || (o.at == Passed(loop, b))
    {
      var i :| 0 <= i < |after| && after[i].at == Passed(loop, b);
      assert i == k || ops[i] == after[i];
    }
    forall b | b in PassedFrom(ops, loop, 0) ensures b in PassedFrom(after, loop, 0) {
      var i :| 0 <= i < |ops| && ops[i].at == Passed(loop, b);
      assert after[i] == ops[i];
    }
    assert after[k] == o;
  }

  ghost predicate AllInserts(steps: seq<Step>) {
    forall i :: 0 <= i < |steps| ==> steps[i].Insert?
  }

  /** Letting only writes past their guard go on can leave a header with an entry
      for which the log has no block. */
  ghost predicate Overflows(s: State, loop: bool) {
    exists steps: seq<Step>, s': State :: AllInserts(steps) && Run(s, steps, s') && |Lh(s', loop)| >= s'.size
  }

  lemma InsertCover(s: State, op: nat, loop: bool)
    requires Enabled(s, Insert(op))
    ensures Cover(Next(s, Insert(op)), loop) == Cover(s, loop)
  {
    hide PassedFrom;
    var s' := Next(s, Insert(op));
    PassedUpdate(s'.ops, op, s.ops[op], loop);
    assert s'.ops[op := s.ops[op]] == s.ops;
  }

  lemma {:induction false} InsertsCover(s: State, steps: seq<Step>, s': State, loop: bool)
    requires AllInserts(steps) && Run(s, steps, s')
    ensures Cover(s', loop) == Cover(s, loop) && s'.size == s.size
    decreases |steps|
  {
    if steps != [] {
      InsertCover(s, steps[0].op, loop);
      InsertsCover(Next(s, steps[0]), steps[1..], s', loop);
    }
  }

  lemma PassedNext(ops: seq<Op>, loop: bool, k: nat)
    requires k < |ops|
    ensures PassedFrom(ops, loop, k) ==
            (if ops[k].at.Passed? && ops[k].at.loop == loop then {ops[k].at.block} else {}) + PassedFrom(ops, loop, k + 1)
  {
  }

  /** The writes past their guard can all be done, in turn. */
  lemma {:induction false} InsertFrom(s: State, loop: bool, k: nat) returns (steps: seq<Step>, s': State)
    requires s.panic == NoPanic && k <= |s.ops|
    ensures AllInserts(steps) && Run(s, steps, s')
    ensures s'.size == s.size && Lh(s', loop) == Lh(s, loop) + PassedFrom(s.ops, loop, k)
    decreases |s.ops| - k
  {
    hide Next, PassedFrom;
    if k == |s.ops| {
      NonePassed(s.ops, loop);
      steps, s' := [], s;
    } else if s.ops[k].at.Passed? && s.ops[k].at.loop == loop {
      var t := Next(s, Insert(k));
      AfterInsert(s, k);
      var rest;
      rest, s' := InsertFrom(t, loop, k + 1);
      PassedNext(s.ops, loop, k);
      SameTail(s.ops, t.ops, loop, k + 1);
      steps := [Insert(k)] + rest;
      assert steps[1..] == rest;
    } else {
      steps, s' := InsertFrom(s, loop, k + 1);
      PassedNext(s.ops, loop, k);
    }
  }

  lemma AfterInsert(s: State, k: nat)
    requires Enabled(s, Insert(k))
    ensures var t, at := Next(s, Insert(k)), s.ops[k].at;
            && t.panic == NoPanic && t.size == s.size && |t.ops| == |s.ops|
            && Lh(t, at.loop) == Lh(s, at.loop) + {at.block}
            && forall i :: k < i < |s.ops| ==> t.ops[i] == s.ops[i]
  {
  }

  lemma NonePassed(ops: seq<Op>, loop: bool)
    ensures PassedFrom(ops, loop, |ops|) == {}
  {
  }

  lemma SameTail(a: seq<Op>, b: seq<Op>, loop: bool, k: nat)
    requires |a| == |b| && forall i :: k <= i < |a| ==> a[i] == b[i]
    ensures PassedFrom(a, loop, k) == PassedFrom(b, loop, k)
  {
  }

  /** Whether it can be seen beforehand: the header overflows this way if and
      only if the blocks in it and past the guard outnumber the log blocks. */
  lemma OverflowExact(s: State, loop: bool)
    ensures Overflows(s, loop) ==> |Cover(s, loop)| >= s.size
    ensures s.panic == NoPanic && |Cover(s, loop)| >= s.size ==> Overflows(s, loop)
  {
    if Overflows(s, loop) {
      var steps: seq<Step>, s': State :| AllInserts(steps) && Run(s, steps, s') && |Lh(s', loop)| >= s'.size;
      InsertsCover(s, steps, s', loop);
      Lists.SubsetCount(Lh(s', loop), Cover(s', loop));
    }
    if s.panic == NoPanic && |Cover(s, loop)| >= s.size {
      var steps, s' := InsertFrom(s, loop, 0);
    }
  }

  /** What log_write would have to look at: that there is room for its block
      beside the header and every write past the guard. */
  ghost predicate HasRoom(s: State, step: Step) {
    step.Guard? && !HeaderFull(|Lh(s, step.loop)|, s.size) ==> |Cover(s, step.loop) + {step.block}| < s.size
  }

  ghost predicate RoomyRun(s: State, steps: seq<Step>)
    decreases |steps|
  {
    steps != [] && Enabled(s, steps[0]) ==> HasRoom(s, steps[0]) && RoomyRun(Next(s, steps[0]), steps[1..])
  }

  /** No state a run passes through can overflow either header. */
  ghost predicate NeverOverflows(s: State, steps: seq<Step>)
    decreases |steps|
  {
    && !Overflows(s, false) && !Overflows(s, true)
    && (steps != [] && Enabled(s, steps[0]) ==> NeverOverflows(Next(s, steps[0]), steps[1..]))
  }

  ghost predicate Roomy(s: State) {
    |Cover(s, false)| < s.size && |Cover(s, true)| < s.size
  }

  lemma GuardCover(s: State, op: nat, l: bool, b: nat, loop: bool)
    requires Enabled(s, Guard(op, l, b)) && Next(s, Guard(op, l, b)).panic == NoPanic
    ensures Cover(Next(s, Guard(op, l, b)), loop) == Cover(s, loop) + if l == loop then {b} else {}
  {
    hide PassedFrom;
    PassedUpdate(s.ops, op, s.ops[op].(at := Passed(l, b)), loop);
  }

  lemma EndCover(s: State, op: nat, loop: bool)
    requires Enabled(s, End(op))
    ensures Cover(Next(s, End(op)), loop) == Cover(s, loop)
  {
    var r := RemoveAt(s.ops, op);
    forall c ensures c in PassedFrom(r, loop, 0) <==> c in PassedFrom(s.ops, loop, 0) {
      if i :| 0 <= i < |r| && r[i].at == Passed(loop, c) {
        assert r[i] == s.ops[if i < op then i else i + 1];
      }
      if i :| 0 <= i < |s.ops| && s.ops[i].at == Passed(loop, c) {
        assert s.ops[i] == r[if i < op then i else i - 1];
      }
    }
  }

  /** Every other step of an operation leaves what is to come as it is. */
  lemma OtherCover(s: State, step: Step, loop: bool)
    requires Inv(s) && Enabled(s, step) && !step.Guard? && !step.LoopdevLog? && !step.CommitDone?
    ensures Cover(Next(s, step), loop) == Cover(s, loop) && Next(s, step).size == s.size
  {
    match step
    case Begin => BeginCover(s, loop);
    case Insert(op) => InsertCover(s, op, loop);
    case End(op) => EndCover(s, op, loop);
    case Mount(_) =>
    case Unmount(_) =>
    case LoopdevEnter =>
    case LoopdevLeave =>
  }

  lemma CommitterRoomy(s: State, step: Step)
    requires Inv(s) && Roomy(s) && Enabled(s, step) && (step.LoopdevLog? || step.CommitDone?)
    ensures Roomy(Next(s, step))
  {
    assert Cover(s, false) == s.lh && Cover(s, true) == s.loopLh;
    var s' := Next(s, step);
    assert Cover(s', false) == s'.lh && Cover(s', true) == s'.loopLh;
  }

  /** A step keeps both headers within the room they have if and only if it is not
      a log_write that finds too little of it. */
  lemma StepRoomy(s: State, step: Step)
    requires Inv(s) && Roomy(s) && Enabled(s, step)
    ensures Roomy(Next(s, step)) <==> HasRoom(s, step)
  {
    hide Cover, Inv;
    if step.LoopdevLog? || step.CommitDone? {
      CommitterRoomy(s, step);
    } else if !step.Guard? {
      OtherCover(s, step, false);
      OtherCover(s, step, true);
    } else {
      GuardRoomy(s, step.op, step.loop, step.block);
    }
  }

  lemma GuardRoomy(s: State, op: nat, l: bool, b: nat)
    requires Inv(s) && Roomy(s) && Enabled(s, Guard(op, l, b))
    ensures Roomy(Next(s, Guard(op, l, b))) <==> HasRoom(s, Guard(op, l, b))
  {
    hide PassedFrom, Unused, Bounded;
    if Next(s, Guard(op, l, b)).panic == NoPanic {
      GuardCover(s, op, l, b, l);
      GuardCover(s, op, l, b, !l);
    }
  }

  lemma BeginCover(s: State, loop: bool)
    requires Enabled(s, Begin)
    ensures Cover(Next(s, Begin), loop) == Cover(s, loop)
  {
    var ops' := Next(s, Begin).ops;
    forall b ensures b in PassedFrom(ops', loop, 0) <==> b in PassedFrom(s.ops, loop, 0) {
      if i :| 0 <= i < |ops'| && ops'[i].at == Passed(loop, b) {
        assert s.ops[i] == ops'[i];
      }
      if i :| 0 <= i < |s.ops| && s.ops[i].at == Passed(loop, b) {
        assert ops'[i] == s.ops[i];
      }
    }
  }

  /** A run keeps both headers below log.size, wherever it is cut and its pending
      writes finished, if and only if every log_write that passes its guard has
      room beside the header and the other writes past theirs. */
  lemma {:induction false} HeaderBelowExact(s: State, steps: seq<Step>, s': State)
    requires Inv(s) && Roomy(s) && Run(s, steps, s')
    ensures RoomyRun(s, steps) <==> NeverOverflows(s, steps)
    decreases |steps|
  {
    hide Cover, Overflows, Inv;
    OverflowExact(s, false);
    OverflowExact(s, true);
    if steps != [] {
      var t := Next(s, steps[0]);
      StepRoomy(s, steps[0]);
      StepKeeps(s, steps[0]);
      if HasRoom(s, steps[0]) {
        HeaderBelowExact(t, steps[1..], s');
      } else {
        OverflowExact(t, false);
        OverflowExact(t, true);
      }
    }
  }

  /** Were the guard checked under the lock, so that a log_write never starts while
      another is between the two, no header would outgrow its log. */
  ghost predicate OneAtATime(s: State, steps: seq<Step>)
    decreases |steps|
  {
    steps != [] && Enabled(s, steps[0]) ==>
      && (steps[0].Guard? ==> forall i :: 0 <= i < |s.ops| ==> s.ops[i].at == Running)
      && OneAtATime(Next(s, steps[0]), steps[1..])
  }

  lemma {:induction false} OneAtATimeIsRoomy(s: State, steps: seq<Step>)
    requires OneAtATime(s, steps)
    ensures RoomyRun(s, steps)
    decreases |steps|
  {
    if steps != [] && Enabled(s, steps[0]) {
      var step := steps[0];
      if step.Guard? && !HeaderFull(|Lh(s, step.loop)|, s.size) {
        assert PassedFrom(s.ops, step.loop, 0) == {};
        assert Cover(s, step.loop) + {step.block} == Lh(s, step.loop) + {step.block};
      }
      OneAtATimeIsRoomy(Next(s, step), steps[1..]);
    }
  }

  /** From boot: the exact condition, and that it holds of such runs. */
  lemma HeaderBelowFromBoot(size: nat, steps: seq<Step>, s: State)
    requires size > 0 && Run(Init(size), steps, s)
    ensures RoomyRun(Init(size), steps) <==> NeverOverflows(Init(size), steps)
    ensures OneAtATime(Init(size), steps) ==> NeverOverflows(Init(size), steps)
  {
    hide Run, RoomyRun, NeverOverflows, OneAtATime;
    HeaderBelowExact(Init(size), steps, s);
    if OneAtATime(Init(size), steps) {
      OneAtATimeIsRoomy(Init(size), steps);
    }
  }

  // ----- The guard does fire, and does not always help -----

  /** The blocks 0..k-1. */
  function Below(k: nat): (r: set<nat>)
    ensures |r| == k && forall b :: b in r <==> 0 <= b < k
  {
    if k == 0 then {} else Below(k - 1) + {k - 1}
  }

  /** Three operations in progress that have logged blocks 0..k-1 in turn. */
  function Filling(k: nat): State {
    State(LOGSIZE, Below(k), {}, 3, 3, false, false, false,
          [Op((k + 2) / 3, 0, Running), Op((k + 1) / 3, 0, Running), Op(k / 3, 0, Running)], false, false, NoPanic)
  }

  lemma RunTwo(s: State, a: Step, b: Step)
    requires Enabled(s, a) && Enabled(Next(s, a), b)
    ensures Run(s, [a, b], Next(Next(s, a), b))
  {
    var t := Next(Next(s, a), b);
    assert [a, b][1..] == [b] && [b][1..] == [];
    assert Run(t, [], t);
    assert Run(Next(s, a), [b], t);
  }

  /** A log_write of a new block by itself. */
  lemma WriteAlone(s: State, op: nat, b: nat)
    requires s.panic == NoPanic && IsRunning(s, op) && s.ops[op].host < MAXOPBLOCKS
    requires !HeaderFull(|s.lh|, s.size) && s.outstanding >= 1 && b !in s.lh
    ensures Run(s, [Guard(op, false, b), Insert(op)],
                s.(lh := s.lh + {b}, ops := s.ops[op := s.ops[op].(host := s.ops[op].host + 1)]))
  {
    RunTwo(s, Guard(op, false, b), Insert(op));
  }

  lemma FillStep(k: nat)
    requires k < 29
    ensures Run(Filling(k), [Guard(k % 3, false, k), Insert(k % 3)], Filling(k + 1))
  {
    hide Run, Below;
    var s, i := Filling(k), k % 3;
    Thirds(k);
    WriteAlone(s, i, k);
    assert Below(k) + {k} == Below(k + 1);
    assert s.ops[i := s.ops[i].(host := s.ops[i].host + 1)] == Filling(k + 1).ops;
  }

  lemma Thirds(k: nat)
    requires k < 29
    ensures (k + 3) / 3 == (k + 2) / 3 + (if k % 3 == 0 then 1 else 0)
    ensures (k + 2) / 3 == (k + 1) / 3 + (if k % 3 == 1 then 1 else 0)
    ensures (k + 1) / 3 == k / 3 + (if k % 3 == 2 then 1 else 0)
    ensures (if k % 3 == 0 then (k + 2) / 3 else if k % 3 == 1 then (k + 1) / 3 else k / 3) < MAXOPBLOCKS
  {
  }

  lemma {:induction false} RunConcat(s: State, a: seq<Step>, t: State, b: seq<Step>, u: State)
    requires Run(s, a, t) && Run(t, b, u)
    ensures Run(s, a + b, u)
    decreases |a|
  {
    if a == [] {
      assert a + b == b;
    } else {
      RunConcat(Next(s, a[0]), a[1..], t, b, u);
      assert (a + b)[1..] == a[1..] + b;
    }
  }

  lemma ReachableThen(s: State, steps: seq<Step>, t: State)
    requires Reachable(s) && Run(s, steps, t)
    ensures Reachable(t)
  {
    var size: nat, before: seq<Step> :| Run(Init(size), before, s);
    RunConcat(Init(size), before, s, steps, t);
  }

  lemma {:induction false} FillingReachable(k: nat)
    requires k <= 29
    ensures Reachable(Filling(k))
  {
    hide Filling, Reachable;
    if k == 0 {
      ThreeBegins();
    } else {
      FillingReachable(k - 1);
      FillStep(k - 1);
      ReachableThen(Filling(k - 1), [Guard((k - 1) % 3, false, k - 1), Insert((k - 1) % 3)], Filling(k));
    }
  }

  lemma ThreeBegins()
    ensures Reachable(Filling(0))
  {
    var i0 := Init(LOGSIZE);
    var i1 := Next(i0, Begin);
    var i2 := Next(i1, Begin);
    RunBegins(i0, i1, i2, Next(i2, Begin));
    assert Next(i2, Begin) == Filling(0);
  }

  lemma RunBegins(s0: State, s1: State, s2: State, s3: State)
    requires Enabled(s0, Begin) && s1 == Next(s0, Begin)
    requires Enabled(s1, Begin) && s2 == Next(s1, Begin)
    requires Enabled(s2, Begin) && s3 == Next(s2, Begin)
    ensures Run(s0, [Begin, Begin, Begin], s3)
  {
    assert Run(s3, [], s3);
    assert [Begin][1..] == [] && [Begin, Begin][1..] == [Begin] && [Begin, Begin, Begin][1..] == [Begin, Begin];
    assert Run(s2, [Begin], s3);
    assert Run(s1, [Begin, Begin], s3);
  }

  /** Three concurrent operations of ten blocks each are admitted by begin_op,
      stay within their reservations, and still end in a panic. */
  lemma AdmittedOperationsPanic()
    ensures exists s, step :: Reachable(s) && s.size == LOGSIZE && Enabled(s, step) && Next(s, step).panic == TooBig
  {
    hide Reachable, Below;
    FillingReachable(29);
    var step := Guard(2, false, 29);
    assert Enabled(Filling(29), step) && Next(Filling(29), step).panic == TooBig;
  }

  /** The second and third operation are past the guard with a block each. */
  function BothPassed(): State {
    Filling(28).(ops := [Op(10, 0, Running), Op(9, 0, Passed(false, 28)), Op(9, 0, Passed(false, 29))])
  }

  function BothInserted(): State {
    Filling(28).(lh := Below(28) + {28} + {29}, ops := [Op(10, 0, Running), Op(10, 0, Running), Op(10, 0, Running)])
  }

  lemma BothPassedReachable()
    ensures Reachable(BothPassed())
  {
    hide Reachable, Below;
    FillingReachable(28);
    var s, g1, g2 := Filling(28), Guard(1, false, 28), Guard(2, false, 29);
    RunTwo(s, g1, g2);
    assert Next(Next(s, g1), g2).ops == BothPassed().ops;
    ReachableThen(s, [g1, g2], BothPassed());
  }

  lemma BothInsertedReachable()
    ensures Reachable(BothInserted()) && |BothInserted().lh| == LOGSIZE
  {
    hide Reachable, Below;
    BothPassedReachable();
    var s := BothPassed();
    RunTwo(s, Insert(1), Insert(2));
    assert Next(Next(s, Insert(1)), Insert(2)).ops == BothInserted().ops;
    ReachableThen(s, [Insert(1), Insert(2)], BothInserted());
  }

  /** With 28 blocks in the header two of them can pass the guard together, so the
      header in memory has 30 entries when the last one ends, for a log of 29
      blocks; the buffer cache then stops write_log at its first bread. */
  lemma AdmittedOperationsOverflow()
    ensures exists s :: Reachable(s) && s.size == LOGSIZE && s.committing && s.panic == NoPanic && |s.lh| == LOGSIZE
  {
    hide Reachable, Below;
    BothInsertedReachable();
    var s0 := BothInserted();
    var s2 := Next(Next(s0, End(0)), End(0));
    RunTwo(s0, End(0), End(0));
    ReachableThen(s0, [End(0), End(0)], s2);
    var s3 := Next(s2, End(0));
    assert [End(0)][1..] == [] && Run(s3, [], s3);
    ReachableThen(s2, [End(0)], s3);
  }
}
