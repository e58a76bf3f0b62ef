/** The two-level x86 page table of vm.c as values: page directories and page
    tables live in physical frames, and an address space refines a map from
    virtual page number to frame and flags.  A zero entry is an absent one.
 */
module PageTable {
  const NENT := 1024                       // entries per directory and per table
  const USERTOP := 0x80000                 // KERNBASE as a page number

  datatype Pte = Pte(frame: nat, flags: nat)
  datatype Mapping = Unmapped | To(frame: nat, flags: nat)

  /** The frames in use as directories or tables, and their entries. */
  type Tables = map<nat, map<nat, Pte>>

  /** The table frame in entry i of directory d, 0 if none. */
  function TableOf(t: Tables, d: nat, i: nat): nat {
    if d in t && i in t[d] then t[d][i].frame else 0
  }

  /** The map that directory d stands for. */
  function Look(t: Tables, d: nat, v: nat): Mapping {
    var p := TableOf(t, d, v / NENT);
    if p != 0 && p in t && v % NENT in t[p] then To(t[p][v % NENT].frame, t[p][v % NENT].flags) else Unmapped
  }

  /** What an address space uses a frame for. */
  datatype Role = Dir | Table(i: nat) | User(v: nat)

  /** The frame in a role, 0 if none: frames mapped by the kernel half are not owned. */
  function At(t: Tables, d: nat, r: Role): nat {
    match r
    case Dir => d
    case Table(i) => TableOf(t, d, i)
    case User(v) => if v < USERTOP && Look(t, d, v).To? then Look(t, d, v).frame else 0
  }

  predicate WellFormed(t: Tables, d: nat) {
    && d != 0 && d in t
    && (forall i :: i in t[d] ==> i < NENT && t[d][i].frame != 0 && t[d][i].frame in t)
    && (forall i, j :: i in t[d] && j in t[t[d][i].frame] ==> j < NENT)
  }

  /** Every frame of the space has exactly one role, and owner gives it. */
  ghost predicate Owned(t: Tables, d: nat, owner: map<nat, Role>) {
    && WellFormed(t, d)
    && (forall f :: f in owner ==> f != 0 && At(t, d, owner[f]) == f)
    && (forall r :: At(t, d, r) != 0 ==> At(t, d, r) in owner && owner[At(t, d, r)] == r)
    && (forall v :: 0 <= v < USERTOP && Look(t, d, v).To? ==> Look(t, d, v).frame != 0)
  }

  lemma OwnedTable(t: Tables, d: nat, owner: map<nat, Role>, i: nat)
    requires Owned(t, d, owner) && TableOf(t, d, i) != 0
    ensures TableOf(t, d, i) in t && TableOf(t, d, i) in owner && owner[TableOf(t, d, i)] == Table(i)
    ensures TableOf(t, d, i) != d && i < NENT
    ensures forall j :: 0 <= j && j != i ==> TableOf(t, d, j) != TableOf(t, d, i)
  {
    assert At(t, d, Table(i)) == TableOf(t, d, i) && At(t, d, Dir) == d;
    forall j | 0 <= j && j != i ensures TableOf(t, d, j) != TableOf(t, d, i) {
      assert At(t, d, Table(j)) == TableOf(t, d, j);
    }
  }

  // ----- walkpgdir's new table -----

  function AddTable(t: Tables, d: nat, i: nat, f: nat, flags: nat): Tables
    requires d in t
  {
    var entries: map<nat, Pte> := t[d][i := Pte(f, flags)];
    t[f := map[]][d := entries]
  }

  lemma AddTableLook(t: Tables, d: nat, owner: map<nat, Role>, i: nat, f: nat, flags: nat, v: nat)
    requires Owned(t, d, owner) && i < NENT && TableOf(t, d, i) == 0 && f != 0 && f !in owner
    ensures Look(AddTable(t, d, i, f, flags), d, v) == Look(t, d, v)
    ensures TableOf(AddTable(t, d, i, f, flags), d, v) == if v == i then f else TableOf(t, d, v)
  {
    assert At(t, d, Dir) == d;
    if TableOf(t, d, v / NENT) != 0 {
      OwnedTable(t, d, owner, v / NENT);
    }
  }

  lemma AddTableOwned(t: Tables, d: nat, owner: map<nat, Role>, i: nat, f: nat, flags: nat)
    requires Owned(t, d, owner) && i < NENT && TableOf(t, d, i) == 0 && f != 0 && f !in owner
    ensures Owned(AddTable(t, d, i, f, flags), d, owner[f := Table(i)])
  {
    var t', o := AddTable(t, d, i, f, flags), owner[f := Table(i)];
    assert At(t, d, Dir) == d;
    forall r ensures At(t', d, r) == if r == Table(i) then f else At(t, d, r) {
      match r
      case Dir =>
      case Table(j) => AddTableLook(t, d, owner, i, f, flags, j);
      case User(v) => AddTableLook(t, d, owner, i, f, flags, v);
    }
    forall v | 0 <= v < USERTOP && Look(t', d, v).To? ensures Look(t', d, v).frame != 0 {
      AddTableLook(t, d, owner, i, f, flags, v);
    }
    forall j | j in t'[d] ensures j < NENT && t'[d][j].frame != 0 && t'[d][j].frame in t' {
      assert j != i ==> j in t[d];
    }
    forall j, k | j in t'[d] && k in t'[t'[d][j].frame] ensures k < NENT {
      if j != i {
        assert At(t, d, Table(j)) == t[d][j].frame;
      }
    }
  }

  // ----- Setting and clearing an entry -----

  function SetPte(t: Tables, p: nat, k: nat, e: Pte): Tables
    requires p in t
  {
    var entries: map<nat, Pte> := t[p][k := e];
    t[p := entries]
  }

  function ClearPte(t: Tables, p: nat, k: nat): Tables
    requires p in t
  {
    var entries: map<nat, Pte> := t[p] - {k};
    t[p := entries]
  }

  /** Only the page of the entry changes its mapping. */
  lemma SetPteLook(t: Tables, d: nat, owner: map<nat, Role>, v: nat, e: Pte, u: nat)
    requires Owned(t, d, owner) && TableOf(t, d, v / NENT) != 0
    ensures TableOf(t, d, v / NENT) in t
    ensures var p := TableOf(t, d, v / NENT);
            && Look(SetPte(t, p, v % NENT, e), d, u) == (if u == v then To(e.frame, e.flags) else Look(t, d, u))
            && Look(ClearPte(t, p, v % NENT), d, u) == (if u == v then Unmapped else Look(t, d, u))
            && TableOf(SetPte(t, p, v % NENT, e), d, u) == TableOf(t, d, u)
            && TableOf(ClearPte(t, p, v % NENT), d, u) == TableOf(t, d, u)
  {
    OwnedTable(t, d, owner, v / NENT);
    if u != v && u / NENT == v / NENT {
      assert u % NENT != v % NENT;
    }
  }

  lemma SetWellFormed(t: Tables, d: nat, owner: map<nat, Role>, v: nat, e: Pte)
    requires Owned(t, d, owner) && TableOf(t, d, v / NENT) != 0
    ensures TableOf(t, d, v / NENT) in t
    ensures WellFormed(SetPte(t, TableOf(t, d, v / NENT), v % NENT, e), d)
    ensures WellFormed(ClearPte(t, TableOf(t, d, v / NENT), v % NENT), d)
  {
    OwnedTable(t, d, owner, v / NENT);
  }

  lemma SetUserOwned(t: Tables, d: nat, owner: map<nat, Role>, v: nat, e: Pte)
    requires Owned(t, d, owner) && TableOf(t, d, v / NENT) != 0 && v < USERTOP && Look(t, d, v).Unmapped?
    requires e.frame != 0 && e.frame !in owner
    ensures TableOf(t, d, v / NENT) in t
    ensures Owned(SetPte(t, TableOf(t, d, v / NENT), v % NENT, e), d, owner[e.frame := User(v)])
  {
    SetWellFormed(t, d, owner, v, e);
    var t' := SetPte(t, TableOf(t, d, v / NENT), v % NENT, e);
    forall r ensures At(t', d, r) == if r == User(v) then e.frame else At(t, d, r) {
      match r
      case Dir =>
      case Table(j) => SetPteLook(t, d, owner, v, e, j);
      case User(u) => SetPteLook(t, d, owner, v, e, u);
    }
    forall u | 0 <= u < USERTOP && Look(t', d, u).To? ensures Look(t', d, u).frame != 0 {
      SetPteLook(t, d, owner, v, e, u);
    }
  }

  lemma SetKernelOwned(t: Tables, d: nat, owner: map<nat, Role>, v: nat, e: Pte)
    requires Owned(t, d, owner) && TableOf(t, d, v / NENT) != 0 && v >= USERTOP
    ensures TableOf(t, d, v / NENT) in t
    ensures Owned(SetPte(t, TableOf(t, d, v / NENT), v % NENT, e), d, owner)
  {
    SetWellFormed(t, d, owner, v, e);
    var t' := SetPte(t, TableOf(t, d, v / NENT), v % NENT, e);
    forall r ensures At(t', d, r) == At(t, d, r) {
      match r
      case Dir =>
      case Table(j) => SetPteLook(t, d, owner, v, e, j);
      case User(u) => SetPteLook(t, d, owner, v, e, u);
    }
    forall u | 0 <= u < USERTOP && Look(t', d, u).To? ensures Look(t', d, u).frame != 0 {
      SetPteLook(t, d, owner, v, e, u);
    }
  }

  lemma ClearUserOwned(t: Tables, d: nat, owner: map<nat, Role>, v: nat)
    requires Owned(t, d, owner) && TableOf(t, d, v / NENT) != 0 && v < USERTOP && Look(t, d, v).To?
    ensures TableOf(t, d, v / NENT) in t && Look(t, d, v).frame in owner
    ensures Owned(ClearPte(t, TableOf(t, d, v / NENT), v % NENT), d, owner - {Look(t, d, v).frame})
  {
    var f := Look(t, d, v).frame;
    assert At(t, d, User(v)) == f;
    SetWellFormed(t, d, owner, v, Pte(0, 0));
    var t' := ClearPte(t, TableOf(t, d, v / NENT), v % NENT);
    forall r ensures At(t', d, r) == if r == User(v) then 0 else At(t, d, r) {
      match r
      case Dir =>
      case Table(j) => SetPteLook(t, d, owner, v, Pte(0, 0), j);
      case User(u) => SetPteLook(t, d, owner, v, Pte(0, 0), u);
    }
    forall u | 0 <= u < USERTOP && Look(t', d, u).To? ensures Look(t', d, u).frame != 0 {
      SetPteLook(t, d, owner, v, Pte(0, 0), u);
    }
  }

  /** A user frame given back is no table of the space. */
  lemma DropFrameLook(t: Tables, d: nat, owner: map<nat, Role>, f: nat, u: nat)
    requires Owned(t, d, owner) && f in owner && owner[f].User?
    ensures Look(t - {f}, d, u) == Look(t, d, u) && TableOf(t - {f}, d, u) == TableOf(t, d, u)
  {
    assert At(t, d, Dir) == d;
    if TableOf(t, d, u / NENT) != 0 {
      OwnedTable(t, d, owner, u / NENT);
    }
  }

  lemma DropFrameOwned(t: Tables, d: nat, owner: map<nat, Role>, f: nat)
    requires Owned(t, d, owner) && f in owner && owner[f].User?
    ensures Owned(t - {f}, d, owner)
  {
    var t' := t - {f};
    assert At(t, d, Dir) == d;
    forall r ensures At(t', d, r) == At(t, d, r) {
      match r
      case Dir =>
      case Table(j) => DropFrameLook(t, d, owner, f, j);
      case User(u) => DropFrameLook(t, d, owner, f, u);
    }
    forall i | i in t[d] ensures t[d][i].frame != f {
      assert TableOf(t, d, i) == t[d][i].frame;
      OwnedTable(t, d, owner, i);
    }
    forall u | 0 <= u < USERTOP && Look(t', d, u).To? ensures Look(t', d, u).frame != 0 {
      DropFrameLook(t, d, owner, f, u);
    }
  }

  /** deallocuvm on one mapped page. */
  lemma FreeUser(t: Tables, d: nat, owner: map<nat, Role>, v: nat)
    requires Owned(t, d, owner) && v < USERTOP && Look(t, d, v).To?
    ensures var f, p := Look(t, d, v).frame, TableOf(t, d, v / NENT);
            && f in owner && owner[f] == User(v) && p in t && p != f && p in owner
            && Owned(ClearPte(t - {f}, p, v % NENT), d, owner - {f})
            && forall u :: Look(ClearPte(t - {f}, p, v % NENT), d, u) == if u == v then Unmapped else Look(t, d, u)
  {
    hide Owned, Look;
    var f, p := Look(t, d, v).frame, TableOf(t, d, v / NENT);
    UserRole(t, d, owner, v);
    OwnedTable(t, d, owner, v / NENT);
    DropFrameOwned(t, d, owner, f);
    forall u ensures Look(t - {f}, d, u) == Look(t, d, u) && TableOf(t - {f}, d, u) == TableOf(t, d, u) {
      DropFrameLook(t, d, owner, f, u);
    }
    assert TableOf(t - {f}, d, v / NENT) == p;
    ClearUserOwned(t - {f}, d, owner, v);
    forall u ensures Look(ClearPte(t - {f}, p, v % NENT), d, u) == if u == v then Unmapped else Look(t, d, u) {
      SetPteLook(t - {f}, d, owner, v, Pte(0, 0), u);
    }
  }

  lemma UserRole(t: Tables, d: nat, owner: map<nat, Role>, v: nat)
    requires Owned(t, d, owner) && v < USERTOP && Look(t, d, v).To?
    ensures Look(t, d, v).frame in owner && owner[Look(t, d, v).frame] == User(v) && TableOf(t, d, v / NENT) != 0
  {
    assert At(t, d, User(v)) == Look(t, d, v).frame;
  }

  /** A space whose own frames are untouched is the same space. */
  lemma SameSpace(t: Tables, d: nat, owner: map<nat, Role>, t': Tables)
    requires Owned(t, d, owner) && forall f :: f in owner && f in t ==> f in t' && t'[f] == t[f]
    ensures Owned(t', d, owner) && forall u :: Look(t', d, u) == Look(t, d, u)
  {
    assert At(t, d, Dir) == d;
    forall i: nat ensures TableOf(t', d, i) == TableOf(t, d, i) {}
    forall u: nat ensures Look(t', d, u) == Look(t, d, u) {
      if TableOf(t, d, u / NENT) != 0 {
        OwnedTable(t, d, owner, u / NENT);
      }
    }
    forall r ensures At(t', d, r) == At(t, d, r) {}
    forall i | i in t'[d] ensures i < NENT && t'[d][i].frame != 0 && t'[d][i].frame in t' && t'[t'[d][i].frame] == t[t[d][i].frame] {
      assert TableOf(t, d, i) == t[d][i].frame;
      OwnedTable(t, d, owner, i);
    }
  }

  lemma NewSpace(t: Tables, d: nat, t': Tables)
    requires d != 0 && t' == t[d := map[]]
    ensures Owned(t', d, map[d := Dir]) && forall u: nat :: Look(t', d, u) == Unmapped
  {
    forall i ensures TableOf(t', d, i) == 0 {}
    forall r ensures At(t', d, r) == if r == Dir then d else 0 {}
  }

  // ----- Counting tables -----

  /** Tables it takes before page v can be mapped. */
  function Short(t: Tables, d: nat, v: nat): nat {
    if TableOf(t, d, v / NENT) == 0 then 1 else 0
  }

  /** The tables that pages lo up to hi need and the directory lacks. */
  ghost function Missing(t: Tables, d: nat, lo: nat, hi: nat): set<nat> {
    set i | 0 <= i < hi && lo < hi && lo / NENT <= i <= (hi - 1) / NENT && TableOf(t, d, i) == 0
  }

  /** The tables present now are those before and the new ones. */
  ghost predicate Gained(t: Tables, t': Tables, d: nat, more: set<nat>) {
    forall i: nat :: TableOf(t', d, i) != 0 <==> TableOf(t, d, i) != 0 || i in more
  }

  lemma GainedNone(t: Tables, d: nat)
    ensures Gained(t, t, d, {})
  {
  }

  lemma MissingNone(t: Tables, d: nat, lo: nat)
    ensures Missing(t, d, lo, lo) == {}
  {
  }

  /** One page more needs its table if it is still not there. */
  lemma MissingNext(t: Tables, t': Tables, d: nat, lo: nat, v: nat)
    requires lo <= v && Gained(t, t', d, Missing(t, d, lo, v))
    ensures Short(t', d, v) == 1 ==> v / NENT !in Missing(t, d, lo, v)
    ensures Missing(t, d, lo, v + 1) == Missing(t, d, lo, v) + (if Short(t', d, v) == 1 then {v / NENT} else {})
    ensures |Missing(t, d, lo, v + 1)| == |Missing(t, d, lo, v)| + Short(t', d, v)
  {
    var was, now := Missing(t, d, lo, v), Missing(t, d, lo, v + 1);
    forall i ensures i in now <==> i in was || (i == v / NENT && Short(t', d, v) == 1) {
      MissingAt(t, d, lo, v, i);
    }
    assert now == was + (if Short(t', d, v) == 1 then {v / NENT} else {});
  }

  lemma MissingAt(t: Tables, d: nat, lo: nat, v: nat, i: int)
    requires lo <= v
    ensures i in Missing(t, d, lo, v + 1) <==> i in Missing(t, d, lo, v) || (i == v / NENT && TableOf(t, d, v / NENT) == 0)
  {
    if v > lo {
      assert (v - 1) / NENT <= v / NENT <= (v - 1) / NENT + 1;
    }
  }

  lemma {:induction false} MissingGrows(t: Tables, d: nat, lo: nat, mid: nat, hi: nat)
    requires lo <= mid <= hi
    ensures Missing(t, d, lo, mid) <= Missing(t, d, lo, hi) && |Missing(t, d, lo, mid)| <= |Missing(t, d, lo, hi)|
  {
    var a, b := Missing(t, d, lo, mid), Missing(t, d, lo, hi);
    forall i | i in a ensures i in b {
      assert (mid - 1) / NENT <= (hi - 1) / NENT;
    }
    assert b == a + (b - a);
  }

  lemma GainedSame(t: Tables, t1: Tables, t2: Tables, d: nat, more: set<nat>)
    requires Gained(t, t1, d, more) && forall i: nat :: TableOf(t2, d, i) == TableOf(t1, d, i)
    ensures Gained(t, t2, d, more)
  {
  }

  lemma GainedTable(t: Tables, d: nat, owner: map<nat, Role>, i: nat, f: nat, flags: nat)
    requires Owned(t, d, owner) && i < NENT && TableOf(t, d, i) == 0 && f != 0 && f !in owner
    ensures Gained(t, AddTable(t, d, i, f, flags), d, {i})
  {
    forall j: nat ensures TableOf(AddTable(t, d, i, f, flags), d, j) == if j == i then f else TableOf(t, d, j) {
      AddTableLook(t, d, owner, i, f, flags, j);
    }
  }

  lemma GainedMore(t: Tables, t1: Tables, t2: Tables, d: nat, a: set<nat>, b: set<nat>)
    requires Gained(t, t1, d, a) && Gained(t1, t2, d, b)
    ensures Gained(t, t2, d, a + b)
  {
  }

  /** The table page v brings, if it is not there. */
  ghost function Extra(t: Tables, d: nat, v: nat): set<nat> {
    if Short(t, d, v) == 1 then {v / NENT} else {}
  }

  /** How many tables pages lo up to hi need and the directory lacks. */
  ghost function Need(t: Tables, d: nat, lo: nat, hi: nat): nat { |Missing(t, d, lo, hi)| }

  /** From t to t' exactly the tables for pages lo up to hi were added. */
  ghost predicate Filled(t: Tables, t': Tables, d: nat, lo: nat, hi: nat) {
    Gained(t, t', d, Missing(t, d, lo, hi))
  }

  lemma FilledNone(t: Tables, d: nat, lo: nat)
    ensures Filled(t, t, d, lo, lo) && Need(t, d, lo, lo) == 0
  {
    MissingNone(t, d, lo);
  }

  lemma FilledNext(t: Tables, t1: Tables, t2: Tables, d: nat, lo: nat, v: nat)
    requires lo <= v && Filled(t, t1, d, lo, v)
    ensures Need(t, d, lo, v + 1) == Need(t, d, lo, v) + Short(t1, d, v)
    ensures Gained(t1, t2, d, Extra(t1, d, v)) ==> Filled(t, t2, d, lo, v + 1)
  {
    MissingNext(t, t1, d, lo, v);
    if Gained(t1, t2, d, Extra(t1, d, v)) {
      GainedMore(t, t1, t2, d, Missing(t, d, lo, v), Extra(t1, d, v));
    }
  }

  lemma NeedGrows(t: Tables, d: nat, lo: nat, mid: nat, hi: nat)
    requires lo <= mid <= hi
    ensures Need(t, d, lo, mid) <= Need(t, d, lo, hi)
  {
    MissingGrows(t, d, lo, mid, hi);
  }

  /** A range can be filled in two steps, and the tables add up. */
  lemma FilledTwice(t: Tables, t1: Tables, t2: Tables, d: nat, lo: nat, mid: nat, hi: nat)
    requires lo <= mid <= hi && Filled(t, t1, d, lo, mid)
    ensures Need(t, d, lo, hi) == Need(t, d, lo, mid) + Need(t1, d, mid, hi)
    ensures Filled(t1, t2, d, mid, hi) ==> Filled(t, t2, d, lo, hi)
  {
    var a, b, c := Missing(t, d, lo, mid), Missing(t1, d, mid, hi), Missing(t, d, lo, hi);
    forall i: nat ensures i in c <==> i in a || i in b {
      MissingSplit(t, d, lo, mid, hi, i);
      assert TableOf(t1, d, i) != 0 <==> TableOf(t, d, i) != 0 || i in a;
    }
    assert a !! b;
    assert c == a + b;
    if Filled(t1, t2, d, mid, hi) {
      GainedMore(t, t1, t2, d, a, b);
    }
  }

  lemma MissingSplit(t: Tables, d: nat, lo: nat, mid: nat, hi: nat, i: nat)
    requires lo <= mid <= hi
    ensures i in Missing(t, d, lo, hi) <==> i in Missing(t, d, lo, mid) || i in Missing(t, d, mid, hi)
  {
    if lo < mid < hi {
      assert (mid - 1) / NENT <= mid / NENT <= (mid - 1) / NENT + 1;
      assert lo / NENT <= (mid - 1) / NENT && mid / NENT <= (hi - 1) / NENT;
    }
  }

  /** With none of its tables there, a range needs one for each NENT pages it touches. */
  lemma NeedAll(t: Tables, d: nat, lo: nat, hi: nat)
    requires forall i: nat :: lo / NENT <= i < (hi + NENT - 1) / NENT ==> TableOf(t, d, i) == 0
    ensures lo < hi ==> Need(t, d, lo, hi) == (hi + NENT - 1) / NENT - lo / NENT
  {
    if lo < hi {
      assert (hi - 1) / NENT + 1 == (hi + NENT - 1) / NENT;
      Between(Missing(t, d, lo, hi), lo / NENT, (hi - 1) / NENT + 1);
    }
  }

  lemma {:induction false} Between(s: set<nat>, lo: nat, hi: nat)
    requires lo <= hi && forall i: nat :: i in s <==> lo <= i < hi
    ensures |s| == hi - lo
  {
    if lo < hi {
      Between(s - {hi - 1}, lo, hi - 1);
      assert s == s - {hi - 1} + {hi - 1};
    } else {
      assert s == {};
    }
  }
}
