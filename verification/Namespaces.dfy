/** namespace.c, pid_namespace.c and the namespace parts of fork, exit and wait
    in proc.c: reference counts of namespace proxies and of PID namespaces, and
    the chain of namespaces in which a new process gets a PID.  A call runs
    alone; a pointer is a table index, -1 is null.
 */
module Namespaces {
  const NNAMESPACE := 10
  const MAX_DEPTH := 4
  const NULL := -1

  datatype Proxy = Proxy(count: int, pidNs: int)
  datatype Space = Space(count: int, parent: int, nextPid: int, depth: int)
  datatype Status = Unused | Live | Zombie
  datatype Proc = Proc(status: Status, nsproxy: int, child: int, pids: seq<(int, int)>)

  // ----- Who holds what -----

  function ProxyKey(q: Proc): int { if q.status.Live? then q.nsproxy else NULL }

  function ChildKey(q: Proc): int { if q.status.Live? then q.child else NULL }

  function SpaceKey(x: Proxy): int { if x.count > 0 then x.pidNs else NULL }

  ghost function ProxyUses(procs: seq<Proc>): (s: seq<int>)
    ensures |s| == |procs| && forall i {:trigger s[i]} :: 0 <= i < |s| ==> s[i] == ProxyKey(procs[i])
  {
    seq(|procs|, i requires 0 <= i < |procs| => ProxyKey(procs[i]))
  }

  ghost function ChildUses(procs: seq<Proc>): (s: seq<int>)
    ensures |s| == |procs| && forall i {:trigger s[i]} :: 0 <= i < |s| ==> s[i] == ChildKey(procs[i])
  {
    seq(|procs|, i requires 0 <= i < |procs| => ChildKey(procs[i]))
  }

  ghost function SpaceUses(proxies: seq<Proxy>): (s: seq<int>)
    ensures |s| == |proxies| && forall i {:trigger s[i]} :: 0 <= i < |s| ==> s[i] == SpaceKey(proxies[i])
  {
    seq(|proxies|, i requires 0 <= i < |proxies| => SpaceKey(proxies[i]))
  }

  /** How many live processes use proxy x. */
  ghost function Users(procs: seq<Proc>, x: int): nat { multiset(ProxyUses(procs))[x] }

  /** How many live proxies hold PID namespace n, and live processes name it for their children. */
  ghost function Holders(procs: seq<Proc>, proxies: seq<Proxy>, n: int): nat {
    multiset(SpaceUses(proxies))[n] + multiset(ChildUses(procs))[n]
  }

  function One(b: bool): int { if b then 1 else 0 }

  lemma Recount(s: seq<int>, t: seq<int>, i: nat, v: int, x: int)
    requires i < |s| && t == s[i := v]
    ensures multiset(t)[x] == multiset(s)[x] - One(s[i] == x) + One(v == x)
  {
  }

  /** Changing one process changes the counts by its own share. */
  lemma ProcChange(procs: seq<Proc>, p: nat, q: Proc, x: int)
    requires p < |procs|
    ensures Users(procs[p := q], x) == Users(procs, x) - One(ProxyKey(procs[p]) == x) + One(ProxyKey(q) == x)
    ensures multiset(ChildUses(procs[p := q]))[x] == multiset(ChildUses(procs))[x] - One(ChildKey(procs[p]) == x) + One(ChildKey(q) == x)
  {
    Recount(ProxyUses(procs), ProxyUses(procs[p := q]), p, ProxyKey(q), x);
    Recount(ChildUses(procs), ChildUses(procs[p := q]), p, ChildKey(q), x);
  }

  lemma ProxyChange(proxies: seq<Proxy>, x: nat, y: Proxy, n: int)
    requires x < |proxies|
    ensures multiset(SpaceUses(proxies[x := y]))[n]
         == multiset(SpaceUses(proxies))[n] - One(SpaceKey(proxies[x]) == n) + One(SpaceKey(y) == n)
  {
    Recount(SpaceUses(proxies), SpaceUses(proxies[x := y]), x, SpaceKey(y), n);
  }

  lemma BothChange(procs: seq<Proc>, proxies: seq<Proxy>, p: nat, q: Proc, x: nat, y: Proxy, k: int)
    requires p < |procs| && x < |proxies|
    ensures Users(procs[p := q], k) == Users(procs, k) - One(ProxyKey(procs[p]) == k) + One(ProxyKey(q) == k)
    ensures Holders(procs[p := q], proxies[x := y], k)
         == Holders(procs, proxies, k) - One(SpaceKey(proxies[x]) == k) + One(SpaceKey(y) == k)
            - One(ChildKey(procs[p]) == k) + One(ChildKey(q) == k)
  {
    ProcChange(procs, p, q, k);
    ProxyChange(proxies, x, y, k);
  }

  /** Counts that follow the change of one process and one proxy are right. */
  lemma CountsFollow(procs: seq<Proc>, proxies: seq<Proxy>, spaces: seq<Space>, p: nat, q: Proc, x: nat, y: Proxy, spaces': seq<Space>)
    requires CountsOk(procs, proxies, spaces) && p < |procs| && x < NNAMESPACE && |spaces'| == NNAMESPACE
    requires forall k :: 0 <= k < NNAMESPACE ==>
               proxies[x := y][k].count == proxies[k].count - One(ProxyKey(procs[p]) == k) + One(ProxyKey(q) == k)
    requires forall k :: 0 <= k < NNAMESPACE ==>
               spaces'[k].count == spaces[k].count - One(SpaceKey(proxies[x]) == k) + One(SpaceKey(y) == k)
                                   - One(ChildKey(procs[p]) == k) + One(ChildKey(q) == k)
    ensures CountsOk(procs[p := q], proxies[x := y], spaces')
  {
    var procs', proxies' := procs[p := q], proxies[x := y];
    forall k | 0 <= k < NNAMESPACE ensures proxies'[k].count == Users(procs', k) && spaces'[k].count == Holders(procs', proxies', k) {
      BothChange(procs, proxies, p, q, x, y, k);
      assert proxies[k].count == Users(procs, k) && spaces[k].count == Holders(procs, proxies, k);
      assert proxies'[k].count == proxies[k].count - One(ProxyKey(procs[p]) == k) + One(ProxyKey(q) == k);
    }
    assert |proxies'| == |spaces'| == NNAMESPACE;
    assert forall k :: 0 <= k < NNAMESPACE ==> proxies'[k].count == Users(procs', k);
    assert forall k :: 0 <= k < NNAMESPACE ==> spaces'[k].count == Holders(procs', proxies', k);
  }

  /** Someone counted is somewhere. */
  lemma Counted(procs: seq<Proc>, p: nat)
    requires p < |procs| && procs[p].status.Live?
    ensures Users(procs, procs[p].nsproxy) >= 1 && multiset(ChildUses(procs))[procs[p].child] >= 1
  {
    assert ProxyUses(procs)[p] in multiset(ProxyUses(procs));
    assert ChildUses(procs)[p] in multiset(ChildUses(procs));
  }

  lemma Held(proxies: seq<Proxy>, x: nat)
    requires x < |proxies| && proxies[x].count > 0
    ensures multiset(SpaceUses(proxies))[proxies[x].pidNs] >= 1
  {
    assert SpaceUses(proxies)[x] in multiset(SpaceUses(proxies));
  }

  // ----- What each call does to the tables -----

  /** The first unused proxy, or the number of slots if there is none. */
  function FreeProxy(proxies: seq<Proxy>): (x: nat)
    ensures x <= |proxies| && (forall k :: 0 <= k < x ==> proxies[k].count != 0) && (x < |proxies| ==> proxies[x].count == 0)
  {
    if proxies == [] || proxies[0].count == 0 then 0 else 1 + FreeProxy(proxies[1..])
  }

  /** The first unused PID namespace, likewise. */
  function FreeSpace(spaces: seq<Space>): (i: nat)
    ensures i <= |spaces| && (forall k :: 0 <= k < i ==> spaces[k].count != 0) && (i < |spaces| ==> spaces[i].count == 0)
  {
    if spaces == [] || spaces[0].count == 0 then 0 else 1 + FreeSpace(spaces[1..])
  }

  /** k more holders of namespace n. */
  function Hold(spaces: seq<Space>, n: int, k: int): seq<Space> {
    if 0 <= n < |spaces| then spaces[n := spaces[n].(count := spaces[n].count + k)] else spaces
  }

  function SpaceOf(proxies: seq<Proxy>, x: int): int {
    if 0 <= x < |proxies| then proxies[x].pidNs else NULL
  }

  /** The proxies with one user of x less. */
  function Put(proxies: seq<Proxy>, x: int): seq<Proxy> {
    if !(0 <= x < |proxies|) then proxies
    else proxies[x := if proxies[x].count > 1 then proxies[x].(count := proxies[x].count - 1) else Proxy(0, NULL)]
  }

  /** The namespaces then: the last user gives the proxy's back. */
  function PutHold(proxies: seq<Proxy>, spaces: seq<Space>, x: int): seq<Space> {
    if 0 <= x < |proxies| then Hold(spaces, proxies[x].pidNs, -One(proxies[x].count == 1)) else spaces
  }

  /** The tables but for the PIDs given out. */
  datatype Shape = Shape(procs: seq<Proc>, proxies: seq<Proxy>, spaces: seq<Space>)

  ghost function BareProcs(procs: seq<Proc>): (s: seq<Proc>)
    ensures |s| == |procs| && forall i {:trigger s[i]} :: 0 <= i < |s| ==> s[i] == procs[i].(pids := [])
  {
    seq(|procs|, i requires 0 <= i < |procs| => procs[i].(pids := []))
  }

  ghost function BareSpaces(spaces: seq<Space>): (s: seq<Space>)
    ensures |s| == |spaces| && forall i {:trigger s[i]} :: 0 <= i < |s| ==> s[i] == spaces[i].(nextPid := 0)
  {
    seq(|spaces|, i requires 0 <= i < |spaces| => spaces[i].(nextPid := 0))
  }

  ghost function ShapeOf(procs: seq<Proc>, proxies: seq<Proxy>, spaces: seq<Space>): (s: Shape)
    ensures |s.procs| == |procs| && s.proxies == proxies && |s.spaces| == |spaces|
    ensures forall i {:trigger s.procs[i]} :: 0 <= i < |procs| ==> s.procs[i] == procs[i].(pids := [])
  {
    Shape(BareProcs(procs), proxies, BareSpaces(spaces))
  }

  ghost function ExitOf(s: Shape, p: nat): Shape
    requires p < |s.procs|
  {
    var q := s.procs[p];
    Shape(s.procs[p := q.(status := Zombie)], Put(s.proxies, q.nsproxy),
          Hold(PutHold(s.proxies, s.spaces, q.nsproxy), q.child, -1))
  }

  /** A proxy of its own on the same namespace. */
  ghost function OwnProxyOf(s: Shape, p: nat): Shape
    requires p < |s.procs| && FreeProxy(s.proxies) < |s.proxies|
  {
    var x, w := FreeProxy(s.proxies), s.procs[p].nsproxy;
    var n := SpaceOf(s.proxies, w);
    Shape(s.procs[p := s.procs[p].(nsproxy := x)], Put(s.proxies[x := Proxy(1, n)], w), PutHold(s.proxies, Hold(s.spaces, n, 1), w))
  }

  /** A namespace for its children in the first unused slot. */
  ghost function NewChildOf(s: Shape, p: nat): Shape
    requires CanNewChild(s, p)
  {
    var i, n := FreeSpace(s.spaces), SpaceOf(s.proxies, s.procs[p].nsproxy);
    s.(procs := s.procs[p := s.procs[p].(child := i)], spaces := s.spaces[i := Space(1, n, 0, s.spaces[n].depth + 1)])
  }

  /** A child in the prepared namespace, with a new proxy, or under its parent's proxy. */
  ghost function ForkOf(s: Shape, p: nat, q: nat): Shape
    requires CanFork(s, p, q)
  {
    var c := s.procs[p].child;
    var x := if c != NULL then FreeProxy(s.proxies) else s.procs[p].nsproxy;
    Shape(s.procs[q := Proc(Live, x, NULL, [])],
          s.proxies[x := if c != NULL then Proxy(1, c) else s.proxies[x].(count := s.proxies[x].count + 1)],
          if c != NULL then Hold(s.spaces, c, 1) else s.spaces)
  }

  lemma FreeSpaceIs(spaces: seq<Space>, i: nat)
    requires i <= |spaces| && (forall k :: 0 <= k < i ==> spaces[k].count != 0) && (i < |spaces| ==> spaces[i].count == 0)
    ensures FreeSpace(spaces) == i
  {
  }

  lemma FreeProxyIs(proxies: seq<Proxy>, x: nat)
    requires x <= |proxies| && (forall k :: 0 <= k < x ==> proxies[k].count != 0) && (x < |proxies| ==> proxies[x].count == 0)
    ensures FreeProxy(proxies) == x
  {
  }

  /** Where the next PID stands does not matter to any of this. */
  lemma BareFacts(spaces: seq<Space>, n: int, k: int)
    ensures BareSpaces(Hold(spaces, n, k)) == Hold(BareSpaces(spaces), n, k)
    ensures FreeSpace(BareSpaces(spaces)) == FreeSpace(spaces)
  {
    FreeSpaceIs(BareSpaces(spaces), FreeSpace(spaces));
  }

  lemma {:induction false} BarePut(proxies: seq<Proxy>, spaces: seq<Space>, x: int)
    ensures BareSpaces(PutHold(proxies, spaces, x)) == PutHold(proxies, BareSpaces(spaces), x)
  {
    hide Hold, BareSpaces;
    if 0 <= x < |proxies| {
      BareFacts(spaces, proxies[x].pidNs, -One(proxies[x].count == 1));
    }
  }

  lemma {:induction false} ExitShape(procs: seq<Proc>, proxies: seq<Proxy>, spaces: seq<Space>, p: nat, spaces': seq<Space>)
    requires p < |procs| && spaces' == Hold(PutHold(proxies, spaces, procs[p].nsproxy), procs[p].child, -1)
    ensures ShapeOf(procs[p := procs[p].(status := Zombie)], Put(proxies, procs[p].nsproxy), spaces')
         == ExitOf(ShapeOf(procs, proxies, spaces), p)
  {
    hide Hold, Put, PutHold, BareSpaces;
    BareUpdate(procs, [], p, procs[p].(status := Zombie), 0, Space(0, NULL, 0, 0));
    BareFacts(PutHold(proxies, spaces, procs[p].nsproxy), procs[p].child, -1);
    BarePut(proxies, spaces, procs[p].nsproxy);
  }

  lemma {:induction false} OwnProxyShape(procs: seq<Proc>, proxies: seq<Proxy>, spaces: seq<Space>, p: nat, proxies': seq<Proxy>, spaces': seq<Space>)
    requires p < |procs| && FreeProxy(proxies) < |proxies| && 0 <= procs[p].nsproxy < |proxies| && FreeProxy(proxies) != procs[p].nsproxy
    requires var x, w := FreeProxy(proxies), procs[p].nsproxy;
             && proxies' == Put(proxies[x := Proxy(1, proxies[w].pidNs)], w)
             && spaces' == PutHold(proxies[x := Proxy(1, proxies[w].pidNs)], Hold(spaces, proxies[w].pidNs, 1), w)
    ensures ShapeOf(procs[p := procs[p].(nsproxy := FreeProxy(proxies))], proxies', spaces')
         == OwnProxyOf(ShapeOf(procs, proxies, spaces), p)
  {
    hide FreeProxy;
    var x, w := FreeProxy(proxies), procs[p].nsproxy;
    var n := proxies[w].pidNs;
    var s := ShapeOf(procs, proxies, spaces);
    assert s.procs[p].nsproxy == w && SpaceOf(s.proxies, w) == n;
    BareUpdate(procs, [], p, procs[p].(nsproxy := x), 0, Space(0, NULL, 0, 0));
    BareFacts(spaces, n, 1);
    BarePut(proxies, Hold(spaces, n, 1), w);
    assert BareSpaces(spaces') == PutHold(proxies, Hold(BareSpaces(spaces), n, 1), w);
    var s' := ShapeOf(procs[p := procs[p].(nsproxy := x)], proxies', spaces');
    assert s'.procs == OwnProxyOf(s, p).procs && s'.proxies == OwnProxyOf(s, p).proxies;
  }

  lemma {:induction false} NewChildShape(procs: seq<Proc>, proxies: seq<Proxy>, spaces: seq<Space>, p: nat, i: nat, n: nat)
    requires p < |procs| && 0 <= procs[p].nsproxy < |proxies| && proxies[procs[p].nsproxy].pidNs == n < |spaces| && i == FreeSpace(spaces) < |spaces|
    ensures CanNewChild(ShapeOf(procs, proxies, spaces), p)
    ensures ShapeOf(procs[p := procs[p].(child := i)], proxies, spaces[i := Space(1, n, 1, spaces[n].depth + 1)])
         == NewChildOf(ShapeOf(procs, proxies, spaces), p)
  {
    hide FreeSpace;
    BareFacts(spaces, 0, 0);
    BareUpdate(procs, spaces, p, procs[p].(child := i), i, Space(1, n, 1, spaces[n].depth + 1));
  }

  lemma {:induction false} ForkShape(procs: seq<Proc>, proxies: seq<Proxy>, spaces: seq<Space>, p: nat, q: nat, x: nat, home: nat,
                  mid: seq<Space>, pids: seq<(int, int)>, spaces': seq<Space>)
    requires p < |procs| && q < |procs| && x < |proxies| && home < |spaces|
    requires x == if procs[p].child == NULL then procs[p].nsproxy else FreeProxy(proxies)
    requires if procs[p].child == NULL then proxies[x].count > 0 && home == proxies[x].pidNs else proxies[x].count == 0 && home == procs[p].child
    requires mid == spaces[home := spaces[home].(count := spaces[home].count + One(proxies[x].count == 0))]
    requires |spaces'| == |mid| && forall n :: 0 <= n < |mid| ==> spaces'[n] == mid[n].(nextPid := spaces'[n].nextPid)
    ensures CanFork(ShapeOf(procs, proxies, spaces), p, q)
    ensures ShapeOf(procs[q := Proc(Live, x, NULL, pids)], proxies[x := Proxy(proxies[x].count + 1, home)], spaces')
         == ForkOf(ShapeOf(procs, proxies, spaces), p, q)
  {
    hide FreeProxy;
    BareUpdate(procs, [], q, Proc(Live, x, NULL, pids), 0, Space(0, NULL, 0, 0));
    BareFacts(spaces, home, 1);
    assert BareSpaces(spaces') == BareSpaces(mid);
    assert procs[p].child == NULL ==> mid == spaces;
  }

  lemma BareUpdate(procs: seq<Proc>, spaces: seq<Space>, p: nat, q: Proc, i: nat, v: Space)
    ensures p < |procs| ==> BareProcs(procs[p := q]) == BareProcs(procs)[p := q.(pids := [])]
    ensures i < |spaces| ==> BareSpaces(spaces[i := v]) == BareSpaces(spaces)[i := v.(nextPid := 0)]
  {
  }

  // ----- Depths -----

  /** The parents of n lead to a root in as many steps as its depth says. */
  ghost predicate ChainOk(spaces: seq<Space>, n: int, depth: nat)
    decreases depth
  {
    && 0 <= n < |spaces| && depth > 0 && spaces[n].depth == depth
    && if depth == 1 then spaces[n].parent == NULL else ChainOk(spaces, spaces[n].parent, depth - 1)
  }

  /** The namespaces from n to its root. */
  ghost function Ancestry(spaces: seq<Space>, n: int, depth: nat): (a: seq<int>)
    requires ChainOk(spaces, n, depth)
    ensures |a| == depth && a[0] == n
    decreases depth
  {
    if depth == 1 then [n] else [n] + Ancestry(spaces, spaces[n].parent, depth - 1)
  }

  /** A change at a slot outside the chain, or that keeps parent and depth, leaves it alone. */
  lemma {:induction false} ChainStays(spaces: seq<Space>, spaces': seq<Space>, n: int, depth: nat)
    requires ChainOk(spaces, n, depth) && |spaces'| == |spaces|
    requires forall i :: i in Ancestry(spaces, n, depth) && 0 <= i < |spaces| ==>
               spaces'[i].parent == spaces[i].parent && spaces'[i].depth == spaces[i].depth
    ensures ChainOk(spaces', n, depth) && Ancestry(spaces', n, depth) == Ancestry(spaces, n, depth)
    decreases depth
  {
    assert n in Ancestry(spaces, n, depth);
    if depth > 1 {
      ChainStays(spaces, spaces', spaces[n].parent, depth - 1);
    }
  }

  /** A root within k steps of n. */
  predicate RootWithin(spaces: seq<Space>, n: int, k: nat)
    decreases k
  {
    k > 0 && 0 <= n < |spaces| && (spaces[n].parent == NULL || RootWithin(spaces, spaces[n].parent, k - 1))
  }

  lemma {:induction false} DepthBounds(spaces: seq<Space>, n: int, depth: nat, k: nat)
    requires ChainOk(spaces, n, depth) && depth <= k
    ensures RootWithin(spaces, n, k)
    decreases depth
  {
    if depth > 1 {
      DepthBounds(spaces, spaces[n].parent, depth - 1, k - 1);
    }
  }

  // ----- The invariant -----

  ghost predicate KeysOk(procs: seq<Proc>, proxies: seq<Proxy>, spaces: seq<Space>) {
    && |proxies| == |spaces| == NNAMESPACE
    && (forall p :: 0 <= p < |procs| && procs[p].status.Live? ==> 0 <= procs[p].nsproxy < NNAMESPACE && NULL <= procs[p].child < NNAMESPACE)
    && (forall x :: 0 <= x < NNAMESPACE && proxies[x].count > 0 ==> 0 <= proxies[x].pidNs < NNAMESPACE)
    && (forall n :: 0 <= n < NNAMESPACE ==> NULL <= spaces[n].parent < NNAMESPACE)
  }

  /** Every count is the number of holders. */
  ghost predicate CountsOk(procs: seq<Proc>, proxies: seq<Proxy>, spaces: seq<Space>) {
    && |proxies| == |spaces| == NNAMESPACE
    && (forall x :: 0 <= x < NNAMESPACE ==> proxies[x].count == Users(procs, x))
    && (forall n :: 0 <= n < NNAMESPACE ==> spaces[n].count == Holders(procs, proxies, n))
  }

  /** Namespaces in use are at most MAX_DEPTH deep, as their parents show. */
  ghost predicate DepthsOk(spaces: seq<Space>) {
    forall n :: 0 <= n < |spaces| && spaces[n].count > 0 ==> 1 <= spaces[n].depth <= MAX_DEPTH && ChainOk(spaces, n, spaces[n].depth)
  }

  /** No namespace in use has i among its ancestors. */
  ghost predicate NotNamed(spaces: seq<Space>, i: int)
    requires DepthsOk(spaces)
  {
    forall n :: 0 <= n < |spaces| && spaces[n].count > 0 ==> i !in Ancestry(spaces, n, spaces[n].depth)
  }

  /** A slot may be given to a namespace below one of that depth: no namespace in
      use has it among its ancestors, or its depth there stays what it was. */
  ghost predicate Harmless(spaces: seq<Space>, i: int, depth: int)
    requires DepthsOk(spaces) && 0 <= i < |spaces|
  {
    NotNamed(spaces, i) || depth + 1 == spaces[i].depth
  }

  /** The depth of the PID namespace a process is in. */
  function OwnDepth(procs: seq<Proc>, proxies: seq<Proxy>, spaces: seq<Space>, p: nat): int
    requires p < |procs|
  {
    var n := SpaceOf(proxies, procs[p].nsproxy);
    if 0 <= n < |spaces| then spaces[n].depth else 0
  }

  ghost predicate CanFork(s: Shape, p: nat, q: nat) {
    && p < |s.procs| && q < |s.procs|
    && if s.procs[p].child != NULL then FreeProxy(s.proxies) < |s.proxies| else 0 <= s.procs[p].nsproxy < |s.proxies|
  }

  ghost predicate CanNewChild(s: Shape, p: nat) {
    p < |s.procs| && FreeSpace(s.spaces) < |s.spaces| && 0 <= SpaceOf(s.proxies, s.procs[p].nsproxy) < |s.spaces|
  }

  class Tables {
    var procs: seq<Proc>
    var proxies: seq<Proxy>
    var spaces: seq<Space>

    ghost predicate Valid()
      reads this
    {
      KeysOk(procs, proxies, spaces) && CountsOk(procs, proxies, spaces)
    }

    ghost function View(): Shape
      reads this
    {
      ShapeOf(procs, proxies, spaces)
    }

    /** ns_init and userinit: the first process in a root namespace of its own. */
    constructor (nproc: nat)
      requires nproc > 0
      ensures Valid() && DepthsOk(spaces) && |procs| == nproc && procs[0] == Proc(Live, 0, NULL, [(0, 1)])
      ensures forall p :: 0 < p < nproc ==> procs[p] == Proc(Unused, NULL, NULL, [])
      ensures proxies[0] == Proxy(1, 0) && forall x :: 0 < x < NNAMESPACE ==> proxies[x] == Proxy(0, NULL)
      ensures spaces[0] == Space(1, NULL, 2, 1) && forall n :: 0 < n < NNAMESPACE ==> spaces[n] == Space(0, NULL, 0, 0)
    {
      var blank := Proc(Unused, NULL, NULL, []);
      procs := seq(nproc, _ => blank)[0 := Proc(Live, 0, NULL, [(0, 1)])];
      proxies := seq(NNAMESPACE, _ => Proxy(0, NULL))[0 := Proxy(1, 0)];
      spaces := seq(NNAMESPACE, _ => Space(0, NULL, 0, 0))[0 := Space(1, NULL, 2, 1)];
      new;
      BlankCounts(nproc, procs, proxies, spaces);
    }

    /** create_new_pid_namespace: the first unused slot. */
    method CreateNewPidNamespace(parent: int) returns (panic: bool, i: nat)
      requires |spaces| == NNAMESPACE && NULL <= parent < NNAMESPACE
      modifies this`spaces
      ensures panic <==> FreeSpace(old(spaces)) == NNAMESPACE
      ensures panic ==> spaces == old(spaces)
      ensures !panic ==> i == FreeSpace(old(spaces)) < NNAMESPACE
      ensures !panic ==> spaces == old(spaces)[i := Space(1, parent, 1, if parent == NULL then 1 else old(spaces)[parent].depth + 1)]
    {
      i := 0;
      while i < NNAMESPACE && spaces[i].count != 0
        invariant 0 <= i <= NNAMESPACE && forall k :: 0 <= k < i ==> spaces[k].count != 0
      {
        i := i + 1;
      }
      FreeSpaceIs(spaces, i);
      if i == NNAMESPACE {
        return true, 0;
      }
      spaces := spaces[i := Space(1, parent, 1, if parent == NULL then 1 else spaces[parent].depth + 1)];
      panic := false;
    }

    /** create_nsproxy, for a PID namespace or, given null, for a new root. */
    method CreateNsproxy(n: int) returns (panic: bool, x: nat)
      requires |proxies| == |spaces| == NNAMESPACE && NULL <= n < NNAMESPACE
      modifies this`proxies, this`spaces
      ensures panic <==> FreeProxy(old(proxies)) == NNAMESPACE || (n == NULL && FreeSpace(old(spaces)) == NNAMESPACE)
      ensures !panic ==> x == FreeProxy(old(proxies)) < NNAMESPACE
      ensures !panic ==> proxies == old(proxies)[x := Proxy(1, if n == NULL then FreeSpace(old(spaces)) else n)]
      ensures !panic && n != NULL ==> spaces == Hold(old(spaces), n, 1)
      ensures !panic && n == NULL ==> FreeSpace(old(spaces)) < NNAMESPACE && spaces == old(spaces)[FreeSpace(old(spaces)) := Space(1, NULL, 1, 1)]
    {
      x := 0;
      while x < NNAMESPACE && proxies[x].count != 0
        invariant 0 <= x <= NNAMESPACE && forall k :: 0 <= k < x ==> proxies[k].count != 0
      {
        x := x + 1;
      }
      FreeProxyIs(proxies, x);
      if x == NNAMESPACE {
        return true, 0;
      }
      panic := false;
      var home := n;
      proxies := proxies[x := Proxy(1, proxies[x].pidNs)];
      if n == NULL {
        panic, home := CreateNewPidNamespace(NULL);
      } else {
        spaces := spaces[n := spaces[n].(count := spaces[n].count + 1)];
      }
      proxies := proxies[x := Proxy(1, home)];
    }

    /** remove_from_pid_namespace */
    method RemoveFromPidNamespace(n: nat) returns (panic: bool)
      requires |spaces| == NNAMESPACE && n < NNAMESPACE
      modifies this`spaces
      ensures panic <==> old(spaces)[n].count <= 0
      ensures spaces == if panic then old(spaces) else Hold(old(spaces), n, -1)
    {
      spaces := spaces[n := spaces[n].(count := spaces[n].count - 1)];
      panic := spaces[n].count < 0;
      if panic {
        spaces := spaces[n := spaces[n].(count := spaces[n].count + 1)];
      }
    }

    /** put_nsproxy */
    method PutNsproxy(x: nat)
      requires |proxies| == |spaces| == NNAMESPACE && x < NNAMESPACE && proxies[x].count >= 1
      requires 0 <= proxies[x].pidNs < NNAMESPACE && spaces[proxies[x].pidNs].count >= 1
      modifies this`proxies, this`spaces
      ensures proxies == Put(old(proxies), x) && spaces == PutHold(old(proxies), old(spaces), x)
    {
      proxies := proxies[x := proxies[x].(count := proxies[x].count - 1)];
      if proxies[x].count == 0 {
        var panic := RemoveFromPidNamespace(proxies[x].pidNs);
        assert !panic;
        proxies := proxies[x := proxies[x].(pidNs := NULL)];
      }
    }

    /** exit, as far as namespaces go. */
    method Exit(p: nat)
      requires Valid() && p < |procs| && procs[p].status.Live?
      modifies this
      ensures Valid() && procs == old(procs)[p := old(procs)[p].(status := Zombie)]
      ensures View() == ExitOf(old(View()), p)
      ensures old(DepthsOk(spaces)) ==> DepthsOk(spaces)
    {
      hide CountsOk, DepthsOk, ShapeOf, ExitOf;
      var q := procs[p];
      InUse(procs, proxies, spaces, p);
      PutNsproxy(q.nsproxy);
      if q.child != NULL {
        var panic := RemoveFromPidNamespace(q.child);
        assert !panic;
      }
      procs := procs[p := q.(status := Zombie)];
      ExitShape(old(procs), old(proxies), old(spaces), p, spaces);
      CountsFollow(old(procs), old(proxies), old(spaces), p, procs[p], q.nsproxy, proxies[q.nsproxy], spaces);
      if old(DepthsOk(spaces)) {
        DepthsStay(old(spaces), spaces);
      }
    }

    /** wait, on finding a zombie. */
    method Reap(p: nat)
      requires Valid() && p < |procs| && procs[p].status.Zombie?
      modifies this`procs
      ensures Valid() && procs == old(procs)[p := Proc(Unused, old(procs)[p].nsproxy, NULL, [])]
    {
      hide CountsOk;
      procs := procs[p := Proc(Unused, procs[p].nsproxy, NULL, [])];
      assert proxies[0 := proxies[0]] == proxies;
      CountsFollow(old(procs), proxies, spaces, p, procs[p], 0, proxies[0], spaces);
    }

    /** The first part of unshare: a proxy of its own, on the same PID namespace. */
    method OwnProxy(p: nat) returns (panic: bool)
      requires Valid() && p < |procs| && procs[p].status.Live?
      modifies this
      ensures panic <==> FreeProxy(old(proxies)) == NNAMESPACE
      ensures !panic ==> Valid() && |procs| == |old(procs)| && procs == old(procs)[p := old(procs)[p].(nsproxy := procs[p].nsproxy)]
      ensures !panic ==> proxies[procs[p].nsproxy] == Proxy(1, old(proxies)[old(procs)[p].nsproxy].pidNs)
      ensures !panic ==> View() == OwnProxyOf(old(View()), p)
      ensures !panic ==> forall n :: 0 <= n < NNAMESPACE ==>
                spaces[n] == old(spaces)[n].(count := spaces[n].count) && (spaces[n].count > 0 <==> old(spaces)[n].count > 0)
                && (spaces[n].count == 0 <==> old(spaces)[n].count == 0)
    {
      hide CountsOk, ShapeOf, OwnProxyOf, FreeProxy;
      InUse(procs, proxies, spaces, p);
      var was := procs[p].nsproxy;
      assert proxies[was].count >= 1;          // the panic at the start of unshare
      var x;
      panic, x := CreateNsproxy(proxies[was].pidNs);
      if panic {
        return;
      }
      procs := procs[p := procs[p].(nsproxy := x)];
      PutNsproxy(was);
      CountsFollowTwo(old(procs), old(proxies), old(spaces), p, procs[p], x, proxies[x], was, proxies[was], spaces);
      assert proxies == old(proxies)[x := proxies[x]][was := proxies[was]];
      OwnProxyShape(old(procs), old(proxies), old(spaces), p, proxies, spaces);
    }

    /** unshare.  With the PID flag it also makes the namespace for children, one
        deeper than its own; asking twice or too deep stops the kernel. */
    method Unshare(p: nat, pidFlag: bool) returns (panic: bool, ghost slot: int)
      requires Valid() && p < |procs| && procs[p].status.Live?
      modifies this
      ensures panic <==>
                || FreeProxy(old(proxies)) == NNAMESPACE
                || (pidFlag && (old(procs)[p].child != NULL || FreeSpace(old(spaces)) == NNAMESPACE || OwnDepth(old(procs), old(proxies), old(spaces), p) >= MAX_DEPTH))
      ensures !panic ==> Valid() && |procs| == |old(procs)| && forall k :: 0 <= k < |procs| && k != p ==> procs[k] == old(procs)[k]
      ensures !panic ==> procs[p] == old(procs)[p].(nsproxy := procs[p].nsproxy, child := procs[p].child)
      ensures !panic ==> proxies[procs[p].nsproxy] == Proxy(1, old(proxies)[old(procs)[p].nsproxy].pidNs)
      ensures !panic && !pidFlag ==> procs[p].child == old(procs)[p].child && View() == OwnProxyOf(old(View()), p)
      ensures !panic && pidFlag ==>
                && slot == procs[p].child == FreeSpace(old(spaces)) < NNAMESPACE
                && spaces[slot].parent == old(proxies)[old(procs)[p].nsproxy].pidNs
                && spaces[slot].depth == OwnDepth(old(procs), old(proxies), old(spaces), p) + 1
                && CanNewChild(OwnProxyOf(old(View()), p), p)
                && View() == NewChildOf(OwnProxyOf(old(View()), p), p)
      ensures !panic && !pidFlag && old(DepthsOk(spaces)) ==> DepthsOk(spaces)
      ensures !panic && pidFlag && old(DepthsOk(spaces)) ==>
                (DepthsOk(spaces) <==> Harmless(old(spaces), slot, OwnDepth(old(procs), old(proxies), old(spaces), p)))
    {
      hide CountsOk, DepthsOk, NotNamed, KeysOk, ChainOk, FreeSpace, FreeProxy, OwnProxyOf, NewChildOf, CanNewChild, ShapeOf;
      slot := NULL;
      InUse(procs, proxies, spaces, p);
      panic := OwnProxy(p);
      if panic {
        return;
      }
      ghost var mid := spaces;
      InUse(procs, proxies, spaces, p);
      KeysParents(procs, proxies, spaces);
      SameFree(old(spaces), mid);
      if old(DepthsOk(spaces)) {
        DepthsStay(old(spaces), spaces);
      }
      if pidFlag {
        if procs[p].child != NULL {
          return true, slot;
        }
        var n := proxies[procs[p].nsproxy].pidNs;
        if !(spaces[n].depth < MAX_DEPTH) {
          return true, slot;
        }
        ghost var was, x := procs, procs[p].nsproxy;
        var i;
        panic, i := CreateNewPidNamespace(n);
        if panic {
          return;
        }
        slot := i;
        procs := procs[p := procs[p].(child := i)];
        assert proxies[x := proxies[x]] == proxies;
        CountsFollow(was, proxies, mid, p, procs[p], x, proxies[x], spaces);
        KeysFollow(was, proxies, mid, p, procs[p], x, proxies[x], spaces);
        NewChildShape(was, proxies, mid, p, i, n);
        if old(DepthsOk(spaces)) {
          NotNamedStays(old(spaces), mid, i);
          ReuseExact(mid, i, n, spaces);
        }
      }
    }

    /** set_up_pids: a PID in the namespace and each of its ancestors.  It panics
        exactly when no root is met within MAX_DEPTH of them. */
    method SetUpPids(first: nat) returns (panic: bool, pids: seq<(int, int)>)
      requires |spaces| == NNAMESPACE && first < NNAMESPACE
      requires forall n :: 0 <= n < NNAMESPACE ==> NULL <= spaces[n].parent < NNAMESPACE
      modifies this`spaces
      ensures panic <==> !RootWithin(old(spaces), first, MAX_DEPTH)
      ensures |spaces| == NNAMESPACE && forall n :: 0 <= n < NNAMESPACE ==> spaces[n] == old(spaces)[n].(nextPid := spaces[n].nextPid)
      ensures |pids| <= MAX_DEPTH && |pids| > 0 && pids[0] == (first as int, old(spaces)[first].nextPid)
      ensures !panic ==> forall d: nat :: ChainOk(old(spaces), first, d) ==> |pids| == d && Issued(old(spaces), spaces, Ancestry(old(spaces), first, d), pids)
    {
      var ns: int := first;
      pids := [];
      var i := 0;
      while i < MAX_DEPTH && ns != NULL
        invariant 0 <= i <= MAX_DEPTH && |pids| == i && (i == 0 ==> ns == first) && NULL <= ns < NNAMESPACE
        invariant i > 0 ==> pids[0] == (first as int, old(spaces)[first].nextPid)
        invariant i == 0 ==> spaces == old(spaces)
        invariant |spaces| == NNAMESPACE && forall n :: 0 <= n < NNAMESPACE ==> spaces[n] == old(spaces)[n].(nextPid := spaces[n].nextPid)
        invariant RootWithin(old(spaces), first, MAX_DEPTH) <==> ns == NULL || RootWithin(old(spaces), ns, MAX_DEPTH - i)
        invariant forall d: nat :: ChainOk(old(spaces), first, d) ==> WalkedUp(old(spaces), spaces, first, d, pids, ns)
      {
        ghost var was, before := pids, spaces;
        pids := pids + [(ns, spaces[ns].nextPid)];
        spaces := spaces[ns := spaces[ns].(nextPid := spaces[ns].nextPid + 1)];
        forall d: nat | ChainOk(old(spaces), first, d) ensures WalkedUp(old(spaces), spaces, first, d, pids, spaces[ns].parent) {
          WalkUp(old(spaces), before, spaces, first, d, was, ns, pids);
        }
        ns := spaces[ns].parent;
        i := i + 1;
      }
      panic := ns != NULL;
      forall d: nat | ChainOk(old(spaces), first, d) && !panic
        ensures |pids| == d && Issued(old(spaces), spaces, Ancestry(old(spaces), first, d), pids)
      {
        WalkedAll(old(spaces), spaces, first, d, pids);
      }
    }

    /** set_up_child_pid_namespace: a proxy for the child's namespace. */
    method ChildProxy(p: nat) returns (panic: bool, x: nat, home: nat)
      requires Valid() && p < |procs| && procs[p].status.Live?
      modifies this`proxies, this`spaces
      ensures panic <==> procs[p].child != NULL && FreeProxy(old(proxies)) == NNAMESPACE
      ensures !panic ==> x < NNAMESPACE && home < NNAMESPACE && home == Home(procs, old(proxies), p)
      ensures !panic ==> |proxies| == |spaces| == |old(spaces)| == NNAMESPACE && old(spaces)[home].count >= 1
      ensures !panic ==> proxies == old(proxies)[x := Proxy(old(proxies)[x].count + 1, home)] && |old(proxies)| == NNAMESPACE
      ensures !panic ==> old(proxies)[x].count == 0 || (old(proxies)[x].count > 0 && old(proxies)[x].pidNs == home)
      ensures !panic ==> spaces == old(spaces)[home := old(spaces)[home].(count := old(spaces)[home].count + One(old(proxies)[x].count == 0))]
      ensures !panic ==> x == if procs[p].child == NULL then procs[p].nsproxy else FreeProxy(old(proxies))
    {
      hide CountsOk;
      InUse(procs, proxies, spaces, p);
      if procs[p].child != NULL {
        home := procs[p].child;
        panic, x := CreateNsproxy(home);
      } else {
        panic, x := false, procs[p].nsproxy;
        proxies := proxies[x := proxies[x].(count := proxies[x].count + 1)];
        home := proxies[x].pidNs;
      }
    }

    /** fork, as far as namespaces go: q is the slot of the new process.  The child
        lives in the namespace its parent prepared, or else in its parent's. */
    method Fork(p: nat, q: nat) returns (panic: bool)
      requires Valid() && p < |procs| && q < |procs| && procs[p].status.Live? && procs[q].status.Unused? && procs[q].child == NULL
      modifies this
      ensures panic <==>
                || (old(procs)[p].child != NULL && FreeProxy(old(proxies)) == NNAMESPACE)
                || !RootWithin(old(spaces), Home(old(procs), old(proxies), p), MAX_DEPTH)
      ensures panic && old(DepthsOk(spaces)) ==> old(procs)[p].child != NULL && FreeProxy(old(proxies)) == NNAMESPACE
      ensures !panic ==> Valid() && |procs| == |old(procs)| && procs == old(procs)[q := Proc(Live, procs[q].nsproxy, NULL, procs[q].pids)]
      ensures !panic ==> Home(old(procs), old(proxies), p) == proxies[procs[q].nsproxy].pidNs
      ensures !panic ==> CanFork(old(View()), p, q) && View() == ForkOf(old(View()), p, q)
      ensures !panic ==> forall d: nat :: ChainOk(old(spaces), Home(old(procs), old(proxies), p), d) ==>
                |procs[q].pids| == d && Issued(old(spaces), spaces, Ancestry(old(spaces), Home(old(procs), old(proxies), p), d), procs[q].pids)
      ensures !panic && old(DepthsOk(spaces)) ==> DepthsOk(spaces)
    {
      hide CountsOk, DepthsOk, ChainOk, KeysOk, RootWithin, Issued, Ancestry, FreeProxy, ShapeOf, ForkOf, CanFork;
      KeysParents(procs, proxies, spaces);
      InUse(procs, proxies, spaces, p);
      var x, home;
      panic, x, home := ChildProxy(p);
      if panic {
        return;
      }
      ghost var mid := spaces;
      if old(DepthsOk(spaces)) {
        DepthsStay(old(spaces), mid);
        HomeDeep(mid, home);
      }
      SameChains(old(spaces), mid, home);
      SameRoot(old(spaces), mid, home, MAX_DEPTH);
      var pids;
      panic, pids := SetUpPids(home);
      if panic {
        return;
      }
      if old(DepthsOk(spaces)) {
        DepthsStay(mid, spaces);
      }
      forall d: nat | ChainOk(old(spaces), home, d)
        ensures |pids| == d && Issued(old(spaces), spaces, Ancestry(old(spaces), home, d), pids)
      {
        IssuedFrom(old(spaces), mid, spaces, Ancestry(old(spaces), home, d), pids);
      }
      Forked(procs, old(proxies), old(spaces), q, x, home, pids, spaces);
      ForkShape(procs, old(proxies), old(spaces), p, q, x, home, mid, pids, spaces);
      procs := procs[q := Proc(Live, x, NULL, pids)];
    }
  }

  /** One more user of proxy x, and one more holder of its namespace if the proxy is new. */
  lemma Forked(procs: seq<Proc>, proxies: seq<Proxy>, spaces: seq<Space>, q: nat, x: nat, home: nat, pids: seq<(int, int)>, spaces': seq<Space>)
    requires KeysOk(procs, proxies, spaces) && CountsOk(procs, proxies, spaces) && q < |procs| && procs[q].status.Unused?
    requires x < NNAMESPACE && home < NNAMESPACE && |spaces'| == NNAMESPACE
    requires proxies[x].count == 0 || (proxies[x].count > 0 && proxies[x].pidNs == home)
    requires forall n :: 0 <= n < NNAMESPACE ==>
               spaces'[n].count == spaces[n].count + One(n == home && proxies[x].count == 0) && spaces'[n].parent == spaces[n].parent
    ensures KeysOk(procs[q := Proc(Live, x, NULL, pids)], proxies[x := Proxy(proxies[x].count + 1, home)], spaces')
    ensures CountsOk(procs[q := Proc(Live, x, NULL, pids)], proxies[x := Proxy(proxies[x].count + 1, home)], spaces')
  {
    var child, y := Proc(Live, x, NULL, pids), Proxy(proxies[x].count + 1, home);
    CountsFollow(procs, proxies, spaces, q, child, x, y, spaces');
    KeysFollow(procs, proxies, spaces, q, child, x, y, spaces');
  }

  lemma KeysFollow(procs: seq<Proc>, proxies: seq<Proxy>, spaces: seq<Space>, p: nat, q: Proc, x: nat, y: Proxy, spaces': seq<Space>)
    requires KeysOk(procs, proxies, spaces) && p < |procs| && x < NNAMESPACE && |spaces'| == NNAMESPACE
    requires 0 <= q.nsproxy < NNAMESPACE && NULL <= q.child < NNAMESPACE && 0 <= y.pidNs < NNAMESPACE
    requires forall n :: 0 <= n < NNAMESPACE ==> NULL <= spaces'[n].parent < NNAMESPACE
    ensures KeysOk(procs[p := q], proxies[x := y], spaces')
  {
  }

  lemma BlankCounts(nproc: nat, procs: seq<Proc>, proxies: seq<Proxy>, spaces: seq<Space>)
    requires nproc > 0 && procs == seq(nproc, _ => Proc(Unused, NULL, NULL, []))[0 := Proc(Live, 0, NULL, [(0, 1)])]
    requires proxies == seq(NNAMESPACE, _ => Proxy(0, NULL))[0 := Proxy(1, 0)]
    requires spaces == seq(NNAMESPACE, _ => Space(0, NULL, 0, 0))[0 := Space(1, NULL, 2, 1)]
    ensures CountsOk(procs, proxies, spaces)
  {
    var procs0, proxies0 := seq(nproc, _ => Proc(Unused, NULL, NULL, [])), seq(NNAMESPACE, _ => Proxy(0, NULL));
    var spaces0 := seq(NNAMESPACE, _ => Space(0, NULL, 0, 0));
    forall k | 0 <= k < NNAMESPACE ensures Users(procs0, k) == 0 && Holders(procs0, proxies0, k) == 0 {
      assert k !in ProxyUses(procs0) && k !in ChildUses(procs0) && k !in SpaceUses(proxies0);
    }
    assert CountsOk(procs0, proxies0, spaces0);
    CountsFollow(procs0, proxies0, spaces0, 0, procs[0], 0, proxies[0], spaces);
  }

  lemma KeysParents(procs: seq<Proc>, proxies: seq<Proxy>, spaces: seq<Space>)
    requires KeysOk(procs, proxies, spaces)
    ensures |proxies| == |spaces| == NNAMESPACE && forall n :: 0 <= n < NNAMESPACE ==> NULL <= spaces[n].parent < NNAMESPACE
  {
  }

  /** The PID namespace of a new child. */
  function Home(procs: seq<Proc>, proxies: seq<Proxy>, p: nat): int
    requires p < |procs| && 0 <= procs[p].nsproxy < |proxies|
  {
    if procs[p].child != NULL then procs[p].child else proxies[procs[p].nsproxy].pidNs
  }

  lemma HomeDeep(spaces: seq<Space>, n: nat)
    requires DepthsOk(spaces) && n < |spaces| && spaces[n].count > 0
    ensures RootWithin(spaces, n, MAX_DEPTH)
  {
    DepthBounds(spaces, n, spaces[n].depth, MAX_DEPTH);
  }

  lemma {:induction false} SameRoot(spaces: seq<Space>, spaces': seq<Space>, n: int, k: nat)
    requires |spaces'| == |spaces| && forall i :: 0 <= i < |spaces| ==> spaces'[i].parent == spaces[i].parent
    ensures RootWithin(spaces', n, k) <==> RootWithin(spaces, n, k)
    decreases k
  {
    if k > 0 && 0 <= n < |spaces| {
      SameRoot(spaces, spaces', spaces[n].parent, k - 1);
    }
  }

  lemma SameChains(spaces: seq<Space>, spaces': seq<Space>, n: int)
    requires |spaces'| == |spaces|
    requires forall i :: 0 <= i < |spaces| ==> spaces'[i].parent == spaces[i].parent && spaces'[i].depth == spaces[i].depth
    ensures forall d: nat :: ChainOk(spaces, n, d) ==> ChainOk(spaces', n, d) && Ancestry(spaces', n, d) == Ancestry(spaces, n, d)
  {
    forall d: nat | ChainOk(spaces, n, d) ensures ChainOk(spaces', n, d) && Ancestry(spaces', n, d) == Ancestry(spaces, n, d) {
      ChainStays(spaces, spaces', n, d);
    }
  }


  /** What a live process holds is counted. */
  lemma InUse(procs: seq<Proc>, proxies: seq<Proxy>, spaces: seq<Space>, p: nat)
    requires KeysOk(procs, proxies, spaces) && CountsOk(procs, proxies, spaces) && p < |procs| && procs[p].status.Live?
    ensures 0 <= procs[p].nsproxy < NNAMESPACE && NULL <= procs[p].child < NNAMESPACE && |proxies| == |spaces| == NNAMESPACE
    ensures var x, c := procs[p].nsproxy, procs[p].child;
            && proxies[x].count >= 1 && 0 <= proxies[x].pidNs < NNAMESPACE && spaces[proxies[x].pidNs].count >= 1
            && (c != NULL ==> spaces[c].count >= 1) && (c != NULL && c == proxies[x].pidNs ==> spaces[c].count >= 2)
  {
    Counted(procs, p);
    Held(proxies, procs[p].nsproxy);
  }

  /** Counts may fall; parents and depths stay. */
  lemma DepthsStay(spaces: seq<Space>, spaces': seq<Space>)
    requires DepthsOk(spaces) && |spaces'| == |spaces|
    requires forall n :: 0 <= n < |spaces| ==> spaces'[n].parent == spaces[n].parent && spaces'[n].depth == spaces[n].depth
    requires forall n :: 0 <= n < |spaces| && spaces'[n].count > 0 ==> spaces[n].count > 0
    ensures DepthsOk(spaces')
  {
    forall n | 0 <= n < |spaces| && spaces'[n].count > 0 ensures ChainOk(spaces', n, spaces'[n].depth) {
      ChainStays(spaces, spaces', n, spaces[n].depth);
    }
  }

  lemma CountsFollowTwo(procs: seq<Proc>, proxies: seq<Proxy>, spaces: seq<Space>, p: nat, q: Proc, x: nat, y: Proxy, z: nat, w: Proxy,
                        spaces': seq<Space>)
    requires CountsOk(procs, proxies, spaces) && p < |procs| && x < NNAMESPACE && z < NNAMESPACE && x != z && |spaces'| == NNAMESPACE
    requires ChildKey(q) == ChildKey(procs[p])
    requires forall k :: 0 <= k < NNAMESPACE ==>
               proxies[x := y][z := w][k].count == proxies[k].count - One(ProxyKey(procs[p]) == k) + One(ProxyKey(q) == k)
    requires forall k :: 0 <= k < NNAMESPACE ==>
               spaces'[k].count == spaces[k].count - One(SpaceKey(proxies[x]) == k) + One(SpaceKey(y) == k)
                                   - One(SpaceKey(proxies[z]) == k) + One(SpaceKey(w) == k)
    ensures CountsOk(procs[p := q], proxies[x := y][z := w], spaces')
  {
    var procs', proxies' := procs[p := q], proxies[x := y][z := w];
    forall k | 0 <= k < NNAMESPACE ensures proxies'[k].count == Users(procs', k) && spaces'[k].count == Holders(procs', proxies', k) {
      BothChange(procs, proxies, p, q, x, y, k);
      ProxyChange(proxies[x := y], z, w, k);
      assert proxies[k].count == Users(procs, k) && spaces[k].count == Holders(procs, proxies, k);
      assert proxies'[k].count == proxies[k].count - One(ProxyKey(procs[p]) == k) + One(ProxyKey(q) == k);
    }
    assert |proxies'| == |spaces'| == NNAMESPACE;
    assert forall k :: 0 <= k < NNAMESPACE ==> proxies'[k].count == Users(procs', k);
    assert forall k :: 0 <= k < NNAMESPACE ==> spaces'[k].count == Holders(procs', proxies', k);
  }

  lemma SameFree(spaces: seq<Space>, spaces': seq<Space>)
    requires |spaces'| == |spaces| && forall n :: 0 <= n < |spaces| ==> (spaces'[n].count == 0 <==> spaces[n].count == 0)
    ensures FreeSpace(spaces') == FreeSpace(spaces)
  {
    FreeSpaceIs(spaces', FreeSpace(spaces));
  }

  lemma NotNamedStays(spaces: seq<Space>, spaces': seq<Space>, i: int)
    requires DepthsOk(spaces) && DepthsOk(spaces') && |spaces'| == |spaces|
    requires forall n :: 0 <= n < |spaces| ==> spaces'[n].parent == spaces[n].parent && spaces'[n].depth == spaces[n].depth
    requires forall n :: 0 <= n < |spaces| ==> (spaces'[n].count > 0 <==> spaces[n].count > 0)
    ensures NotNamed(spaces', i) <==> NotNamed(spaces, i)
  {
    forall n | 0 <= n < |spaces| && spaces'[n].count > 0
      ensures Ancestry(spaces', n, spaces'[n].depth) == Ancestry(spaces, n, spaces[n].depth)
    {
      ChainStays(spaces, spaces', n, spaces[n].depth);
    }
  }

  /** A chain through a slot that keeps its depth leads on as the slot now does. */
  lemma {:induction false} ChainThrough(spaces: seq<Space>, spaces': seq<Space>, n: int, depth: nat, i: nat)
    requires ChainOk(spaces, n, depth) && |spaces'| == |spaces| && i < |spaces| && spaces[i].depth >= 1
    requires forall k :: 0 <= k < |spaces| && k != i ==> spaces'[k] == spaces[k]
    requires ChainOk(spaces', i, spaces[i].depth)
    ensures ChainOk(spaces', n, depth)
    decreases depth
  {
    if n != i && depth > 1 {
      ChainThrough(spaces, spaces', spaces[n].parent, depth - 1, i);
    }
  }

  /** A chain that is right before and after shows that the slot kept its depth. */
  lemma {:induction false} DepthSeen(spaces: seq<Space>, spaces': seq<Space>, n: int, depth: nat, i: nat)
    requires ChainOk(spaces, n, depth) && ChainOk(spaces', n, depth) && i in Ancestry(spaces, n, depth)
    requires |spaces'| == |spaces| && i < |spaces| && forall k :: 0 <= k < |spaces| && k != i ==> spaces'[k] == spaces[k]
    ensures spaces'[i].depth == spaces[i].depth
    decreases depth
  {
    if n != i {
      DepthSeen(spaces, spaces', spaces[n].parent, depth - 1, i);
    }
  }

  lemma DeeperNotNamed(spaces: seq<Space>, n: int, depth: nat, i: nat)
    requires ChainOk(spaces, n, depth) && i < |spaces| && spaces[i].depth > depth
    ensures i !in Ancestry(spaces, n, depth)
  {
    forall k | 0 <= k < depth ensures Ancestry(spaces, n, depth)[k] != i {
      AncestryDepth(spaces, n, depth, k);
    }
  }

  /** Giving an unused slot to a new namespace keeps the depths right if and only
      if that is harmless. */
  lemma ReuseExact(spaces: seq<Space>, i: nat, parent: nat, spaces': seq<Space>)
    requires DepthsOk(spaces) && i < |spaces| && spaces[i].count == 0 && parent < |spaces| && spaces[parent].count > 0
    requires spaces[parent].depth < MAX_DEPTH && spaces' == spaces[i := Space(1, parent, 1, spaces[parent].depth + 1)]
    ensures DepthsOk(spaces') <==> Harmless(spaces, i, spaces[parent].depth)
  {
    if NotNamed(spaces, i) {
      ReuseUnnamed(spaces, i, parent, spaces');
    } else if spaces[parent].depth + 1 == spaces[i].depth {
      ReuseSameDepth(spaces, i, parent, spaces');
    } else {
      var n :| 0 <= n < |spaces| && spaces[n].count > 0 && i in Ancestry(spaces, n, spaces[n].depth);
      if DepthsOk(spaces') {
        DepthSeen(spaces, spaces', n, spaces[n].depth, i);
      }
    }
  }

  lemma ReuseUnnamed(spaces: seq<Space>, i: nat, parent: nat, spaces': seq<Space>)
    requires DepthsOk(spaces) && NotNamed(spaces, i) && i < |spaces| && parent < |spaces| && spaces[parent].count > 0
    requires spaces[parent].depth < MAX_DEPTH && spaces' == spaces[i := Space(1, parent, 1, spaces[parent].depth + 1)]
    ensures DepthsOk(spaces')
  {
    forall n | 0 <= n < |spaces| && spaces[n].count > 0 ensures ChainOk(spaces', n, spaces[n].depth) && n != i {
      assert n in Ancestry(spaces, n, spaces[n].depth);
      ChainStays(spaces, spaces', n, spaces[n].depth);
    }
  }

  lemma ReuseSameDepth(spaces: seq<Space>, i: nat, parent: nat, spaces': seq<Space>)
    requires DepthsOk(spaces) && i < |spaces| && spaces[i].count == 0 && parent < |spaces| && spaces[parent].count > 0
    requires spaces[parent].depth < MAX_DEPTH && spaces' == spaces[i := Space(1, parent, 1, spaces[parent].depth + 1)]
    requires spaces[parent].depth + 1 == spaces[i].depth
    ensures DepthsOk(spaces')
  {
    var d := spaces[parent].depth;
    DeeperNotNamed(spaces, parent, d, i);
    ChainStays(spaces, spaces', parent, d);
    assert ChainOk(spaces', i, d + 1);
    forall n | 0 <= n < |spaces| && spaces[n].count > 0 ensures ChainOk(spaces', n, spaces[n].depth) {
      ChainThrough(spaces, spaces', n, spaces[n].depth, i);
    }
  }

  // ----- A run in which reuse is not harmless -----

  /** Two namespaces that are each the parent of the other have no root at all. */
  lemma {:induction false} CycleHasNoRoot(spaces: seq<Space>, i: nat, j: nat, k: nat)
    requires i < |spaces| && j < |spaces| && spaces[i].parent == j && spaces[j].parent == i
    ensures !RootWithin(spaces, i, k)
    decreases k
  {
    if k > 0 {
      CycleHasNoRoot(spaces, j, i, k - 1);
    }
  }

  /** The calls see the tables only as their shape shows them. */
  lemma {:induction false} SeenThrough(procs: seq<Proc>, proxies: seq<Proxy>, spaces: seq<Space>, p: nat, n: int)
    requires p < |procs| && 0 <= procs[p].nsproxy < |proxies|
    ensures var s := ShapeOf(procs, proxies, spaces);
            && Home(s.procs, proxies, p) == Home(procs, proxies, p)
            && OwnDepth(s.procs, proxies, s.spaces, p) == OwnDepth(procs, proxies, spaces, p)
            && FreeSpace(s.spaces) == FreeSpace(spaces)
            && (RootWithin(s.spaces, n, MAX_DEPTH) <==> RootWithin(spaces, n, MAX_DEPTH))
  {
    hide RootWithin, FreeSpace;
    BareFacts(spaces, 0, 0);
    SameRoot(spaces, BareSpaces(spaces), n, MAX_DEPTH);
  }

  ghost predicate Alive(s: Shape, p: nat) {
    p < |s.procs| && s.procs[p].status.Live? && 0 <= s.procs[p].nsproxy < |s.proxies| == |s.spaces| == NNAMESPACE
  }

  method ForkFrom(t: Tables, p: nat, q: nat, ghost s: Shape) returns (panic: bool)
    requires t.Valid() && t.View() == s && Alive(s, p) && q < |s.procs| && s.procs[q] == Proc(Unused, NULL, NULL, [])
    modifies t
    ensures panic <==>
              || (s.procs[p].child != NULL && FreeProxy(s.proxies) == NNAMESPACE)
              || !RootWithin(s.spaces, Home(s.procs, s.proxies, p), MAX_DEPTH)
    ensures !panic ==> t.Valid() && CanFork(s, p, q) && t.View() == ForkOf(s, p, q)
  {
    hide ForkOf, CanFork, RootWithin, FreeProxy;
    SeenThrough(t.procs, t.proxies, t.spaces, p, Home(t.procs, t.proxies, p));
    assert s.procs[p] == t.procs[p].(pids := []) && s.procs[q] == t.procs[q].(pids := []);
    panic := t.Fork(p, q);
  }

  method UnshareFrom(t: Tables, p: nat, ghost s: Shape) returns (panic: bool)
    requires t.Valid() && t.View() == s && Alive(s, p)
    modifies t
    ensures panic <==>
              || FreeProxy(s.proxies) == NNAMESPACE || s.procs[p].child != NULL || FreeSpace(s.spaces) == NNAMESPACE
              || OwnDepth(s.procs, s.proxies, s.spaces, p) >= MAX_DEPTH
    ensures !panic ==> t.Valid() && FreeProxy(s.proxies) < NNAMESPACE && CanNewChild(OwnProxyOf(s, p), p)
    ensures !panic ==> t.View() == NewChildOf(OwnProxyOf(s, p), p)
  {
    hide OwnProxyOf, NewChildOf, CanNewChild, FreeProxy, FreeSpace;
    SeenThrough(t.procs, t.proxies, t.spaces, p, 0);
    assert s.procs[p] == t.procs[p].(pids := []);
    ghost var slot;
    panic, slot := t.Unshare(p, true);
  }

  /** Tables of which only the first slots are used. */
  function SomeProxies(a: Proxy, b: Proxy, c: Proxy, d: Proxy): seq<Proxy> {
    var z := Proxy(0, NULL);
    [a, b, c, d, z, z, z, z, z, z]
  }

  function SomeSpaces(a: Space, b: Space, c: Space): seq<Space> {
    var z := Space(0, NULL, 0, 0);
    [a, b, c, z, z, z, z, z, z, z]
  }

  const NOBODY := Proc(Unused, NULL, NULL, [])
  const FREE := Proxy(0, NULL)
  const NOWHERE := Space(0, NULL, 0, 0)

  function Alone(x: int, child: int): Proc { Proc(Live, x, child, []) }

  function Gone(x: int, child: int): Proc { Proc(Zombie, x, child, []) }

  /** The tables after each call of the run, with init as process 0: */
  function Stage(k: nat): Shape {
    match k
    case 0 => Shape([Alone(0, NULL), NOBODY, NOBODY, NOBODY, NOBODY],
                    SomeProxies(Proxy(1, 0), FREE, FREE, FREE), SomeSpaces(Space(1, NULL, 0, 1), NOWHERE, NOWHERE))
    case 1 => Shape([Alone(0, NULL), Alone(0, NULL), NOBODY, NOBODY, NOBODY],              // 0 forks 1
                    SomeProxies(Proxy(2, 0), FREE, FREE, FREE), SomeSpaces(Space(1, NULL, 0, 1), NOWHERE, NOWHERE))
    case 2 => Shape([Alone(0, NULL), Alone(1, 1), NOBODY, NOBODY, NOBODY],                 // 1 unshares
                    SomeProxies(Proxy(1, 0), Proxy(1, 0), FREE, FREE), SomeSpaces(Space(2, NULL, 0, 1), Space(1, 0, 0, 2), NOWHERE))
    case 3 => Shape([Alone(0, NULL), Alone(1, 1), Alone(2, NULL), NOBODY, NOBODY],         // and forks 2
                    SomeProxies(Proxy(1, 0), Proxy(1, 0), Proxy(1, 1), FREE), SomeSpaces(Space(2, NULL, 0, 1), Space(2, 0, 0, 2), NOWHERE))
    case 4 => Shape([Alone(0, NULL), Alone(1, 1), Alone(3, 2), NOBODY, NOBODY],            // 2 unshares
                    SomeProxies(Proxy(1, 0), Proxy(1, 0), FREE, Proxy(1, 1)),
                    SomeSpaces(Space(2, NULL, 0, 1), Space(2, 0, 0, 2), Space(1, 1, 0, 3)))
    case 5 => Shape([Alone(0, NULL), Alone(1, 1), Alone(3, 2), Alone(2, NULL), NOBODY],    // and forks 3
                    SomeProxies(Proxy(1, 0), Proxy(1, 0), Proxy(1, 2), Proxy(1, 1)),
                    SomeSpaces(Space(2, NULL, 0, 1), Space(2, 0, 0, 2), Space(2, 1, 0, 3)))
    case 6 => Shape([Alone(0, NULL), Alone(1, 1), Gone(3, 2), Alone(2, NULL), NOBODY],     // 2 exits
                    SomeProxies(Proxy(1, 0), Proxy(1, 0), Proxy(1, 2), FREE),
                    SomeSpaces(Space(2, NULL, 0, 1), Space(1, 0, 0, 2), Space(1, 1, 0, 3)))
    case 7 => Shape([Alone(0, NULL), Gone(1, 1), Gone(3, 2), Alone(2, NULL), NOBODY],      // 1 exits: slot 1 unused, still 2's parent
                    SomeProxies(Proxy(1, 0), FREE, Proxy(1, 2), FREE),
                    SomeSpaces(Space(1, NULL, 0, 1), Space(0, 0, 0, 2), Space(1, 1, 0, 3)))
    case _ => Shape([Alone(0, NULL), Gone(1, 1), Gone(3, 2), Alone(1, 1), NOBODY],         // 3 unshares: slots 1 and 2 each other's parent
                    SomeProxies(Proxy(1, 0), Proxy(1, 2), FREE, FREE),
                    SomeSpaces(Space(1, NULL, 0, 1), Space(1, 2, 0, 4), Space(1, 1, 0, 3)))
  }

  ghost predicate ForkLeads(s: Shape, p: nat, q: nat, s': Shape) {
    && Alive(s, p) && q < |s.procs| && s.procs[q] == NOBODY && CanFork(s, p, q) && ForkOf(s, p, q) == s'
    && (s.procs[p].child != NULL ==> FreeProxy(s.proxies) < NNAMESPACE)
    && RootWithin(s.spaces, Home(s.procs, s.proxies, p), MAX_DEPTH)
  }

  ghost predicate UnshareLeads(s: Shape, p: nat, s': Shape) {
    && Alive(s, p) && FreeProxy(s.proxies) < NNAMESPACE && s.procs[p].child == NULL && FreeSpace(s.spaces) < NNAMESPACE
    && OwnDepth(s.procs, s.proxies, s.spaces, p) < MAX_DEPTH
    && CanNewChild(OwnProxyOf(s, p), p) && NewChildOf(OwnProxyOf(s, p), p) == s'
  }

  lemma Fork01()
    ensures ForkLeads(Stage(0), 0, 1, Stage(1))
  {
    hide FreeProxy;
    assert RootWithin(Stage(0).spaces, 0, 4);
  }

  lemma Fork12()
    ensures ForkLeads(Stage(2), 1, 2, Stage(3))
  {
    hide FreeProxy;
    FreeProxyIs(Stage(2).proxies, 2);
    assert RootWithin(Stage(2).spaces, 0, 3);
  }

  lemma Fork23()
    ensures ForkLeads(Stage(4), 2, 3, Stage(5))
  {
    hide FreeProxy;
    FreeProxyIs(Stage(4).proxies, 2);
    assert RootWithin(Stage(4).spaces, 0, 2);
    assert RootWithin(Stage(4).spaces, 1, 3);
  }

  lemma Unshare1()
    ensures UnshareLeads(Stage(1), 1, Stage(2))
  {
    hide FreeProxy, FreeSpace;
    FreeProxyIs(Stage(1).proxies, 1);
    FreeSpaceIs(Stage(1).spaces, 1);
    FreeSpaceIs(OwnProxyOf(Stage(1), 1).spaces, 1);
  }

  lemma Unshare2()
    ensures UnshareLeads(Stage(3), 2, Stage(4))
  {
    hide FreeProxy, FreeSpace;
    FreeProxyIs(Stage(3).proxies, 3);
    FreeSpaceIs(Stage(3).spaces, 2);
    var own := OwnProxyOf(Stage(3), 2);
    assert own.proxies == Stage(4).proxies && own.spaces == SomeSpaces(Stage(4).spaces[0], Stage(4).spaces[1], NOWHERE);
    FreeSpaceIs(own.spaces, 2);
  }

  lemma Unshare3()
    ensures UnshareLeads(Stage(7), 3, Stage(8))
  {
    hide FreeProxy, FreeSpace;
    FreeProxyIs(Stage(7).proxies, 1);
    FreeSpaceIs(Stage(7).spaces, 1);
    FreeSpaceIs(OwnProxyOf(Stage(7), 3).spaces, 1);
  }

  lemma ExitStages()
    ensures Alive(Stage(5), 2) && ExitOf(Stage(5), 2) == Stage(6)
    ensures Alive(Stage(6), 1) && ExitOf(Stage(6), 1) == Stage(7)
  {
  }

  lemma LastFork()
    ensures Alive(Stage(8), 3) && |Stage(8).procs| == 5 && Stage(8).procs[4] == NOBODY
    ensures !RootWithin(Stage(8).spaces, Home(Stage(8).procs, Stage(8).proxies, 3), MAX_DEPTH)
  {
    CycleHasNoRoot(Stage(8).spaces, 1, 2, MAX_DEPTH);
  }

  method NewTables() returns (t: Tables)
    ensures fresh(t) && t.Valid() && t.View() == Stage(0)
  {
    t := new Tables(5);
    assert t.View().spaces == Stage(0).spaces && t.View().procs == Stage(0).procs;
  }

  /** Process 0 forks 1, which unshares and forks 2, which unshares and forks 3;
      2 and 1 exit; 3 unshares, is given the slot of the namespace between its own
      and the root, and its fork panics. */
  method ReuseCanPanic() returns (panic: bool)
    ensures panic
  {
    hide Stage, ShapeOf, ForkOf, CanFork, OwnProxyOf, NewChildOf, CanNewChild, ExitOf, FreeProxy, FreeSpace, RootWithin, OwnDepth, Home;
    Fork01(); Fork12(); Fork23();
    Unshare1(); Unshare2(); Unshare3();
    ExitStages();
    LastFork();
    var t := NewTables();
    panic := ForkFrom(t, 0, 1, Stage(0));
    panic := UnshareFrom(t, 1, Stage(1));
    panic := ForkFrom(t, 1, 2, Stage(2));
    panic := UnshareFrom(t, 2, Stage(3));
    panic := ForkFrom(t, 2, 3, Stage(4));
    t.Exit(2);
    t.Exit(1);
    panic := UnshareFrom(t, 3, Stage(7));
    panic := ForkFrom(t, 3, 4, Stage(8));
  }

  /** Each namespace of the list gave its next PID, and no other did. */
  ghost predicate Issued(spaces: seq<Space>, spaces': seq<Space>, ancestry: seq<int>, pids: seq<(int, int)>) {
    && |pids| <= |ancestry| && |spaces'| == |spaces|
    && (forall k :: 0 <= k < |pids| ==> pids[k].0 == ancestry[k] && 0 <= ancestry[k] < |spaces| && pids[k].1 == spaces[ancestry[k]].nextPid)
    && (forall n :: 0 <= n < |spaces| ==> spaces'[n].nextPid == spaces[n].nextPid + One(n in ancestry[..|pids|]))
  }

  /** After |pids| turns of set_up_pids: the ancestors so far, and the next one. */
  ghost predicate WalkedUp(spaces: seq<Space>, spaces': seq<Space>, first: int, d: nat, pids: seq<(int, int)>, ns: int)
    requires ChainOk(spaces, first, d)
  {
    && |pids| <= d && Issued(spaces, spaces', Ancestry(spaces, first, d), pids)
    && (if |pids| == d then ns == NULL else ns == Ancestry(spaces, first, d)[|pids|])
  }

  lemma {:induction false} AncestryAt(spaces: seq<Space>, n: int, d: nat, k: nat)
    requires ChainOk(spaces, n, d) && k < d
    ensures |Ancestry(spaces, n, d)| == d && 0 <= Ancestry(spaces, n, d)[k] < |spaces|
    ensures spaces[Ancestry(spaces, n, d)[k]].parent == if k + 1 == d then NULL else Ancestry(spaces, n, d)[k + 1]
    decreases d
  {
    if d > 1 {
      AncestryAt(spaces, spaces[n].parent, d - 1, if k == 0 then 0 else k - 1);
    }
  }

  lemma {:induction false} AncestryDepth(spaces: seq<Space>, n: int, d: nat, k: nat)
    requires ChainOk(spaces, n, d) && k < d
    ensures 0 <= Ancestry(spaces, n, d)[k] < |spaces| && spaces[Ancestry(spaces, n, d)[k]].depth == d - k
    decreases d
  {
    if k > 0 {
      AncestryDepth(spaces, spaces[n].parent, d - 1, k - 1);
    }
  }

  lemma WalkUp(spaces: seq<Space>, before: seq<Space>, after: seq<Space>, first: int, d: nat, pids: seq<(int, int)>, ns: int,
               pids': seq<(int, int)>)
    requires ChainOk(spaces, first, d) && WalkedUp(spaces, before, first, d, pids, ns) && 0 <= ns < |before|
    requires pids' == pids + [(ns, before[ns].nextPid)] && after == before[ns := before[ns].(nextPid := before[ns].nextPid + 1)]
    requires forall n :: 0 <= n < |spaces| ==> before[n].parent == spaces[n].parent
    ensures WalkedUp(spaces, after, first, d, pids', after[ns].parent)
  {
    hide ChainOk, Ancestry;
    var a, m := Ancestry(spaces, first, d), |pids|;
    AncestryAt(spaces, first, d, m);
    forall k | 0 <= k < m ensures a[k] != ns {
      AncestryDepth(spaces, first, d, k);
      AncestryDepth(spaces, first, d, m);
    }
    NextIssued(spaces, before, after, a, pids, ns, pids');
  }

  lemma NextIssued(spaces: seq<Space>, before: seq<Space>, after: seq<Space>, a: seq<int>, pids: seq<(int, int)>, ns: int, pids': seq<(int, int)>)
    requires Issued(spaces, before, a, pids) && |pids| < |a| && a[|pids|] == ns && 0 <= ns < |before|
    requires forall k :: 0 <= k < |pids| ==> a[k] != ns
    requires pids' == pids + [(ns, before[ns].nextPid)] && after == before[ns := before[ns].(nextPid := before[ns].nextPid + 1)]
    ensures Issued(spaces, after, a, pids')
  {
    var m := |pids|;
    assert ns !in a[..m];
    assert a[..m + 1] == a[..m] + [ns];
  }

  lemma IssuedFrom(spaces: seq<Space>, mid: seq<Space>, spaces': seq<Space>, a: seq<int>, pids: seq<(int, int)>)
    requires Issued(mid, spaces', a, pids) && |mid| == |spaces| && forall n :: 0 <= n < |mid| ==> mid[n].nextPid == spaces[n].nextPid
    ensures Issued(spaces, spaces', a, pids)
  {
  }

  lemma WalkedAll(spaces: seq<Space>, spaces': seq<Space>, first: int, d: nat, pids: seq<(int, int)>)
    requires ChainOk(spaces, first, d) && WalkedUp(spaces, spaces', first, d, pids, NULL)
    ensures |pids| == d && Issued(spaces, spaces', Ancestry(spaces, first, d), pids)
  {
    if |pids| < d {
      AncestryAt(spaces, first, d, |pids|);
    }
  }
}
