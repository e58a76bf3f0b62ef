/** Path resolution of fs.c over mounted images: skipelem, iget, idup, iput,
    dirlookup and namex, with the inode cache's reference counts and the one inode
    lock a walk holds.  Directories do not change during a walk; other processes'
    locks and the freeing of an unlinked inode on its last iput are not modelled.
 */
module Paths {
  import opened Lists
  import opened Mounts

  const DIRSIZ := 14
  const ROOTDEV := 1
  const ROOTINO := 1
  const NINODE := 50

  // ----- Path elements -----

  function SkipSlash(path: string, i: nat): (j: nat)
    requires i <= |path|
    ensures i <= j <= |path| && (j < |path| ==> path[j] != '/')
    ensures forall k :: i <= k < j ==> path[k] == '/'
    decreases |path| - i
  {
    if i < |path| && path[i] == '/' then SkipSlash(path, i + 1) else i
  }

  function ElemEnd(path: string, i: nat): (j: nat)
    requires i <= |path|
    ensures i <= j <= |path| && (i < |path| && path[i] != '/' ==> i < j)
    ensures (j < |path| ==> path[j] == '/') && forall k :: i <= k < j ==> path[k] != '/'
    decreases |path| - i
  {
    if i < |path| && path[i] != '/' then ElemEnd(path, i + 1) else i
  }

  /** A name keeps at most DIRSIZ characters. */
  function Clip(s: string): string {
    if |s| > DIRSIZ then s[..DIRSIZ] else s
  }

  /** The elements of a path from position i. */
  ghost function Elems(path: string, i: nat): seq<string>
    requires i <= |path|
    decreases |path| - i
  {
    var j := SkipSlash(path, i);
    if j == |path| then [] else [Clip(path[j..ElemEnd(path, j)])] + Elems(path, ElemEnd(path, j))
  }

  lemma ElemsSkip(path: string, i: nat)
    requires i <= |path|
    ensures Elems(path, SkipSlash(path, i)) == Elems(path, i)
    ensures Elems(path, i) == [] <==> SkipSlash(path, i) == |path|
  {
    assert SkipSlash(path, SkipSlash(path, i)) == SkipSlash(path, i);
  }

  /** A longest stretch of the path without a slash. */
  ghost predicate Stretch(path: string, a: nat, b: nat) {
    && a < b <= |path|
    && (forall k :: a <= k < b ==> path[k] != '/')
    && (a > 0 ==> path[a - 1] == '/')
    && (b < |path| ==> path[b] == '/')
  }

  /** Stretches from position i, each after the one before. */
  ghost predicate InOrder(path: string, i: nat, spans: seq<(nat, nat)>) {
    && (forall k :: 0 <= k < |spans| ==> i <= spans[k].0 && Stretch(path, spans[k].0, spans[k].1))
    && (forall k, l :: 0 <= k < l < |spans| ==> spans[k].1 < spans[l].0)
  }

  /** No stretch from position i is left out. */
  ghost predicate AllOf(path: string, i: nat, spans: seq<(nat, nat)>) {
    forall a: nat, b: nat :: i <= a && Stretch(path, a, b) ==> (a, b) in spans
  }

  /** The names are the stretches, each cut at 14 characters. */
  ghost predicate Names(path: string, spans: seq<(nat, nat)>, names: seq<string>) {
    && |spans| == |names|
    && forall k :: 0 <= k < |spans| ==>
         var (a, b) := spans[k]; a <= b <= |path| && names[k] == if b - a > 14 then path[a..a + 14] else path[a..b]
  }

  ghost predicate SplitsInto(path: string, i: nat, spans: seq<(nat, nat)>, names: seq<string>) {
    InOrder(path, i, spans) && AllOf(path, i, spans) && Names(path, spans, names)
  }

  lemma {:induction false} ElemsSplit(path: string, i: nat) returns (spans: seq<(nat, nat)>)
    requires i <= |path| && (0 < i < |path| && path[i] != '/' ==> path[i - 1] == '/')
    ensures SplitsInto(path, i, spans, Elems(path, i))
    decreases |path| - i
  {
    var a := SkipSlash(path, i);
    if a == |path| {
      spans := [];
      forall x: nat, y: nat ensures i <= x ==> !Stretch(path, x, y) {
        assert i <= x < |path| ==> path[x] == '/';
      }
    } else {
      var b := ElemEnd(path, a);
      var rest := ElemsSplit(path, b);
      spans := [(a, b)] + rest;
      assert Elems(path, i) == [Clip(path[a..b])] + Elems(path, b);
      FirstStretch(path, i, a, b, rest, Elems(path, b));
    }
  }

  lemma FirstStretch(path: string, i: nat, a: nat, b: nat, rest: seq<(nat, nat)>, names: seq<string>)
    requires i <= a && Stretch(path, a, b) && SplitsInto(path, b, rest, names)
    requires forall k :: i <= k < a ==> path[k] == '/'
    ensures SplitsInto(path, i, [(a, b)] + rest, [Clip(path[a..b])] + names)
  {
    hide InOrder, AllOf;
    FirstInOrder(path, i, a, b, rest);
    FirstOfAll(path, i, a, b, rest);
  }

  lemma FirstInOrder(path: string, i: nat, a: nat, b: nat, rest: seq<(nat, nat)>)
    requires i <= a && Stretch(path, a, b) && InOrder(path, b, rest)
    ensures InOrder(path, i, [(a, b)] + rest)
  {
    forall k | 0 <= k < |rest| ensures b < rest[k].0 {
      assert path[rest[k].0] != '/';
    }
  }

  lemma FirstOfAll(path: string, i: nat, a: nat, b: nat, rest: seq<(nat, nat)>)
    requires i <= a && Stretch(path, a, b) && AllOf(path, b, rest)
    requires forall k :: i <= k < a ==> path[k] == '/'
    ensures AllOf(path, i, [(a, b)] + rest)
  {
    forall x: nat, y: nat | i <= x && Stretch(path, x, y) ensures (x, y) in [(a, b)] + rest {
      NoneBefore(path, i, a, b, x, y);
    }
  }

  lemma NoneBefore(path: string, i: nat, a: nat, b: nat, x: nat, y: nat)
    requires i <= a && Stretch(path, a, b) && i <= x && Stretch(path, x, y)
    requires forall k :: i <= k < a ==> path[k] == '/'
    ensures (x == a && y == b) || b < x
  {
    assert path[x] != '/' && (x > 0 ==> path[x - 1] == '/');
    assert (y < |path| ==> path[y] == '/') && (b < |path| ==> path[b] == '/');
  }

  /** The elements of a path are its stretches without a slash, all of them, in
      order, each cut at 14 characters. */
  lemma ElemsAre(path: string)
    ensures exists spans :: SplitsInto(path, 0, spans, Elems(path, 0))
  {
    var spans := ElemsSplit(path, 0);
  }

  /** skipelem: the next element, and whether any element is left after it. */
  method SkipElem(path: string, i: nat) returns (found: bool, name: string, next: nat)
    requires i <= |path|
    ensures i <= next <= |path| && (found <==> Elems(path, i) != [])
    ensures found ==> Elems(path, i) == [name] + Elems(path, next) && next > i
    ensures found ==> (next == |path| <==> Elems(path, next) == [])
  {
    var p := i;
    while p < |path| && path[p] == '/'
      invariant i <= p <= |path| && SkipSlash(path, p) == SkipSlash(path, i)
    {
      p := p + 1;
    }
    if p == |path| {
      return false, "", p;
    }
    var s := p;
    while p < |path| && path[p] != '/'
      invariant s <= p <= |path| && ElemEnd(path, p) == ElemEnd(path, s)
    {
      p := p + 1;
    }
    name := if p - s >= DIRSIZ then path[s..s + DIRSIZ] else path[s..p];
    assert name == Clip(path[s..p]);
    ghost var e := p;
    while p < |path| && path[p] == '/'
      invariant e <= p <= |path| && SkipSlash(path, p) == SkipSlash(path, e)
    {
      p := p + 1;
    }
    ElemsSkip(path, e);
    return true, name, p;
  }

  // ----- The tree that mounts compose -----

  datatype Node = Node(dev: nat, inum: nat)

  datatype Dirent = Dirent(inum: nat, name: string)

  /** Directories by node; other nodes are files. */
  type Dirs = map<Node, seq<Dirent>>

  /** An active mount: the image on `dev` covers the directory `at`. */
  datatype MountOf = MountOf(dev: nat, at: Node)

  datatype Lookup = Found(node: Node) | Missing | NotDir

  predicate IsLoopDev(dev: nat) { dev / 32 % 2 == 1 }

  function FindEntry(es: seq<Dirent>, name: string): nat {
    if es == [] then 0
    else if es[0].inum != 0 && es[0].name == name then es[0].inum
    else FindEntry(es[1..], name)
  }

  /** The number other than 0 that a name leads to is that of the first entry in
      use with the name, and 0 says that there is none. */
  lemma {:induction false} FindEntryIs(es: seq<Dirent>, name: string, k: nat)
    ensures k != 0 ==> (FindEntry(es, name) == k <==>
              exists j :: 0 <= j < |es| && es[j].inum == k && es[j].name == name
                && forall i :: 0 <= i < j && es[i].inum != 0 ==> es[i].name != name)
    ensures FindEntry(es, name) == 0 <==> forall j :: 0 <= j < |es| && es[j].inum != 0 ==> es[j].name != name
  {
    if es != [] {
      FindEntryIs(es[1..], name, k);
    }
  }

  /** The mount over a node, the newest first. */
  function Over(ms: seq<MountOf>, n: Node): seq<MountOf> {
    if ms == [] then [] else if ms[0].at == n then [ms[0]] else Over(ms[1..], n)
  }

  function Under(ms: seq<MountOf>, dev: nat): seq<MountOf> {
    if ms == [] then [] else if ms[0].dev == dev then [ms[0]] else Under(ms[1..], dev)
  }

  /** One element: up out of an image at its root, then into the directory, then
      down into the image mounted there. */
  function Step(dirs: Dirs, ms: seq<MountOf>, n: Node, name: string): Lookup {
    if n !in dirs then Missing
    else
      var m := From(ms, n, name);
      if m !in dirs then NotDir
      else
        var child := Child(dirs, m, name);
        if child.inum == 0 then Missing else Found(Into(ms, child))
  }

  /** ".." at the root of an image starts from its mount point. */
  function From(ms: seq<MountOf>, n: Node, name: string): Node {
    var up := Under(ms, n.dev);
    if IsLoopDev(n.dev) && n.inum == ROOTINO && name == ".." && up != [] then up[0].at else n
  }

  /** The inode a name leads to in a directory, number 0 if there is none. */
  function Child(dirs: Dirs, m: Node, name: string): Node
    requires m in dirs
  {
    Node(m.dev, FindEntry(dirs[m], name))
  }

  /** Down into the image mounted over a node, if one is. */
  function Into(ms: seq<MountOf>, n: Node): Node {
    var over := Over(ms, n);
    if over == [] then n else Node(over[0].dev, ROOTINO)
  }

  /** All elements in turn. */
  function Walk(dirs: Dirs, ms: seq<MountOf>, n: Node, names: seq<string>): Lookup
    decreases |names|
  {
    if names == [] then Found(n)
    else
      match Step(dirs, ms, n, names[0])
      case Found(m) => Walk(dirs, ms, m, names[1..])
      case Missing => Missing
      case NotDir => NotDir
  }

  /** Down into a directory and up again leads back, also when the way down
      crosses into an image and the way up out of it. */
  lemma DownAndUp(dirs: Dirs, ms: seq<MountOf>, n: Node, name: string)
    requires n in dirs && n.inum != 0 && Over(ms, n) == [] && name != ".."
    requires var d := Child(dirs, n, name);
             && d.inum != 0 && d in dirs && Child(dirs, d, "..") == n && !(IsLoopDev(d.dev) && d.inum == ROOTINO)
             && var over := Over(ms, d);
                over != [] ==> IsLoopDev(over[0].dev) && Under(ms, over[0].dev) == over && Node(over[0].dev, ROOTINO) in dirs
    ensures Walk(dirs, ms, n, [name, ".."]) == Found(n)
  {
    var d := Child(dirs, n, name);
    OverAt(ms, d);
    var m := Into(ms, d);
    assert Step(dirs, ms, n, name) == Found(m);
    assert From(ms, m, "..") == d;
    assert Step(dirs, ms, m, "..") == Found(n);
    assert [name, ".."][1..] == [".."] && [".."][1..] == [];
    assert Walk(dirs, ms, m, [".."]) == Walk(dirs, ms, n, []) == Found(n);
  }

  lemma {:induction false} OverAt(ms: seq<MountOf>, n: Node)
    ensures Over(ms, n) != [] ==> |Over(ms, n)| == 1 && Over(ms, n)[0].at == n && Over(ms, n)[0] in ms
    ensures Over(ms, n) == [] <==> forall m :: m in ms ==> m.at != n
  {
    if ms != [] {
      OverAt(ms[1..], n);
      assert ms == [ms[0]] + ms[1..];
    }
  }

  /** What namex gives: the node itself, or the directory that holds the last
      element, which must be a directory. */
  function Target(dirs: Dirs, ms: seq<MountOf>, n: Node, names: seq<string>, parent: bool): Lookup {
    if !parent then Walk(dirs, ms, n, names)
    else if names == [] then Missing
    else
      match Walk(dirs, ms, n, names[..|names| - 1])
      case Found(m) => if m in dirs then Found(m) else Missing
      case Missing => Missing
      case NotDir => NotDir
  }

  lemma TargetStep(dirs: Dirs, ms: seq<MountOf>, n: Node, names: seq<string>, parent: bool)
    requires names != [] && !(parent && |names| == 1)
    ensures Target(dirs, ms, n, names, parent) ==
            match Step(dirs, ms, n, names[0])
            case Found(m) => Target(dirs, ms, m, names[1..], parent)
            case Missing => Missing
            case NotDir => NotDir
  {
    if parent {
      assert names[..|names| - 1][1..] == names[1..][..|names| - 2];
    }
  }

  // ----- The inode cache -----

  datatype Slot = Slot(dev: nat, inum: nat, ref: nat)

  function NodeOf(s: Slot): Node { Node(s.dev, s.inum) }

  /** Entries in use have different identities. */
  ghost predicate Unique(icache: seq<Slot>) {
    forall i, j :: 0 <= i < j < |icache| && icache[i].ref > 0 && icache[j].ref > 0 ==> NodeOf(icache[i]) != NodeOf(icache[j])
  }

  /** `now` is `was` with the references `own` added; entries that were in use
      are still the same inodes. */
  ghost predicate Plus(was: seq<Slot>, now: seq<Slot>, own: multiset<int>) {
    && |now| == |was|
    && (forall i :: 0 <= i < |was| ==> now[i].ref == was[i].ref + own[i])
    && (forall i :: 0 <= i < |was| && was[i].ref > 0 ==> NodeOf(now[i]) == NodeOf(was[i]))
  }

  /** Every entry is in use, none of them for x. */
  ghost predicate Full(icache: seq<Slot>, x: Node) {
    forall i :: 0 <= i < |icache| ==> icache[i].ref > 0 && NodeOf(icache[i]) != x
  }

  ghost predicate Cached(icache: seq<Slot>, x: Node) {
    exists i :: 0 <= i < |icache| && icache[i].ref > 0 && NodeOf(icache[i]) == x
  }

  /** No entry for x while a walk holds one other inode: none was free, or one
      was and the inode held took it. */
  ghost predicate NoRoom(was: seq<Slot>, held: Node, x: Node) {
    && x != held && !Cached(was, x)
    && forall i, j :: 0 <= i <= j < |was| && was[i].ref == 0 && was[j].ref == 0 ==> i == j && !Cached(was, held)
  }

  lemma RoomIs(was: seq<Slot>, now: seq<Slot>, cur: nat, x: Node)
    requires Unique(now) && Plus(was, now, multiset{cur}) && cur < |now|
    ensures Full(now, x) <==> NoRoom(was, NodeOf(now[cur]), x)
  {
    if NoRoom(was, NodeOf(now[cur]), x) {
      forall i | 0 <= i < |now| ensures now[i].ref > 0 && NodeOf(now[i]) != x {
        assert was[cur].ref == 0 && was[i].ref == 0 ==> i == cur;
      }
    }
    if Full(now, x) {
      forall i, j | 0 <= i <= j < |was| && was[i].ref == 0 && was[j].ref == 0 ensures i == j && !Cached(was, NodeOf(now[cur])) {
        assert now[i].ref > 0 && now[j].ref > 0;
      }
      assert NodeOf(now[cur]) != x;
    }
  }

  /** The next element needs an entry that the inode cache cannot give. */
  ghost predicate Jams(dirs: Dirs, ms: seq<MountOf>, was: seq<Slot>, n: Node, name: string) {
    var m := From(ms, n, name);
    m in dirs && Stuck(ms, was, m, Child(dirs, m, name))
  }

  ghost predicate Stuck(ms: seq<MountOf>, was: seq<Slot>, m: Node, child: Node) {
    child.inum != 0 && (NoRoom(was, m, child) || NoRoom(was, m, Into(ms, child)))
  }

  /** Some element of the walk does. */
  ghost predicate Jammed(dirs: Dirs, ms: seq<MountOf>, was: seq<Slot>, n: Node, names: seq<string>, parent: bool)
    decreases |names|
  {
    && names != [] && n in dirs && !(parent && |names| == 1)
    && (Jams(dirs, ms, was, n, names[0])
        || match Step(dirs, ms, n, names[0])
           case Found(m) => Jammed(dirs, ms, was, m, names[1..], parent)
           case _ => false)
  }

  /** Each active mount, the root aside, is a loop image over an inode in use
      that is not a root. */
  ghost predicate EntriesOk(table: seq<Entry>, chain: seq<nat>, icache: seq<Slot>) {
    && (forall k :: 0 <= k < |chain| ==> chain[k] < |table|)
    && (forall k :: 0 <= k < |chain| - 1 ==> EntryOk(table[chain[k]], icache))
  }

  ghost predicate EntryOk(e: Entry, icache: seq<Slot>) {
    0 <= e.mnti < |icache| && icache[e.mnti].ref > 0 && icache[e.mnti].inum != ROOTINO && IsLoopDev(e.devno)
  }

  /** The mounts as the walk sees them. */
  ghost function MountsOf(table: seq<Entry>, chain: seq<nat>, icache: seq<Slot>): seq<MountOf>
    requires EntriesOk(table, chain, icache)
  {
    if |chain| <= 1 then []
    else
      var e := table[chain[0]];
      Rest(table, chain, icache);
      [MountOf(e.devno, NodeOf(icache[e.mnti]))] + MountsOf(table, chain[1..], icache)
  }

  lemma Rest(table: seq<Entry>, chain: seq<nat>, icache: seq<Slot>)
    requires EntriesOk(table, chain, icache) && |chain| > 1
    ensures EntriesOk(table, chain[1..], icache) && EntryOk(table[chain[0]], icache)
  {
    assert forall k :: 0 <= k < |chain| - 2 ==> chain[1..][k] == chain[k + 1];
  }

  /** Comparing inode pointers in mntlookup is comparing identities, because
      entries in use are unique: it finds the newest mount over the node. */
  lemma {:induction false} OverIs(table: seq<Entry>, chain: seq<nat>, icache: seq<Slot>, ip: nat)
    requires EntriesOk(table, chain, icache) && Unique(icache) && ip < |icache| && icache[ip].ref > 0
    ensures var over := Over(MountsOf(table, chain, icache), NodeOf(icache[ip]));
            && ((forall k :: 0 <= k < |chain| - 1 ==> table[chain[k]].mnti != ip) ==> over == [])
            && (forall k :: 0 <= k < |chain| - 1 && table[chain[k]].mnti == ip && (forall j :: 0 <= j < k ==> table[chain[j]].mnti != ip)
                  ==> over == [MountOf(table[chain[k]].devno, NodeOf(icache[ip]))])
    decreases |chain|
  {
    if |chain| > 1 {
      Rest(table, chain, icache);
      OverIs(table, chain[1..], icache, ip);
      var ms, tail := MountsOf(table, chain, icache), chain[1..];
      assert ms[1..] == MountsOf(table, tail, icache);
      assert forall k :: 0 <= k < |tail| ==> tail[k] == chain[k + 1];
      if table[chain[0]].mnti != ip {
        forall k | 0 <= k < |chain| - 1 && table[chain[k]].mnti == ip && forall j :: 0 <= j < k ==> table[chain[j]].mnti != ip
          ensures Over(ms, NodeOf(icache[ip])) == [MountOf(table[chain[k]].devno, NodeOf(icache[ip]))]
        {
          assert tail[k - 1] == chain[k];
          assert forall j :: 0 <= j < k - 1 ==> table[tail[j]].mnti != ip;
        }
      }
    }
  }

  lemma {:induction false} UnderIs(table: seq<Entry>, chain: seq<nat>, icache: seq<Slot>, dev: nat)
    requires EntriesOk(table, chain, icache)
    ensures var under := Under(MountsOf(table, chain, icache), dev);
            && ((forall k :: 0 <= k < |chain| - 1 ==> table[chain[k]].devno != dev) ==> under == [])
            && (forall k :: 0 <= k < |chain| - 1 && FirstOf(table, chain, k, dev)
                  ==> EntryOk(table[chain[k]], icache) && under == [MountOf(dev, NodeOf(icache[table[chain[k]].mnti]))])
    decreases |chain|
  {
    if |chain| > 1 {
      Rest(table, chain, icache);
      UnderIs(table, chain[1..], icache, dev);
      var ms, tail := MountsOf(table, chain, icache), chain[1..];
      assert ms[1..] == MountsOf(table, tail, icache);
      assert forall k :: 0 <= k < |tail| ==> tail[k] == chain[k + 1];
      if table[chain[0]].devno != dev {
        forall k | 0 <= k < |chain| - 1 && FirstOf(table, chain, k, dev)
          ensures EntryOk(table[chain[k]], icache)
          ensures Under(ms, dev) == [MountOf(dev, NodeOf(icache[table[chain[k]].mnti]))]
        {
          assert tail[k - 1] == chain[k];
          assert FirstOf(table, tail, k - 1, dev);
        }
      }
    }
  }

  /** Extra references leave the mounts as they are. */
  lemma {:induction false} MountsStay(table: seq<Entry>, chain: seq<nat>, was: seq<Slot>, now: seq<Slot>, own: multiset<int>)
    requires EntriesOk(table, chain, was) && Plus(was, now, own)
    ensures EntriesOk(table, chain, now) && MountsOf(table, chain, now) == MountsOf(table, chain, was)
    decreases |chain|
  {
    forall k | 0 <= k < |chain| - 1 ensures EntryOk(table[chain[k]], now) {
      assert EntryOk(table[chain[k]], was);
    }
    if |chain| > 1 {
      Rest(table, chain, was);
      MountsStay(table, chain[1..], was, now, own);
    }
  }

  /** What mounts tell about nodes. */
  lemma {:induction false} MountFacts(table: seq<Entry>, chain: seq<nat>, icache: seq<Slot>)
    requires EntriesOk(table, chain, icache)
    ensures forall m :: m in MountsOf(table, chain, icache) ==> m.at.inum != ROOTINO && IsLoopDev(m.dev)
    decreases |chain|
  {
    if |chain| > 1 {
      Rest(table, chain, icache);
      MountFacts(table, chain[1..], icache);
    }
  }

  lemma {:induction false} OverFacts(ms: seq<MountOf>, n: Node)
    ensures Over(ms, n) != [] ==> Over(ms, n)[0] in ms && Over(ms, n)[0].at == n && Under(ms, Over(ms, n)[0].dev) != []
  {
    if ms != [] {
      OverFacts(ms[1..], n);
    }
  }

  /** Where a walk may stand: not on a covered directory, and in an image only
      while it is mounted. */
  ghost predicate Standing(ms: seq<MountOf>, n: Node) {
    Over(ms, n) == [] && (IsLoopDev(n.dev) ==> Under(ms, n.dev) != [])
  }

  /** A step leads from such a place to another. */
  lemma StepStands(dirs: Dirs, ms: seq<MountOf>, n: Node, name: string)
    requires Standing(ms, n) && Step(dirs, ms, n, name).Found?
    requires forall m :: m in ms ==> m.at.inum != ROOTINO && IsLoopDev(m.dev)
    requires forall m :: m in ms && IsLoopDev(m.at.dev) ==> Under(ms, m.at.dev) != []
    ensures Standing(ms, Step(dirs, ms, n, name).node)
  {
    var up := Under(ms, n.dev);
    var m := if IsLoopDev(n.dev) && n.inum == ROOTINO && name == ".." && up != [] then up[0].at else n;
    UnderFacts(ms, n.dev);
    var next := Node(m.dev, FindEntry(dirs[m], name));
    OverFacts(ms, next);
    if Over(ms, next) != [] {
      RootUncovered(ms, Over(ms, next)[0].dev);
    }
  }

  lemma {:induction false} UnderFacts(ms: seq<MountOf>, dev: nat)
    ensures Under(ms, dev) != [] ==> Under(ms, dev)[0] in ms
  {
    if ms != [] {
      UnderFacts(ms[1..], dev);
    }
  }

  lemma {:induction false} RootUncovered(ms: seq<MountOf>, dev: nat)
    requires forall m :: m in ms ==> m.at.inum != ROOTINO
    ensures Over(ms, Node(dev, ROOTINO)) == []
  {
    if ms != [] {
      RootUncovered(ms[1..], dev);
    }
  }

  /** What a walk assumes of the tree: an image whose mount point lies in another
      image has that image mounted, and no covered directory is its own parent. */
  ghost predicate TreeOk(dirs: Dirs, ms: seq<MountOf>) {
    && (forall m :: m in ms && IsLoopDev(m.at.dev) ==> Under(ms, m.at.dev) != [])
    && (forall m :: m in ms && m.at in dirs ==> FindEntry(dirs[m.at], "..") != m.at.inum)
  }

  class Vfs {
    const mnt: MountTable
    const dirs: Dirs
    var icache: seq<Slot>
    var lock: int                // the entry this walk has locked, or NULL

    ghost predicate Valid()
      reads this`icache, mnt
    {
      mnt.Valid() && Unique(icache) && EntriesOk(mnt.table, mnt.chain, icache)
    }

    ghost function Ms(): seq<MountOf>
      requires Valid()
      reads this`icache, mnt
    {
      MountsOf(mnt.table, mnt.chain, icache)
    }

    /** iinit and mountinit: nothing cached, only the root mounted. */
    constructor (dirs: Dirs)
      ensures Valid() && Ms() == [] && lock == NULL && fresh(mnt) && this.dirs == dirs
    {
      mnt := new MountTable();
      this.dirs := dirs;
      icache := seq(NINODE, _ => Slot(0, 0, 0));
      lock := NULL;
    }

    /** iget: the entry for the inode, or an unused one made to be it. */
    method Iget(dev: nat, inum: nat) returns (panic: bool, ip: nat)
      requires Unique(icache)
      modifies this`icache
      ensures panic <==> Full(old(icache), Node(dev, inum))
      ensures panic ==> icache == old(icache)
      ensures !panic ==> Unique(icache) && ip < |icache| && NodeOf(icache[ip]) == Node(dev, inum)
      ensures !panic ==> Plus(old(icache), icache, multiset{ip})
      ensures !panic && old(icache)[ip].ref == 0 ==> forall i :: 0 <= i < ip ==> old(icache)[i].ref > 0
    {
      var empty := NULL;
      var i := 0;
      while i < |icache|
        invariant 0 <= i <= |icache|
        invariant forall k :: 0 <= k < i ==> !(icache[k].ref > 0 && NodeOf(icache[k]) == Node(dev, inum))
        invariant empty == NULL || (0 <= empty < i && icache[empty].ref == 0 && forall k :: 0 <= k < empty ==> icache[k].ref > 0)
        invariant empty == NULL ==> forall k :: 0 <= k < i ==> icache[k].ref > 0
      {
        if icache[i].ref > 0 && icache[i].dev == dev && icache[i].inum == inum {
          icache := icache[i := icache[i].(ref := icache[i].ref + 1)];
          return false, i;
        }
        if empty == NULL && icache[i].ref == 0 {
          empty := i;
        }
        i := i + 1;
      }
      if empty == NULL {
        return true, 0;
      }
      icache := icache[empty := Slot(dev, inum, 1)];
      return false, empty;
    }

    /** idup */
    method Idup(ip: nat)
      requires ip < |icache| && icache[ip].ref > 0
      modifies this`icache
      ensures icache == old(icache)[ip := old(icache)[ip].(ref := old(icache)[ip].ref + 1)]
    {
      icache := icache[ip := icache[ip].(ref := icache[ip].ref + 1)];
    }

    /** iput takes the inode's sleep-lock, so the caller must not hold it. */
    method Iput(ip: nat)
      requires ip < |icache| && icache[ip].ref > 0 && lock != ip
      modifies this`icache
      ensures icache == old(icache)[ip := old(icache)[ip].(ref := old(icache)[ip].ref - 1)]
    {
      icache := icache[ip := icache[ip].(ref := icache[ip].ref - 1)];
    }

    /** ilock: its panic on a free entry, and waiting for oneself, cannot happen. */
    method Ilock(ip: nat)
      requires ip < |icache| && icache[ip].ref >= 1 && lock == NULL
      modifies this`lock
      ensures lock == ip
    {
      lock := ip;
    }

    method Iunlock(ip: nat)
      requires ip < |icache| && icache[ip].ref >= 1 && lock == ip
      modifies this`lock
      ensures lock == NULL
    {
      lock := NULL;
    }

    /** dirlookup: the first entry with the name, as an inode. */
    method DirLookup(n: Node, name: string) returns (panic: bool, ip: int)
      requires n in dirs && Unique(icache)
      modifies this`icache
      ensures panic ==> icache == old(icache) && forall i :: 0 <= i < |icache| ==> icache[i].ref > 0
      ensures panic <==> FindEntry(dirs[n], name) != 0 && Full(old(icache), Node(n.dev, FindEntry(dirs[n], name)))
      ensures !panic ==> (ip == NULL <==> forall j :: 0 <= j < |dirs[n]| && dirs[n][j].inum != 0 ==> dirs[n][j].name != name)
      ensures !panic && ip != NULL ==>
                exists j :: 0 <= j < |dirs[n]| && dirs[n][j].name == name
                  && 0 <= ip < |icache| && NodeOf(icache[ip]) == Node(n.dev, dirs[n][j].inum)
                  && forall i :: 0 <= i < j && dirs[n][i].inum != 0 ==> dirs[n][i].name != name
      ensures !panic ==> Unique(icache) && (ip == NULL <==> FindEntry(dirs[n], name) == 0)
      ensures !panic && ip == NULL ==> icache == old(icache)
      ensures !panic && ip != NULL ==>
                && 0 <= ip < |icache| && NodeOf(icache[ip]) == Node(n.dev, FindEntry(dirs[n], name))
                && Plus(old(icache), icache, multiset{ip})
    {
      var es := dirs[n];
      var off := 0;
      ghost var rest := es;
      while off < |es|
        invariant 0 <= off <= |es| && rest == es[off..] && FindEntry(rest, name) == FindEntry(es, name)
        invariant forall j :: 0 <= j < off && es[j].inum != 0 ==> es[j].name != name
        invariant icache == old(icache)
      {
        if es[off].inum != 0 && es[off].name == name {
          panic, ip := Iget(n.dev, es[off].inum);
          return;
        }
        off := off + 1;
        rest := rest[1..];
      }
      return false, NULL;
    }

    /** getmntpnt for an image that is mounted. */
    method MountPoint(dev: nat) returns (mnti: nat)
      requires Valid() && IsLoopDev(dev) && Under(Ms(), dev) != []
      ensures mnti < |icache| && IsMountPoint(mnt.table, mnt.chain, mnti)
      ensures NodeOf(icache[mnti]) == Under(Ms(), dev)[0].at
    {
      hide Under, Unique, MountsOf, ChainOk, CountsOk, EntriesOk, FirstOf;
      var p;
      ghost var at;
      p, at := mnt.GetMntPnt(dev);
      PointIs(mnt.table, mnt.head, mnt.chain, icache, dev, at);
      mnti := p;
    }

    /** namex at the root of an image with "..": on to the mount point. */
    method CrossUp(ip: nat, ghost was: seq<Slot>) returns (up: nat)
      requires Valid() && lock == ip && ip < |icache| && Plus(was, icache, multiset{ip})
      requires Unique(was) && EntriesOk(mnt.table, mnt.chain, was)
      requires IsLoopDev(icache[ip].dev) && Under(Ms(), icache[ip].dev) != []
      modifies this
      ensures Valid() && lock == up && up < |icache| && Plus(was, icache, multiset{up})
      ensures Ms() == old(Ms()) && NodeOf(icache[up]) == Under(old(Ms()), old(icache)[ip].dev)[0].at
    {
      hide Under, Unique, ChainOk, CountsOk, MountsOf, EntriesOk, Plus;
      up := MountPoint(icache[ip].dev);
      InUse(mnt.table, mnt.chain, was, up);
      PlusAt(was, icache, multiset{ip}, up);
      PlusAt(was, icache, multiset{ip}, ip);
      ghost var before := icache;
      Idup(up);
      Iunlock(ip);
      Iput(ip);
      Moved(was, before, icache, ip, up);
      MountsStay(mnt.table, mnt.chain, was, before, multiset{ip});
      MountsStay(mnt.table, mnt.chain, was, icache, multiset{up});
      Ilock(up);
    }

    /** namex after dirlookup: from a covered directory on to the root of the
        image.  The reference mntlookup takes is given back. */
    method CrossDown(ip: nat, found: nat, ghost was: seq<Slot>) returns (panic: bool, next: nat)
      requires Valid() && lock == ip && ip < |icache| && found < |icache|
      requires Plus(was, icache, multiset{ip, found}) && EntriesOk(mnt.table, mnt.chain, was)
      requires Over(Ms(), NodeOf(icache[found])) != [] ==> found != ip
      modifies this`icache, mnt`table
      ensures panic ==> forall i :: 0 <= i < |icache| ==> icache[i].ref > 0
      ensures panic <==> (var found := old(NodeOf(icache[found]));
                Over(old(Ms()), found) != [] && NoRoom(was, old(NodeOf(icache[ip])), Into(old(Ms()), found)))
      ensures !panic ==> Valid() && mnt.table == old(mnt.table) && ip < |icache| && next < |icache|
      ensures !panic ==> Plus(was, icache, multiset{ip, next}) && Ms() == old(Ms())
      ensures !panic ==>
                var over := Over(old(Ms()), old(NodeOf(icache[found])));
                NodeOf(icache[next]) == if over == [] then old(NodeOf(icache[found])) else Node(over[0].dev, ROOTINO)
    {
      hide Under, Unique, ChainOk, CountsOk, MountsOf, EntriesOk, Plus, Over, NoRoom;
      PlusAt(was, icache, multiset{ip, found}, found);
      OverIs(mnt.table, mnt.chain, icache, found);
      MountsStay(mnt.table, mnt.chain, was, icache, multiset{ip, found});
      ghost var table := mnt.table;
      var nextmp := mnt.MntLookup(found);
      next, panic := found, false;
      if nextmp == NULL {
        assert mnt.table == table;
        return;
      }
      var newdev := mnt.table[nextmp].devno;
      CoverIs(table, mnt.head, mnt.chain, old(icache), nextmp, found);
      Iput(found);
      assert multiset{ip, found} == multiset{ip} + multiset{found};
      Dropped(was, old(icache), multiset{ip}, found, icache);
      ghost var dropped := icache;
      RoomIs(was, icache, ip, Node(newdev, ROOTINO));
      panic, next := Iget(newdev, ROOTINO);
      if panic {
        return;
      }
      PlusPlus(was, dropped, icache, multiset{ip}, multiset{next});
      assert multiset{ip, next} == multiset{ip} + multiset{next};
      MountsStay(table, mnt.chain, was, icache, multiset{ip, next});
      mnt.MntPut(nextmp);
      assert mnt.table == table;
    }

    /** What a walk keeps between elements: one reference, on ip, above those
        there were, and the mounts as they were. */
    ghost predicate Walking(was: seq<Slot>, table: seq<Entry>, ms: seq<MountOf>, ip: nat)
      reads this, mnt
    {
      && Valid() && mnt.table == table && Ms() == ms && Unique(was) && EntriesOk(table, mnt.chain, was)
      && ip < |icache| && Plus(was, icache, multiset{ip})
    }

    /** iunlockput at the end of a failed walk. */
    method GiveUp(ip: nat, ghost was: seq<Slot>, ghost ms: seq<MountOf>)
      requires Walking(was, mnt.table, ms, ip) && lock == ip
      modifies this
      ensures Valid() && lock == NULL && Plus(was, icache, multiset{})
    {
      hide Unique, ChainOk, CountsOk, MountsOf, EntriesOk, Plus;
      PlusAt(was, icache, multiset{ip}, ip);
      Iunlock(ip);
      Iput(ip);
      LastDropped(was, old(icache), ip, icache);
      MountsStay(mnt.table, mnt.chain, was, icache, multiset{});
    }

    /** dirlookup in the directory held, and on into a mounted image. */
    method Enter(cur: nat, name: string, ghost was: seq<Slot>, ghost ms: seq<MountOf>) returns (panic: bool, next: int)
      requires Walking(was, mnt.table, ms, cur) && lock == cur && NodeOf(icache[cur]) in dirs
      requires Over(ms, Child(dirs, NodeOf(icache[cur]), name)) != [] ==>
                 Child(dirs, NodeOf(icache[cur]), name) != NodeOf(icache[cur])
      modifies this, mnt`table
      ensures panic ==> forall i :: 0 <= i < |icache| ==> icache[i].ref > 0
      ensures panic <==> Stuck(ms, was, old(NodeOf(icache[cur])), Child(dirs, old(NodeOf(icache[cur])), name))
      ensures !panic ==> lock == NULL && (next == NULL <==> Child(dirs, old(NodeOf(icache[cur])), name).inum == 0)
      ensures !panic && next == NULL ==> Valid() && mnt.table == old(mnt.table) && Plus(was, icache, multiset{})
      ensures !panic && next != NULL ==>
                && next >= 0 && Walking(was, old(mnt.table), ms, next)
                && NodeOf(icache[next]) == Into(ms, Child(dirs, old(NodeOf(icache[cur])), name))
    {
      hide Under, Over, Unique, ChainOk, CountsOk, MountsOf, EntriesOk, Plus, FindEntry, NoRoom, Full;
      MountsStay(mnt.table, mnt.chain, was, icache, multiset{cur});
      PlusAt(was, icache, multiset{cur}, cur);
      RoomIs(was, icache, cur, Child(dirs, NodeOf(icache[cur]), name));
      panic, next := DirLookup(NodeOf(icache[cur]), name);
      if panic {
        return;
      }
      if next == NULL {
        GiveUp(cur, was, ms);
        return;
      }
      PlusPlus(was, old(icache), icache, multiset{cur}, multiset{next});
      assert multiset{cur} + multiset{next} == multiset{cur, next};
      MountsStay(mnt.table, mnt.chain, was, icache, multiset{cur, next});
      PlusAt(old(icache), icache, multiset{next}, cur);
      panic, next := CrossDown(cur, next, was);
      if panic {
        return;
      }
      ghost var mid := icache;
      PlusAt(was, icache, multiset{cur, next}, cur);
      PlusAt(was, icache, multiset{cur, next}, next);
      Iunlock(cur);
      Iput(cur);
      assert multiset{cur, next} == multiset{next} + multiset{cur};
      Dropped(was, mid, multiset{next}, cur, icache);
      MountsStay(mnt.table, mnt.chain, was, icache, multiset{next});
    }

    /** One turn of namex's loop, from the lookup of the name on. */
    method WalkOne(ip: nat, name: string, ghost was: seq<Slot>, ghost ms: seq<MountOf>) returns (panic: bool, next: int)
      requires Walking(was, mnt.table, ms, ip) && lock == ip && NodeOf(icache[ip]) in dirs
      requires Standing(ms, NodeOf(icache[ip])) && TreeOk(dirs, ms)
      modifies this, mnt`table
      ensures !panic ==> lock == NULL && !Step(dirs, ms, old(NodeOf(icache[ip])), name).NotDir?
      ensures !panic && next == NULL ==>
                && Step(dirs, ms, old(NodeOf(icache[ip])), name) == Missing
                && Valid() && mnt.table == old(mnt.table) && Plus(was, icache, multiset{})
      ensures !panic && next != NULL ==>
                && next >= 0 && Walking(was, old(mnt.table), ms, next)
                && Step(dirs, ms, old(NodeOf(icache[ip])), name) == Found(NodeOf(icache[next]))
      ensures panic <==> Step(dirs, ms, old(NodeOf(icache[ip])), name) == NotDir || Jams(dirs, ms, was, old(NodeOf(icache[ip])), name)
      ensures panic ==>
                || Step(dirs, ms, old(NodeOf(icache[ip])), name) == NotDir
                || forall i :: 0 <= i < |icache| ==> icache[i].ref > 0
    {
      hide Under, Over, Unique, ChainOk, CountsOk, MountsOf, EntriesOk, Plus, FindEntry, NoRoom, Full;
      var cur := ip;
      ghost var n := NodeOf(icache[ip]);
      if IsLoopDev(icache[ip].dev) && icache[ip].inum == ROOTINO && name == ".." {
        cur := CrossUp(ip, was);
        if NodeOf(icache[cur]) !in dirs {
          return true, NULL;
        }
      }
      NotSelf(dirs, ms, n, NodeOf(icache[cur]), name, Child(dirs, NodeOf(icache[cur]), name));
      panic, next := Enter(cur, name, was, ms);
    }

    /** Where namex starts: the root, or the current directory. */
    method StartAt(path: string, cwd: nat) returns (panic: bool, ip: nat)
      requires Valid() && cwd < |icache| && icache[cwd].ref > 0 && Standing(Ms(), NodeOf(icache[cwd]))
      modifies this`icache
      ensures panic <==> |path| > 0 && path[0] == '/' && Full(old(icache), Node(ROOTDEV, ROOTINO))
      ensures panic ==> forall i :: 0 <= i < |icache| ==> icache[i].ref > 0
      ensures !panic ==> Walking(old(icache), mnt.table, old(Ms()), ip)
      ensures !panic ==> NodeOf(icache[ip]) == StartOf(path, old(NodeOf(icache[cwd]))) && Standing(old(Ms()), NodeOf(icache[ip]))
    {
      hide ChainOk, CountsOk, MountsOf, EntriesOk, Over, Under;
      if |path| > 0 && path[0] == '/' {
        MountFacts(mnt.table, mnt.chain, icache);
        RootUncovered(Ms(), ROOTDEV);
        panic, ip := Iget(ROOTDEV, ROOTINO);
        if panic {
          return;
        }
      } else {
        panic, ip := false, cwd;
        Idup(ip);
      }
      MountsStay(mnt.table, mnt.chain, old(icache), icache, multiset{ip});
    }

    /** namex: on every exit one reference more on the inode returned and none
        elsewhere, the mount references as before, and no lock held.  It panics
        exactly when an inode on the way is not cached and has no room, or a mount
        point crossed upwards is not a directory. */
    method Namex(path: string, cwd: nat, parent: bool) returns (panic: bool, r: int, name: string)
      requires Valid() && lock == NULL && TreeOk(dirs, Ms())
      requires cwd < |icache| && icache[cwd].ref > 0 && Standing(Ms(), NodeOf(icache[cwd]))
      modifies this, mnt`table
      ensures !panic ==> Valid() && lock == NULL && mnt.table == old(mnt.table)
      ensures !panic ==>
                match Target(dirs, old(Ms()), StartOf(path, old(NodeOf(icache[cwd]))), Elems(path, 0), parent)
                case Found(n) =>
                  && 0 <= r < |icache| && NodeOf(icache[r]) == n && Plus(old(icache), icache, multiset{r})
                  && (parent ==> Elems(path, 0) != [] && name == Elems(path, 0)[|Elems(path, 0)| - 1])
                case Missing => r == NULL && Plus(old(icache), icache, multiset{})
                case NotDir => false
      ensures panic <==>
                || (|path| > 0 && path[0] == '/' && Full(old(icache), Node(ROOTDEV, ROOTINO)))
                || Jammed(dirs, old(Ms()), old(icache), StartOf(path, old(NodeOf(icache[cwd]))), Elems(path, 0), parent)
                || Target(dirs, old(Ms()), StartOf(path, old(NodeOf(icache[cwd]))), Elems(path, 0), parent) == NotDir
      ensures panic ==>
                || Target(dirs, old(Ms()), StartOf(path, old(NodeOf(icache[cwd]))), Elems(path, 0), parent) == NotDir
                || forall i :: 0 <= i < |icache| ==> icache[i].ref > 0
    {
      hide Under, Over, Unique, ChainOk, CountsOk, MountsOf, EntriesOk, Plus, Step, Standing, TreeOk, Target, Elems, Full, Jams;
      ghost var was, ms, table, all := icache, Ms(), mnt.table, Elems(path, 0);
      ghost var goal := Target(dirs, ms, StartOf(path, NodeOf(icache[cwd])), all, parent);
      ghost var jammed := Jammed(dirs, ms, was, StartOf(path, NodeOf(icache[cwd])), all, parent);
      MountFacts(mnt.table, mnt.chain, icache);
      name := "";
      var ip: nat;
      panic, ip := StartAt(path, cwd);
      if panic {
        r := NULL;
        return;
      }
      var pos := 0;
      while true
        invariant pos <= |path| && lock == NULL && Walking(was, table, ms, ip) && Standing(ms, NodeOf(icache[ip]))
        invariant Target(dirs, ms, NodeOf(icache[ip]), Elems(path, pos), parent) == goal
        invariant Jammed(dirs, ms, was, NodeOf(icache[ip]), Elems(path, pos), parent) == jammed
        invariant Elems(path, pos) != [] ==> |all| > 0 && all[|all| - 1] == Elems(path, pos)[|Elems(path, pos)| - 1]
        decreases |path| - pos
      {
        ghost var n, names := NodeOf(icache[ip]), Elems(path, pos);
        var found, next;
        found, name, next := SkipElem(path, pos);
        if !found {
          TargetEnd(dirs, ms, n, parent);
          break;
        }
        TargetOf(dirs, ms, n, names, parent);
        ghost var tail := Elems(path, next);
        assert names[1..] == tail && |names| == 1 + |tail|;
        Ilocked(was, icache, ip);
        Ilock(ip);
        if NodeOf(icache[ip]) !in dirs {
          GiveUp(ip, was, ms);
          return false, NULL, name;
        }
        if parent && next == |path| {
          Iunlock(ip);
          return false, ip, name;
        }
        TargetStep(dirs, ms, n, names, parent);
        var to: int;
        panic, to := WalkOne(ip, name, was, ms);
        if panic {
          r := NULL;
          return;
        }
        if to == NULL {
          return false, NULL, name;
        }
        StandsOn(dirs, ms, n, name);
        ip, pos := to, next;
      }
      if parent {
        Ilocked(was, icache, ip);
        ghost var now := icache;
        Iput(ip);
        LastDropped(was, now, ip, icache);
        MountsStay(mnt.table, mnt.chain, was, icache, multiset{});
        return false, NULL, name;
      }
      r := ip;
    }

    /** sys_mount once both paths are resolved: a new mount over mnti, which
        keeps a reference; a root directory is refused. */
    method Mount(mnti: nat, devno: nat) returns (panic: bool, r: int)
      requires Valid() && mnti < |icache| && icache[mnti].ref > 0 && IsLoopDev(devno)
      modifies this`icache, mnt
      ensures Valid() && |icache| == |old(icache)|
      ensures r == (if panic || old(icache)[mnti].inum == ROOTINO then -1 else 0)
      ensures r == -1 ==> icache == old(icache) && Ms() == old(Ms())
      ensures r == 0 ==> Ms() == [MountOf(devno, NodeOf(icache[mnti]))] + old(Ms()) && Plus(old(icache), icache, multiset{mnti})
      ensures panic <==> old(icache)[mnti].inum != ROOTINO && forall k :: 0 <= k < NMNT ==> old(mnt.table)[k].refcnt > 0
    {
      hide CountsOk, Plus, EntriesOk, MountsOf;
      if icache[mnti].inum == ROOTINO {
        return false, -1;
      }
      ghost var table, chain := mnt.table, mnt.chain;
      panic := mnt.Mount(devno, mnti);
      if panic {
        r := -1;
        return;
      }
      Idup(mnti);
      Dupped(old(icache), mnti, icache);
      MountsStay(table, chain, old(icache), icache, multiset{mnti});
      MountsPush(table, chain, icache, mnt.table, mnt.head, devno, mnti);
      r := 0;
    }

    /** sys_umount once the path is resolved: the newest mount of the device
        goes, if nothing uses it.  The mount point keeps the mount's reference. */
    method Umount(dev: nat) returns (r: int, ghost at: nat)
      requires Valid() && IsLoopDev(dev)
      modifies mnt
      ensures Valid() && (r == -1 || r == 0)
      ensures r == -1 ==> Ms() == old(Ms())
      ensures r == -1 <==> NotMounted(old(mnt.table), old(mnt.chain), dev) || Referenced(old(mnt.table), old(mnt.chain), dev)
      ensures r == 0 ==>
                && at < |old(Ms())| && old(Ms())[at].dev == dev && (forall k :: 0 <= k < at ==> old(Ms())[k].dev != dev)
                && Ms() == old(Ms())[..at] + old(Ms())[at + 1..]
    {
      hide NotMounted, Referenced, FirstOf, Distinct, CountsOk, EntriesOk, MountsOf;
      ghost var table, chain := mnt.table, mnt.chain;
      r, at := mnt.Umount(dev);
      if r == 0 {
        NewestOf(table, chain, icache, at, dev);
        MountsDrop(table, chain, icache, mnt.table, at);
      }
    }
  }

  ghost predicate IsMountPoint(table: seq<Entry>, chain: seq<nat>, mnti: int) {
    exists k :: 0 <= k < |chain| - 1 && chain[k] < |table| && table[chain[k]].mnti == mnti
  }

  /** Which entry getmntpnt finds for an image that is mounted. */
  lemma PointIs(table: seq<Entry>, head: int, chain: seq<nat>, icache: seq<Slot>, dev: nat, at: nat)
    requires ChainOk(table, head, chain) && table[0].devno == 0 && EntriesOk(table, chain, icache) && IsLoopDev(dev)
    requires Under(MountsOf(table, chain, icache), dev) != []
    requires if at == |chain| then forall k :: 0 <= k < |chain| ==> table[chain[k]].devno != dev else FirstOf(table, chain, at, dev)
    ensures at < |chain| - 1 && EntryOk(table[chain[at]], icache) && IsMountPoint(table, chain, table[chain[at]].mnti)
    ensures NodeOf(icache[table[chain[at]].mnti]) == Under(MountsOf(table, chain, icache), dev)[0].at
  {
    hide Under, MountsOf, Distinct;
    UnderIs(table, chain, icache, dev);
    assert chain[|chain| - 1] == 0;
  }

  lemma InUse(table: seq<Entry>, chain: seq<nat>, was: seq<Slot>, mnti: int)
    requires EntriesOk(table, chain, was) && IsMountPoint(table, chain, mnti)
    ensures 0 <= mnti < |was| && was[mnti].ref > 0
  {
    var k :| 0 <= k < |chain| - 1 && chain[k] < |table| && table[chain[k]].mnti == mnti;
    assert EntryOk(table[chain[k]], was);
  }

  lemma PlusAt(was: seq<Slot>, now: seq<Slot>, own: multiset<int>, i: nat)
    requires Plus(was, now, own) && i < |now|
    ensures |now| == |was| && now[i].ref == was[i].ref + own[i]
    ensures was[i].ref > 0 ==> NodeOf(now[i]) == NodeOf(was[i])
  {
  }

  /** A reference moved from entry i to entry j, which was in use before. */
  lemma Moved(was: seq<Slot>, now: seq<Slot>, later: seq<Slot>, i: nat, j: nat)
    requires Unique(was) && Plus(was, now, multiset{i}) && i < |was| && j < |was| && was[j].ref > 0
    requires var mid := now[j := now[j].(ref := now[j].ref + 1)];
             mid[i].ref > 0 && later == mid[i := mid[i].(ref := mid[i].ref - 1)]
    ensures Plus(was, later, multiset{j}) && Unique(later) && NodeOf(later[j]) == NodeOf(now[j])
  {
    forall k | 0 <= k < |was| ensures later[k].ref == was[k].ref + multiset{j}[k] {
      assert now[k].ref == was[k].ref + multiset{i}[k];
    }
  }

  lemma CoverIs(table: seq<Entry>, head: int, chain: seq<nat>, icache: seq<Slot>, i: nat, ip: nat)
    requires ChainOk(table, head, chain) && table[0].mnti == NULL && EntriesOk(table, chain, icache) && Unique(icache)
    requires ip < |icache| && icache[ip].ref > 0 && i < |table| && FirstOver(table, chain, i, ip)
    ensures Over(MountsOf(table, chain, icache), NodeOf(icache[ip])) == [MountOf(table[i].devno, NodeOf(icache[ip]))]
  {
    hide MountsOf, Over, Unique, Distinct, EntriesOk;
    OverIs(table, chain, icache, ip);
    var k :| 0 <= k < |chain| && chain[k] == i && table[i].mnti == ip && forall j :: 0 <= j < k ==> table[chain[j]].mnti != ip;
    assert chain[|chain| - 1] == 0;
  }

  lemma PlusPlus(a: seq<Slot>, b: seq<Slot>, c: seq<Slot>, x: multiset<int>, y: multiset<int>)
    requires Plus(a, b, x) && Plus(b, c, y)
    ensures Plus(a, c, x + y)
  {
  }

  /** Giving one reference back. */
  lemma Dropped(was: seq<Slot>, now: seq<Slot>, own: multiset<int>, i: nat, later: seq<Slot>)
    requires Plus(was, now, own + multiset{i}) && i < |now| && now[i].ref > 0 && Unique(now)
    requires later == now[i := now[i].(ref := now[i].ref - 1)]
    ensures Plus(was, later, own) && Unique(later)
  {
    assert forall k :: 0 <= k < |was| ==> (own + multiset{i})[k] == own[k] + if k == i then 1 else 0;
  }

  lemma LastDropped(was: seq<Slot>, now: seq<Slot>, i: nat, later: seq<Slot>)
    requires Plus(was, now, multiset{i}) && i < |now| && now[i].ref > 0 && Unique(now)
    requires later == now[i := now[i].(ref := now[i].ref - 1)]
    ensures Plus(was, later, multiset{}) && Unique(later)
  {
    assert multiset{} + multiset{i} == multiset{i};
    Dropped(was, now, multiset{}, i, later);
  }

  /** The directory searched is not the covered one it leads to, so giving back
      the covered one does not wait for a lock the walk holds. */
  lemma NotSelf(dirs: Dirs, ms: seq<MountOf>, n: Node, m: Node, name: string, next: Node)
    requires Standing(ms, n) && TreeOk(dirs, ms) && m in dirs && next == Node(m.dev, FindEntry(dirs[m], name))
    requires if IsLoopDev(n.dev) && n.inum == ROOTINO && name == ".." then Under(ms, n.dev) != [] && m == Under(ms, n.dev)[0].at else m == n
    ensures Over(ms, next) != [] ==> next != m
  {
    UnderFacts(ms, n.dev);
  }

  lemma TargetEnd(dirs: Dirs, ms: seq<MountOf>, n: Node, parent: bool)
    ensures Target(dirs, ms, n, [], parent) == if parent then Missing else Found(n)
  {
  }

  lemma StandsOn(dirs: Dirs, ms: seq<MountOf>, n: Node, name: string)
    requires Standing(ms, n) && TreeOk(dirs, ms) && Step(dirs, ms, n, name).Found?
    requires forall m :: m in ms ==> m.at.inum != ROOTINO && IsLoopDev(m.dev)
    ensures Standing(ms, Step(dirs, ms, n, name).node)
  {
    StepStands(dirs, ms, n, name);
  }

  function StartOf(path: string, cwd: Node): Node {
    if |path| > 0 && path[0] == '/' then Node(ROOTDEV, ROOTINO) else cwd
  }

  lemma Ilocked(was: seq<Slot>, now: seq<Slot>, ip: nat)
    requires Plus(was, now, multiset{ip}) && ip < |now|
    ensures now[ip].ref >= 1
  {
  }

  /** The cases namex decides without looking a name up. */
  lemma TargetOf(dirs: Dirs, ms: seq<MountOf>, n: Node, names: seq<string>, parent: bool)
    requires names != []
    ensures n !in dirs ==> Target(dirs, ms, n, names, parent) == Missing
    ensures parent && |names| == 1 && n in dirs ==> Target(dirs, ms, n, names, parent) == Found(n)
  {
    if parent && |names| > 1 {
      assert names[..|names| - 1] != [];
    }
  }

  lemma Dupped(was: seq<Slot>, ip: nat, now: seq<Slot>)
    requires ip < |was| && was[ip].ref > 0 && Unique(was) && now == was[ip := was[ip].(ref := was[ip].ref + 1)]
    ensures Plus(was, now, multiset{ip}) && Unique(now)
  {
  }

  lemma {:induction false} MountsAt(table: seq<Entry>, chain: seq<nat>, icache: seq<Slot>)
    requires EntriesOk(table, chain, icache) && |chain| > 0
    ensures |MountsOf(table, chain, icache)| == |chain| - 1
    ensures forall k :: 0 <= k < |chain| - 1 ==>
              && EntryOk(table[chain[k]], icache)
              && MountsOf(table, chain, icache)[k] == MountOf(table[chain[k]].devno, NodeOf(icache[table[chain[k]].mnti]))
    decreases |chain|
  {
    if |chain| > 1 {
      Rest(table, chain, icache);
      MountsAt(table, chain[1..], icache);
      assert forall k :: 1 <= k < |chain| ==> chain[k] == chain[1..][k - 1];
    }
  }

  lemma MountsPush(table: seq<Entry>, chain: seq<nat>, icache: seq<Slot>, table': seq<Entry>, i: nat, devno: nat, mnti: nat)
    requires EntriesOk(table, chain, icache) && |chain| > 0 && i < |table| == |table'| && i !in chain
    requires table' == table[i := table'[i]] && table'[i].devno == devno && table'[i].mnti == mnti && EntryOk(table'[i], icache)
    ensures EntriesOk(table', Onto(i, chain), icache)
    ensures MountsOf(table', Onto(i, chain), icache) == [MountOf(devno, NodeOf(icache[mnti]))] + MountsOf(table, chain, icache)
  {
    var c := Onto(i, chain);
    forall k | 0 <= k < |c| - 1 ensures EntryOk(table'[c[k]], icache) {
      if k > 0 {
        assert c[k] == chain[k - 1] && chain[k - 1] in chain && EntryOk(table[chain[k - 1]], icache);
      }
    }
    MountsAt(table, chain, icache);
    MountsAt(table', c, icache);
    var ms := MountsOf(table', c, icache);
    forall k | 1 <= k < |ms| ensures ms[k] == MountsOf(table, chain, icache)[k - 1] {
      assert c[k] == chain[k - 1] && chain[k - 1] in chain;
    }
  }

  lemma NewestOf(table: seq<Entry>, chain: seq<nat>, icache: seq<Slot>, at: nat, dev: nat)
    requires EntriesOk(table, chain, icache) && at < |chain| - 1 && FirstOf(table, chain, at, dev)
    ensures var ms := MountsOf(table, chain, icache);
            at < |ms| && ms[at].dev == dev && forall k :: 0 <= k < at ==> ms[k].dev != dev
  {
    hide MountsOf;
    MountsAt(table, chain, icache);
  }

  lemma MountsDrop(table: seq<Entry>, chain: seq<nat>, icache: seq<Slot>, table': seq<Entry>, at: nat)
    requires EntriesOk(table, chain, icache) && at < |chain| - 1 && |table'| == |table|
    requires Distinct(chain)
    requires forall i :: 0 <= i < |table| && i != chain[at] ==> table'[i].devno == table[i].devno && table'[i].mnti == table[i].mnti
    ensures var c, ms := Without(chain, at), MountsOf(table, chain, icache);
            && EntriesOk(table', c, icache) && at < |ms| && MountsOf(table', c, icache) == ms[..at] + ms[at + 1..]
  {
    hide MountsOf, Distinct;
    var c := Without(chain, at);
    forall k | 0 <= k < |c| ensures c[k] < |table| && c[k] != chain[at] {
      DistinctAt(chain, if k < at then k else k + 1, at);
    }
    forall k | 0 <= k < |c| - 1 ensures EntryOk(table'[c[k]], icache) {
      assert EntryOk(table[c[k]], icache);
    }
    MountsAt(table, chain, icache);
    MountsAt(table', c, icache);
    var ms, ms' := MountsOf(table, chain, icache), MountsOf(table', c, icache);
    forall k | 0 <= k < |ms'| ensures ms'[k] == ms[if k < at then k else k + 1] {
      assert c[k] == chain[if k < at then k else k + 1];
    }
  }
}
