/** The mount table of sysmount.c: a table of entries, some of them linked into
    the list of active mounts.  A pointer is an index, -1 is null; an inode
    pointer is an index into the inode cache.  mount and umount run alone.
 */
module Mounts {
  import opened Lists

  const NMNT := 10
  const NULL := -1

  datatype Entry = Entry(devno: nat, mnti: int, refcnt: nat, next: int)

  /** The list from head through the next links is chain: finite, without
      repetition, ending in the root entry. */
  ghost predicate ChainOk(table: seq<Entry>, head: int, chain: seq<nat>) {
    && |table| == NMNT && |chain| > 0 && head == chain[0] && chain[|chain| - 1] == 0
    && (forall k :: 0 <= k < |chain| ==> chain[k] < NMNT)
    && (forall k {:trigger table[chain[k]]} :: 0 <= k < |chain| - 1 ==> table[chain[k]].next == chain[k + 1])
    && table[0].next == NULL
    && Distinct(chain)
  }

  /** Active entries are exactly those with references. */
  ghost predicate CountsOk(table: seq<Entry>, chain: seq<nat>) {
    |table| == NMNT && forall i :: 0 <= i < NMNT ==> (table[i].refcnt > 0 <==> i in chain)
  }

  class MountTable {
    var table: seq<Entry>
    var head: int
    ghost var chain: seq<nat>

    ghost predicate Valid()
      reads this
    {
      && ChainOk(table, head, chain) && CountsOk(table, chain)
      && table[0].devno == 0 && table[0].mnti == NULL
    }

    /** mountinit */
    constructor ()
      ensures Valid() && chain == [0]
    {
      table := [Entry(0, NULL, 1, NULL)] + seq(NMNT - 1, _ => Entry(0, NULL, 0, NULL));
      head := 0;
      chain := [0];
    }

    /** mntalloc takes the first unused entry with two references; it is not yet
        in the list. */
    method MntAlloc() returns (panic: bool, i: nat)
      requires Valid()
      modifies this`table
      ensures panic <==> forall k :: 0 <= k < NMNT ==> old(table)[k].refcnt > 0
      ensures panic ==> table == old(table)
      ensures !panic ==> i < NMNT && i !in chain && table == old(table)[i := old(table)[i].(refcnt := 2)]
    {
      i := 0;
      while i < NMNT && table[i].refcnt != 0
        invariant 0 <= i <= NMNT && forall k :: 0 <= k < i ==> table[k].refcnt > 0
      {
        i := i + 1;
      }
      if i == NMNT {
        return true, 0;
      }
      table := table[i := table[i].(refcnt := 2)];
      panic := false;
    }

    /** mntdup */
    method MntDup(i: nat)
      requires Valid() && i in chain && i < NMNT
      modifies this`table
      ensures Valid() && table == old(table)[i := old(table)[i].(refcnt := old(table)[i].refcnt + 1)]
    {
      table := table[i := table[i].(refcnt := table[i].refcnt + 1)];
    }

    /** mntput.  The table stays in order exactly when the list's own reference
        is left. */
    method MntPut(i: nat)
      requires Valid() && i in chain && i < NMNT && table[i].refcnt >= 1
      modifies this`table
      ensures table == old(table)[i := old(table)[i].(refcnt := old(table)[i].refcnt - 1)]
      ensures Valid() <==> old(table)[i].refcnt > 1
    {
      table := table[i := table[i].(refcnt := table[i].refcnt - 1)];
    }

    /** The table part of sys_mount: a new entry at the front of the list. */
    method Mount(devno: nat, mnti: int) returns (panic: bool)
      requires Valid() && mnti >= 0
      modifies this
      ensures Valid()
      ensures panic <==> forall k :: 0 <= k < NMNT ==> old(table)[k].refcnt > 0
      ensures panic ==> table == old(table) && chain == old(chain) && head == old(head)
      ensures !panic ==>
                && head !in old(chain) && 0 <= head < NMNT && chain == Onto(head, old(chain))
                && table == old(table)[head := Entry(devno, mnti, 1, old(head))]
    {
      var i;
      panic, i := MntAlloc();
      if panic {
        return;
      }
      table := table[i := table[i].(devno := devno)];
      table := table[i := table[i].(mnti := mnti)];
      table := table[i := table[i].(next := head)];
      head := i;
      Pushed(old(table), old(head), chain, table, i);
      chain := Onto(i, chain);
      MntPut(i);
    }

    /** The walk of sys_umount, mntlookup and getmntpnt: each entry met has
        references, so their zero-count panic cannot happen. */
    method Find(byDev: bool, key: int) returns (cur: int, ghost at: nat)
      requires Valid()
      ensures cur == NULL ==> forall k :: 0 <= k < |chain| ==> !Matches(table[chain[k]], byDev, key)
      ensures cur != NULL ==>
                && at < |chain| && cur == chain[at] && Matches(table[cur], byDev, key)
                && forall k :: 0 <= k < at ==> !Matches(table[chain[k]], byDev, key)
    {
      cur, at := head, 0;
      while cur != NULL
        invariant 0 <= at <= |chain| && cur == (if at < |chain| then chain[at] else NULL)
        invariant forall k :: 0 <= k < at ==> !Matches(table[chain[k]], byDev, key)
        decreases |chain| - at
      {
        assert chain[at] in chain;
        assert table[cur].refcnt != 0;
        if Matches(table[cur], byDev, key) {
          return;
        }
        assert at + 1 == |chain| ==> cur == 0;
        cur, at := table[cur].next, at + 1;
      }
    }

    /** sys_umount's second walk finds the entry, and the one before it. */
    method FindPre(m: nat, ghost at: nat) returns (pre: int)
      requires Valid() && at < |chain| && m == chain[at]
      ensures pre == if at == 0 then NULL else chain[at - 1]
    {
      hide CountsOk;
      var cur := head;
      pre := NULL;
      ghost var k := 0;
      while cur != NULL && cur != m
        invariant 0 <= k <= at && cur == chain[k] && pre == (if k == 0 then NULL else chain[k - 1])
        decreases at - k
      {
        assert k != at;
        assert table[chain[k]].next == chain[k + 1];
        pre, cur, k := cur, table[cur].next, k + 1;
      }
      assert cur != NULL;                      // the panic for an entry that is not in the list
    }

    /** Entry number at leaves the list. */
    method Unlink(m: nat, ghost at: nat)
      requires Valid() && at < |chain| - 1 && m == chain[at]
      modifies this
      ensures Valid() && chain == Without(old(chain), at) && m < NMNT && table[m] == Entry(0, NULL, 0, NULL)
      ensures forall i :: 0 <= i < NMNT && i != m ==> table[i] == old(table)[i].(next := table[i].next)
    {
      hide CountsOk, ChainOk, Distinct;
      var pre := FindPre(m, at);
      ChainAt(table, head, chain, at);
      ChainApart(table, head, chain, at);
      Relinked(table, head, chain, at);
      RelinkedCounts(table, chain, at);
      if pre == NULL {
        head := table[m].next;
      } else {
        table := table[pre := table[pre].(next := table[m].next)];
      }
      table := table[m := Entry(0, NULL, 0, NULL)];
      assert table == CutOut(old(table), chain, at);
      chain := Without(chain, at);
    }

    /** The table part of sys_umount: the first entry of the device leaves the
        list, and only it, if the list holds its only reference. */
    method Umount(dev: nat) returns (r: int, ghost at: nat)
      requires Valid() && dev != 0
      modifies this
      ensures Valid()
      ensures r == -1 || r == 0
      ensures r == -1 ==> table == old(table) && chain == old(chain) && head == old(head)
      ensures r == 0 ==>
                && at < |old(chain)| - 1 && chain == Without(old(chain), at)
                && FirstOf(old(table), old(chain), at, dev) && old(table)[old(chain)[at]].refcnt == 1
                && table[old(chain)[at]] == Entry(0, NULL, 0, NULL)
                && forall i :: 0 <= i < NMNT && i != old(chain)[at] ==>
                     table[i] == old(table)[i].(next := table[i].next)
      ensures r == -1 <==> NotMounted(old(table), old(chain), dev) || Referenced(old(table), old(chain), dev)
    {
      hide Distinct;
      var m;
      m, at := Find(true, dev);
      if m == NULL {
        r := -1;
        return;
      }
      assert FirstOf(table, chain, at, dev);
      assert chain[at] in chain;
      if table[m].refcnt > 1 {
        r := -1;
        return;
      }
      assert at != |chain| - 1;
      Unlink(m, at);
      r := 0;
    }

    /** mntlookup: the entry covering an inode, with one more reference. */
    method MntLookup(ip: nat) returns (cur: int)
      requires Valid()
      modifies this`table
      ensures Valid()
      ensures cur == NULL ==> table == old(table) && forall k :: 0 <= k < |chain| ==> table[chain[k]].mnti != ip
      ensures cur != NULL ==>
                && 0 <= cur < NMNT && cur in chain && table == old(table)[cur := old(table)[cur].(refcnt := old(table)[cur].refcnt + 1)]
                && FirstOver(old(table), chain, cur, ip) && |table| == NMNT && table[cur].refcnt > 1
    {
      ghost var at;
      cur, at := Find(false, ip);
      if cur != NULL {
        assert FirstOver(table, chain, cur, ip);
        MntDup(cur);
      }
    }

    /** getmntpnt: the inode a device is mounted on. */
    method GetMntPnt(dev: nat) returns (mnti: int, ghost at: nat)
      requires Valid()
      ensures at == |chain| ==> mnti == NULL && forall k :: 0 <= k < |chain| ==> table[chain[k]].devno != dev
      ensures at != |chain| ==> FirstOf(table, chain, at, dev) && mnti == table[chain[at]].mnti
      ensures forall k :: 0 <= k < |chain| && FirstOf(table, chain, k, dev) ==> mnti == table[chain[k]].mnti
      ensures (forall k :: 0 <= k < |chain| ==> table[chain[k]].devno != dev) ==> mnti == NULL
    {
      var cur;
      cur, at := Find(true, dev);
      if cur == NULL {
        return NULL, |chain|;
      }
      mnti := table[cur].mnti;
      assert FirstOf(table, chain, at, dev);
    }
  }

  predicate Matches(e: Entry, byDev: bool, key: int) {
    if byDev then e.devno == key else e.mnti == key
  }

  /** Entry number k of the list is the first for the device. */
  ghost predicate FirstOf(table: seq<Entry>, chain: seq<nat>, k: nat, dev: nat)
    requires forall j :: 0 <= j < |chain| ==> chain[j] < |table|
  {
    k < |chain| && table[chain[k]].devno == dev && forall j :: 0 <= j < k ==> table[chain[j]].devno != dev
  }

  ghost predicate NotMounted(table: seq<Entry>, chain: seq<nat>, dev: nat)
    requires forall j :: 0 <= j < |chain| ==> chain[j] < |table|
  {
    forall k :: 0 <= k < |chain| ==> table[chain[k]].devno != dev
  }

  /** The first entry of the device has references besides the list's own. */
  ghost predicate Referenced(table: seq<Entry>, chain: seq<nat>, dev: nat)
    requires forall j :: 0 <= j < |chain| ==> chain[j] < |table|
  {
    exists k :: 0 <= k < |chain| && FirstOf(table, chain, k, dev) && table[chain[k]].refcnt > 1
  }

  /** Entry i is the first in the list that covers ip. */
  ghost predicate FirstOver(table: seq<Entry>, chain: seq<nat>, i: nat, ip: int)
    requires forall j :: 0 <= j < |chain| ==> chain[j] < |table|
  {
    exists k :: 0 <= k < |chain| && chain[k] == i && table[i].mnti == ip && forall j :: 0 <= j < k ==> table[chain[j]].mnti != ip
  }

  lemma Pushed(t: seq<Entry>, head: int, chain: seq<nat>, t': seq<Entry>, i: nat)
    requires ChainOk(t, head, chain) && i < NMNT && i !in chain
    requires |t'| == NMNT && t'[i].next == head && forall k :: 0 <= k < NMNT && k != i ==> t'[k] == t[k]
    ensures ChainOk(t', i, Onto(i, chain))
  {
    var c := Onto(i, chain);
    assert chain[|chain| - 1] in chain;
    forall k | 0 <= k < |c| ensures c[k] < NMNT {}
    forall k | 0 <= k < |c| - 1 ensures t'[c[k]].next == c[k + 1] {
      if k > 0 {
        assert c[k] == chain[k - 1] && chain[k - 1] in chain && c[k + 1] == chain[k];
        assert t[chain[k - 1]].next == chain[k];
      }
    }
    DistinctOnto(chain, i);
  }

  lemma ChainAt(t: seq<Entry>, head: int, chain: seq<nat>, k: nat)
    requires ChainOk(t, head, chain) && k < |chain|
    ensures |t| == NMNT && head == chain[0] && chain[k] < NMNT && Distinct(chain) && chain[|chain| - 1] == 0
    ensures t[chain[k]].next == if k + 1 < |chain| then chain[k + 1] else NULL
    ensures forall j :: 0 <= j < |chain| ==> chain[j] < |t|
  {
  }

  lemma ChainApart(t: seq<Entry>, head: int, chain: seq<nat>, at: nat)
    requires ChainOk(t, head, chain) && at < |chain| - 1
    ensures chain[at] != 0 && (at > 0 ==> chain[at - 1] != chain[at] && chain[at - 1] != 0 && chain[at - 1] < NMNT)
  {
  }

  /** The table after entry number at has been cut out of the list and cleared. */
  function CutOut(t: seq<Entry>, chain: seq<nat>, at: nat): seq<Entry>
    requires at < |chain| - 1 && forall k :: 0 <= k < |chain| ==> chain[k] < |t|
  {
    var relinked := if at == 0 then t else t[chain[at - 1] := t[chain[at - 1]].(next := t[chain[at]].next)];
    relinked[chain[at] := Entry(0, NULL, 0, NULL)]
  }

  lemma RelinkedCounts(t: seq<Entry>, chain: seq<nat>, at: nat)
    requires CountsOk(t, chain) && at < |chain| - 1 && Distinct(chain) && forall k :: 0 <= k < |chain| ==> chain[k] < |t|
    ensures CountsOk(CutOut(t, chain, at), Without(chain, at))
  {
    forall i: nat ensures i in Without(chain, at) <==> i in chain && i != chain[at] {
      StillIn(chain, at, i);
    }
  }

  lemma Relinked(t: seq<Entry>, head: int, chain: seq<nat>, at: nat)
    requires ChainOk(t, head, chain) && at < |chain| - 1
    ensures ChainOk(CutOut(t, chain, at), if at == 0 then chain[1] else head, Without(chain, at))
  {
    var c, t' := Without(chain, at), CutOut(t, chain, at);
    forall k | 0 <= k < |c| - 1 ensures t'[c[k]].next == c[k + 1] {
      if k == at - 1 {
        assert c[k] == chain[k] && c[k + 1] == chain[k + 2] && t[chain[at]].next == chain[at + 1];
      } else if k < at {
        assert c[k] == chain[k] && c[k + 1] == chain[k + 1] && t[chain[k]].next == chain[k + 1];
      } else {
        assert c[k] == chain[k + 1] && c[k + 1] == chain[k + 2] && t[chain[k + 1]].next == chain[k + 2];
      }
    }
    assert chain[|chain| - 1] == 0 && t'[chain[|chain| - 1]].next == t[0].next by {
      DistinctAt(chain, |chain| - 1, at);
    }
    DistinctWithout(chain, at);
  }
}
