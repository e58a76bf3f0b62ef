/** free, morecore and malloc of umalloc.c over header memory that they update
    in place.  `fl` and `live` are the ghost view: the free blocks in address
    order and the blocks handed out.
 */
module Umalloc {
  import opened FreeList

  const HEADER: nat := 8     // sizeof(Header)
  const MIN_CORE: nat := 4096

  /** What sbrk would answer. */
  datatype Sbrk = Failed | Granted(at: nat)

  /** The units sbrk is asked for: enough, and never fewer than 4096. */
  function CoreUnits(nu: nat): (r: nat)
    ensures nu <= r && 4096 <= r && (r == nu || r == 4096)
  {
    if nu < MIN_CORE then MIN_CORE else nu
  }

  /** The block at freep or the one after it has at least n units. */
  ghost predicate FitsNear(ptr: Links, size: Links, freep: nat, n: nat) {
    && freep in size && freep in ptr
    && (size[freep] >= n || (ptr[freep] in size && size[ptr[freep]] >= n))
  }

  ghost predicate Linkable(ptr: Links, size: Links, bp: nat, p: nat) {
    && bp in size && p in size && p in ptr && p != bp
    && (bp + size[bp] == ptr[p] ==> ptr[p] in size && ptr[p] in ptr && ptr[p] != bp && ptr[p] != p)
  }

  /** The size fields once bp has been linked in after p. */
  ghost function LinkedSize(ptr: Links, size: Links, bp: nat, p: nat): Links
    requires Linkable(ptr, size, bp, p)
  {
    var s1 := if bp + size[bp] == ptr[p] then size[bp := size[bp] + size[ptr[p]]] else size;
    if p + size[p] == bp then s1[p := s1[p] + s1[bp]] else s1
  }

  ghost function LinkedPtr(ptr: Links, size: Links, bp: nat, p: nat): Links
    requires Linkable(ptr, size, bp, p)
  {
    var p1 := ptr[bp := if bp + size[bp] == ptr[p] then ptr[ptr[p]] else ptr[p]];
    p1[p := if p + size[p] == bp then p1[bp] else bp]
  }

  class Allocator {
    var ptr: Links           // header field s.ptr
    var size: Links          // header field s.size
    var freep: nat
    ghost var fl: seq<nat>   // free blocks after base, in ring order
    ghost var live: Links    // header address and units of blocks handed out
    ghost var brk: nat       // end of the memory obtained so far
    ghost var obtained: nat  // units obtained from sbrk

    ghost predicate Balanced()
      reads this
    {
      FreeUnits(size, fl) + LiveUnits(live) == obtained
    }

    ghost predicate Valid()
      reads this
    {
      && BASE < brk
      && (freep == NULL ==> fl == [] && live == map[] && obtained == 0)
      && (freep != NULL ==>
            RingOk(ptr, size, fl, brk) && LiveOk(size, fl, live, brk) && freep in [BASE] + fl && Balanced())
    }

    constructor (start: nat)
      requires BASE < start
      ensures Valid() && freep == NULL && brk == start
    {
      ptr, size, freep, fl, live, brk, obtained := map[], map[], NULL, [], map[], start, 0;
    }

    /** free's search from freep for the place of bp in the ring.  It halts. */
    method FindPlace(bp: nat) returns (p: nat)
      requires Valid() && bp in live
      ensures var ring := [BASE] + fl; ring[0] < bp && p == ring[Place(ring, bp)]
    {
      hide Chain, Ascending, EndOf, FreeUnits, LiveUnits, LiveOk;
      ghost var ring := [BASE] + fl;
      ghost var x, y := SplitAtPlace(ptr, size, fl, brk, live, bp);
      ghost var t := |x|;
      ghost var i: nat :| i < |ring| && ring[i] == freep;
      p := freep;
      SearchStops(ptr, size, fl, brk, bp, i);
      while !(bp > p && bp < ptr[p])
        invariant i < |ring| && p == ring[i] && p in ptr && ptr[p] == After(ring, i)
        invariant i == t <==> (bp > p && bp < ptr[p]) || (p >= ptr[p] && (bp > p || bp < ptr[p]))
        decreases if i <= t then t - i else |ring| - i + t
      {
        if p >= ptr[p] && (bp > p || bp < ptr[p]) {
          break;
        }
        p := ptr[p];
        i := if i + 1 < |ring| then i + 1 else 0;
        SearchStops(ptr, size, fl, brk, bp, i);
      }
    }

    /** The linking half of free: join bp with the block above it and with p
        below it when they touch. */
    method LinkIn(bp: nat, p: nat)
      requires Linkable(ptr, size, bp, p)
      modifies this`ptr, this`size, this`freep
      ensures freep == p && size == LinkedSize(old(ptr), old(size), bp, p) && ptr == LinkedPtr(old(ptr), old(size), bp, p)
    {
      if bp + size[bp] == ptr[p] {
        size := size[bp := size[bp] + size[ptr[p]]];
        ptr := ptr[bp := ptr[ptr[p]]];
      } else {
        ptr := ptr[bp := ptr[p]];
      }
      if p + size[p] == bp {
        size := size[p := size[p] + size[bp]];
        ptr := ptr[p := ptr[bp]];
      } else {
        ptr := ptr[p := bp];
      }
      freep := p;
    }

    /** free: find where the block belongs and link it in. */
    method Free(ap: nat)
      requires Valid() && ap > 0 && ap - 1 in live
      modifies this
      ensures Valid() && freep != NULL
      ensures live == old(live) - {ap - 1} && obtained == old(obtained) && brk == old(brk)
      ensures FitsNear(ptr, size, freep, old(live)[ap - 1])
    {
      hide FreeUnits, LiveUnits, Split, RingOk, LiveOk, SizeAfterFree, PtrAfterFree, ListAfterFree, JoinsUp, JoinsDown, Last, First, FitsNear, LinkedSize, LinkedPtr;
      var bp := ap - 1;
      var p := FindPlace(bp);
      LiveAboveBase(size, fl, live, brk, bp);
      ghost var x, y := SplitAtPlace(ptr, size, fl, brk, live, bp);
      FreeResult(ptr, size, x, y, brk, live, bp);
      FreeIsLink(ptr, size, x, y, brk, live, bp, p);
      LinkIn(bp, p);
      fl := ListAfterFree(old(size), x, y, bp);
      live := live - {bp};
    }

    /** morecore: take memory from sbrk and free it into the list. */
    method Morecore(nu: nat, grant: Sbrk) returns (p: nat)
      requires Valid() && freep != NULL
      requires grant.Granted? ==> grant.at >= brk
      modifies this
      ensures Valid() && live == old(live)
      ensures grant.Failed? ==> p == NULL && freep == old(freep) && brk == old(brk) && fl == old(fl) && size == old(size) && obtained == old(obtained)
      ensures grant.Granted? ==> p == freep != NULL && obtained == old(obtained) + CoreUnits(nu)
      ensures grant.Granted? ==> FitsNear(ptr, size, freep, nu)
    {
      hide FreeUnits, LiveUnits, RingOk, LiveOk;
      var n := CoreUnits(nu);
      if grant.Failed? {
        return NULL;
      }
      var hp := grant.at;
      NewCore(ptr, size, fl, live, brk, hp, n);
      size := size[hp := n];
      brk := hp + n;
      live := live[hp := n];
      obtained := obtained + n;
      Free(hp + 1);
      assert live == old(live);
      p := freep;
    }

    /** The part of malloc that takes nunits from block p, whose predecessor in
        the ring is prevp: all of it, or its tail. */
    method Take(prevp: nat, p: nat, nunits: nat, ghost k: nat) returns (hp: nat)
      requires Valid() && freep != NULL && k < |fl| && p == fl[k] && prevp == ([BASE] + fl)[k]
      requires p in size && size[p] >= nunits >= 1
      modifies this
      ensures Valid() && freep != NULL
      ensures hp !in old(live) && live == old(live)[hp := nunits]
      ensures obtained == old(obtained) && brk == old(brk)
    {
      hide FreeUnits, LiveUnits, RingOk, LiveOk;
      ghost var x, y := fl[..k], fl[k + 1..];
      Middle(fl, k);
      RingAt(ptr, size, fl, brk, k);
      RingAt(ptr, size, fl, brk, k + 1);
      hp := p;
      if size[p] == nunits {
        TakeWhole(ptr, size, x, p, y, live, brk);
        ptr := ptr[prevp := ptr[p]];
        fl := x + y;
      } else {
        TakeTail(ptr, size, x, p, y, nunits, live, brk);
        size := size[p := size[p] - nunits];
        hp := p + size[p];
        size := size[hp := nunits];
      }
      LiveAdd(live, hp, nunits);
      live := live[hp := nunits];
      freep := prevp;
    }

    /** One round of malloc's loop, from the block after freep to freep itself.
        It stops at the first block that is large enough. */
    method Round(nunits: nat) returns (found: bool, prevp: nat, p: nat, ghost k: nat)
      requires Valid() && freep != NULL && nunits >= 1
      ensures found ==> k < |fl| && p == fl[k] && prevp == ([BASE] + fl)[k] && p in size && size[p] >= nunits
      ensures !found ==> forall a :: a in fl ==> a in size && size[a] < nunits
    {
      hide FreeUnits, LiveUnits, RingOk, LiveOk, NoneFits;
      ghost var f: nat := InRing(fl, freep);
      ghost var seen: nat := 0;
      prevp := freep;
      RingAt(ptr, size, fl, brk, f);
      p := ptr[prevp];
      NextIndex(fl, f, 0);
      k := 0;
      NoneYet(size, fl, f, nunits);
      while true
        invariant seen <= |fl| && prevp == BlockAt(fl, f, seen) && p == BlockAt(fl, f, seen + 1)
        invariant NoneFits(size, fl, f, seen, nunits)
        decreases |fl| - seen
      {
        ghost var i := Around(f, seen + 1, |fl| + 1);
        RingAt(ptr, size, fl, brk, i);
        if size[p] >= nunits {
          NotBase(ptr, size, fl, brk, i, nunits);
          BeforeIndex(fl, f, seen);
          k := i - 1;
          return true, prevp, p, k;
        }
        if p == freep {
          SameIndex(ptr, size, fl, brk, f, i);
          AllSeen(size, fl, f, seen, nunits);
          return false, prevp, p, k;
        }
        LastIndex(fl, f, seen);
        NextIndex(fl, f, seen + 1);
        NextFits(size, fl, f, seen, nunits);
        prevp := p;
        p := ptr[p];
        seen := seen + 1;
      }
    }

    /** malloc.  When a whole round finds no block, memory is requested once and
        the next round must find one. */
    method Malloc(nbytes: nat, grant: Sbrk) returns (ap: nat)
      requires Valid()
      requires grant.Granted? ==> grant.at >= brk
      modifies this
      ensures Valid() && freep != NULL
      ensures ap != NULL ==> ap - 1 !in old(live) && live == old(live)[ap - 1 := Units(nbytes)]
      ensures ap == NULL ==> live == old(live) && grant.Failed? && forall a :: a in fl ==> a in size && size[a] < Units(nbytes)
      ensures ap == NULL ==> obtained == old(obtained) && brk == old(brk)
      ensures obtained == old(obtained) || (grant.Granted? && obtained == old(obtained) + CoreUnits(Units(nbytes)))
      ensures obtained > old(obtained) ==> forall a :: a in old(fl) && a in old(size) ==> old(size)[a] < Units(nbytes)
    {
      hide FreeUnits, LiveUnits, RingOk, LiveOk;
      var nunits := Units(nbytes);
      if freep == NULL {
        ptr := ptr[BASE := BASE];
        freep := BASE;
        size := size[BASE := 0];
        EmptyHeap(ptr, size, brk);
      }
      var found, prevp, p, k := Round(nunits);
      if !found {
        p := Morecore(nunits, grant);
        if p == NULL {
          return NULL;
        }
        SomeFits(ptr, size, fl, brk, freep, nunits);
        found, prevp, p, k := Round(nunits);
        assert found;
      }
      ap := Take(prevp, p, nunits, k);
      ap := ap + 1;
    }
  }

  /** After morecore the block at freep or the one after it is large enough. */
  lemma SomeFits(ptr: Links, size: Links, fl: seq<nat>, brk: nat, freep: nat, n: nat)
    requires RingOk(ptr, size, fl, brk) && freep in [BASE] + fl && FitsNear(ptr, size, freep, n) && n >= 1
    ensures exists a :: a in fl && a in size && size[a] >= n
  {
    var i := InRing(fl, freep);
    RingAt(ptr, size, fl, brk, i);
    if size[freep] >= n {
      assert fl[i - 1] in fl;
    } else {
      assert ptr[freep] != BASE;
      assert fl[i] in fl;
    }
  }

  function Units(nbytes: nat): (n: nat)
    ensures n >= 1 && (n - 1) * HEADER >= nbytes && (n - 2) * HEADER < nbytes
  {
    (nbytes + HEADER - 1) / HEADER + 1
  }

  lemma EmptyHeap(ptr: Links, size: Links, brk: nat)
    requires BASE in ptr && ptr[BASE] == BASE && BASE in size && size[BASE] == 0 && BASE < brk
    ensures RingOk(ptr, size, [], brk) && LiveOk(size, [], map[], brk)
    ensures FreeUnits(size, []) == 0 && LiveUnits(map[]) == 0
  {
    assert [BASE] + [] == [BASE] && [BASE][1..] == [];
  }

  ghost function InRing(fl: seq<nat>, a: nat): (i: nat)
    requires a in [BASE] + fl
    ensures i <= |fl| && ([BASE] + fl)[i] == a
  {
    var i :| 0 <= i < |[BASE] + fl| && ([BASE] + fl)[i] == a;
    i
  }

  /** j places after f in a ring of n, for j at most n. */
  function Around(f: nat, j: nat, n: nat): (k: nat)
    requires f < n && j <= n
    ensures k < n
  {
    if f + j < n then f + j else f + j - n
  }

  ghost function BlockAt(fl: seq<nat>, f: nat, j: nat): nat
    requires f <= |fl| && j <= |fl| + 1
  {
    ([BASE] + fl)[Around(f, j, |fl| + 1)]
  }

  /** The blocks of the round so far are too small. */
  ghost predicate NoneFits(size: Links, fl: seq<nat>, f: nat, seen: nat, n: nat)
    requires f <= |fl| && seen <= |fl| + 1
  {
    forall j :: 1 <= j <= seen ==> BlockAt(fl, f, j) in size && size[BlockAt(fl, f, j)] < n
  }

  lemma NoneYet(size: Links, fl: seq<nat>, f: nat, n: nat)
    requires f <= |fl|
    ensures NoneFits(size, fl, f, 0, n)
  {
  }

  lemma NextFits(size: Links, fl: seq<nat>, f: nat, seen: nat, n: nat)
    requires f <= |fl| && seen <= |fl| && NoneFits(size, fl, f, seen, n)
    requires BlockAt(fl, f, seen + 1) in size && size[BlockAt(fl, f, seen + 1)] < n
    ensures NoneFits(size, fl, f, seen + 1, n)
  {
  }

  lemma NextIndex(fl: seq<nat>, f: nat, j: nat)
    requires f <= |fl| && j <= |fl|
    ensures After([BASE] + fl, Around(f, j, |fl| + 1)) == ([BASE] + fl)[Around(f, j + 1, |fl| + 1)]
  {
  }

  /** Only base has size 0, so a block that fits is not base. */
  lemma NotBase(ptr: Links, size: Links, fl: seq<nat>, brk: nat, k: nat, n: nat)
    requires RingOk(ptr, size, fl, brk) && k <= |fl| && n >= 1
    requires ([BASE] + fl)[k] in size && size[([BASE] + fl)[k]] >= n
    ensures k > 0 && fl[k - 1] == ([BASE] + fl)[k]
  {
  }

  lemma BeforeIndex(fl: seq<nat>, f: nat, j: nat)
    requires f <= |fl| && j <= |fl| && Around(f, j + 1, |fl| + 1) > 0
    ensures Around(f, j, |fl| + 1) == Around(f, j + 1, |fl| + 1) - 1
  {
  }

  lemma SameIndex(ptr: Links, size: Links, fl: seq<nat>, brk: nat, i: nat, j: nat)
    requires RingOk(ptr, size, fl, brk) && i <= |fl| && j <= |fl|
    requires ([BASE] + fl)[i] == ([BASE] + fl)[j]
    ensures i == j
  {
    if i != j {
      var lo, hi := if i < j then i else j, if i < j then j else i;
      if lo == 0 {
        AscendingAt(BASE, size, fl, fl[hi - 1]);
      } else {
        RingIncreasing(BASE, size, fl, lo - 1, hi - 1);
      }
    }
  }

  /** Back at freep, the whole ring has been looked at. */
  lemma AllSeen(size: Links, fl: seq<nat>, f: nat, seen: nat, n: nat)
    requires f <= |fl| && seen <= |fl| && Around(f, seen + 1, |fl| + 1) == f
    requires BlockAt(fl, f, seen + 1) in size && size[BlockAt(fl, f, seen + 1)] < n
    requires NoneFits(size, fl, f, seen, n)
    ensures forall a :: a in fl ==> a in size && size[a] < n
  {
    forall a | a in fl ensures a in size && size[a] < n {
      var i :| 0 <= i < |fl| && fl[i] == a;
      var j := if i + 1 > f then i + 1 - f else i + 1 + |fl| + 1 - f;
      assert Around(f, j, |fl| + 1) == i + 1;
      assert BlockAt(fl, f, j) == a;
    }
  }

  lemma LastIndex(fl: seq<nat>, f: nat, seen: nat)
    requires f <= |fl| && seen <= |fl| && Around(f, seen + 1, |fl| + 1) != f
    ensures seen < |fl|
  {
  }

  lemma Middle(fl: seq<nat>, k: nat)
    requires k < |fl|
    ensures var x, p, y := fl[..k], fl[k], fl[k + 1..];
            && fl == x + [p] + y
            && ([BASE] + fl)[k] == Last([BASE] + x) && ([BASE] + fl)[k + 1] == p
            && ([BASE] + fl)[k] in [BASE] + (x + y) && ([BASE] + fl)[k] in [BASE] + fl
  {
    var x, y := fl[..k], fl[k + 1..];
    assert ([BASE] + fl)[k] == ([BASE] + (x + y))[k];
  }

  lemma TakeWhole(ptr: Links, size: Links, x: seq<nat>, p: nat, y: seq<nat>, live: Links, brk: nat)
    requires RingOk(ptr, size, x + [p] + y, brk) && LiveOk(size, x + [p] + y, live, brk)
    ensures p in size && p in ptr && p !in live
    ensures RingOk(ptr[Last([BASE] + x) := ptr[p]], size, x + y, brk) && LiveOk(size, x + y, live[p := size[p]], brk)
    ensures FreeUnits(size, x + y) + size[p] == FreeUnits(size, x + [p] + y)
  {
    hide Chain, Ascending, EndOf, LiveOk, FreeUnits;
    TakeWholeChain(ptr, size, x, p, y);
    TakeWholeAscending(size, x, p, y);
    TakeWholeLive(size, x, p, y, live, brk);
    TakeWholeUnits(size, x, p, y);
  }

  lemma TakeTail(ptr: Links, size: Links, x: seq<nat>, p: nat, y: seq<nat>, n: nat, live: Links, brk: nat)
    requires RingOk(ptr, size, x + [p] + y, brk) && LiveOk(size, x + [p] + y, live, brk)
    requires p in size && 1 <= n < size[p]
    ensures var q := p + size[p] - n;
            var size' := size[p := size[p] - n][q := n];
            var fl := x + [p] + y;
            && q !in live && RingOk(ptr, size', fl, brk) && LiveOk(size', fl, live[q := n], brk)
            && FreeUnits(size', fl) + n == FreeUnits(size, fl)
  {
    hide Chain, Ascending, EndOf, LiveOk, FreeUnits;
    MiddleFacts(size, x, p, y);
    TakeTailAscending(size, x, p, y, n);
    TakeTailLive(size, x, p, y, n, live, brk);
    TakeTailUnits(size, x, p, y, n);
  }

  lemma FreeUnderBrk(ptr: Links, size: Links, fl: seq<nat>, brk: nat)
    requires RingOk(ptr, size, fl, brk)
    ensures forall a :: a in fl ==> a in size && BASE < a && a + size[a] <= brk && size[a] >= 1
  {
    forall a | a in fl ensures a in size && BASE < a && a + size[a] <= brk && size[a] >= 1 {
      AscendingAt(BASE, size, fl, a);
    }
  }

  lemma NewCoreRing(ptr: Links, size: Links, fl: seq<nat>, brk: nat, hp: nat, n: nat)
    requires RingOk(ptr, size, fl, brk) && BASE < brk <= hp
    ensures RingOk(ptr, size[hp := n], fl, hp + n)
    ensures FreeUnits(size[hp := n], fl) == FreeUnits(size, fl)
  {
    hide Chain;
    FreeUnderBrk(ptr, size, fl, brk);
    AscendingSame(BASE, size, size[hp := n], fl);
    FreeSame(size, size[hp := n], fl);
  }

  lemma NewCoreLive(size: Links, fl: seq<nat>, live: Links, brk: nat, hp: nat, n: nat)
    requires LiveOk(size, fl, live, brk) && BASE < brk <= hp && n >= 1
    requires forall a :: a in fl ==> a in size && a + size[a] <= brk && size[a] >= 1
    ensures hp !in live && LiveOk(size[hp := n], fl, live[hp := n], hp + n)
  {
  }

  /** Fresh memory counts as one live block. */
  lemma NewCore(ptr: Links, size: Links, fl: seq<nat>, live: Links, brk: nat, hp: nat, n: nat)
    requires RingOk(ptr, size, fl, brk) && LiveOk(size, fl, live, brk) && BASE < brk <= hp && n >= 1
    ensures hp !in live
    ensures RingOk(ptr, size[hp := n], fl, hp + n) && LiveOk(size[hp := n], fl, live[hp := n], hp + n)
    ensures FreeUnits(size[hp := n], fl) == FreeUnits(size, fl)
    ensures LiveUnits(live[hp := n]) == LiveUnits(live) + n
  {
    hide RingOk, LiveOk, FreeUnits, LiveUnits;
    FreeUnderBrk(ptr, size, fl, brk);
    NewCoreRing(ptr, size, fl, brk, hp, n);
    NewCoreLive(size, fl, live, brk, hp, n);
    LiveAdd(live, hp, n);
  }

  lemma LiveAboveBase(size: Links, fl: seq<nat>, live: Links, brk: nat, bp: nat)
    requires LiveOk(size, fl, live, brk) && bp in live
    ensures BASE < bp && live[bp] >= 1
  {
  }

  /** What free reads at its place p in the ring. */
  lemma FreeTests(ptr: Links, size: Links, x: seq<nat>, y: seq<nat>, brk: nat, bp: nat, p: nat)
    requires RingOk(ptr, size, x + y, brk) && Split(size, x, y, bp) && p == Last([BASE] + x)
    ensures p in size && p in ptr && BASE <= p < bp && ptr[p] == First(y, BASE)
    ensures y != [] ==> bp < y[0] && y[0] in size && y[0] in ptr && ptr[y[0]] == First(y[1..], BASE)
    ensures Linkable(ptr, size, bp, p)
  {
    hide Chain, Ascending, EndOf;
    RingAt(ptr, size, x + y, brk, |x|);
    NextAbove(x, y);
    FreeBlocks(size, x, y, bp);
    SplitFacts(size, x, y, bp);
    if y != [] {
      RingAt(ptr, size, x + y, brk, |x| + 1);
      assert y[0] == ([BASE] + (x + y))[|x| + 1];
    }
  }

  /** The assignments of free give the header fields of the list lemmas. */
  lemma FreeAssigns(ptr: Links, size: Links, x: seq<nat>, y: seq<nat>, bp: nat, p: nat)
    requires Linkable(ptr, size, bp, p) && p == Last([BASE] + x) && ptr[p] == First(y, BASE)
    requires y != [] ==> bp < y[0] && y[0] in size && y[0] in ptr && ptr[y[0]] == First(y[1..], BASE)
    requires BASE < bp && size[bp] >= 1
    requires p + size[p] == bp <==> JoinsDown(size, x, bp)
    ensures SizeAfterFree(size, x, y, bp) == LinkedSize(ptr, size, bp, p)
    ensures PtrAfterFree(ptr, size, x, y, bp) == LinkedPtr(ptr, size, bp, p)
  {
    hide EndOf;
    if !JoinsUp(size, y, bp) {
      assert size[bp := size[bp]] == size;
    }
  }

  lemma FreeIsLink(ptr: Links, size: Links, x: seq<nat>, y: seq<nat>, brk: nat, live: Links, bp: nat, p: nat)
    requires RingOk(ptr, size, x + y, brk) && Split(size, x, y, bp) && p == Last([BASE] + x)
    requires p in size && (JoinsDown(size, x, bp) <==> p + size[p] == bp)
    ensures bp in size && BASE <= p && (y != [] ==> y[0] in size)
    ensures Linkable(ptr, size, bp, p)
    ensures SizeAfterFree(size, x, y, bp) == LinkedSize(ptr, size, bp, p)
    ensures PtrAfterFree(ptr, size, x, y, bp) == LinkedPtr(ptr, size, bp, p)
  {
    hide RingOk, Ascending, EndOf;
    FreeTests(ptr, size, x, y, brk, bp, p);
    FreeAssigns(ptr, size, x, y, bp, p);
  }

  lemma FreeResult(ptr: Links, size: Links, x: seq<nat>, y: seq<nat>, brk: nat, live: Links, bp: nat)
    requires RingOk(ptr, size, x + y, brk) && LiveOk(size, x + y, live, brk) && bp in live && Split(size, x, y, bp)
    ensures bp in size && Last([BASE] + x) in size && (y != [] ==> y[0] in size)
    ensures var size', fl' := SizeAfterFree(size, x, y, bp), ListAfterFree(size, x, y, bp);
            && RingOk(PtrAfterFree(ptr, size, x, y, bp), size', fl', brk)
            && LiveOk(size', fl', live - {bp}, brk)
            && FreeUnits(size', fl') + LiveUnits(live - {bp}) == FreeUnits(size, x + y) + LiveUnits(live)
            && Last([BASE] + x) in [BASE] + fl'
            && FitsNear(PtrAfterFree(ptr, size, x, y, bp), size', Last([BASE] + x), live[bp])
  {
    hide Chain, Ascending, EndOf, FreeUnits, LiveUnits;
    FreeKeepsChain(ptr, size, x, y, bp);
    FreeKeepsAscending(size, x, y, bp);
    FreeKeepsLive(size, x, y, bp, live, brk);
    FreeKeepsUnits(size, x, y, bp);
    LiveRemove(live, bp);
    NextAbove(x, y);
    Untouched(size, x, y, bp);
    BaseUntouched(size, x, y, bp);
    assert ([BASE] + ListAfterFree(size, x, y, bp))[|x|] == Last([BASE] + x);
  }

  lemma BaseUntouched(size: Links, x: seq<nat>, y: seq<nat>, bp: nat)
    requires Split(size, x, y, bp)
    ensures Last([BASE] + x) in size && (y != [] ==> y[0] in size)
    ensures var size' := SizeAfterFree(size, x, y, bp); BASE in size' && size'[BASE] == 0
  {
    SplitFacts(size, x, y, bp);
    FreeBlocks(size, x, y, bp);
  }

  lemma NextAbove(x: seq<nat>, y: seq<nat>)
    ensures var ring := [BASE] + (x + y);
            && ring[|x|] == Last([BASE] + x) && After(ring, |x|) == First(y, BASE)
            && (y != [] ==> After(ring, |x| + 1) == First(y[1..], BASE))
  {
  }
}
