/** The free list of umalloc.c, after section 8.7 of "The C Programming
    Language", 2nd ed.: a ring of blocks in address order, starting at base,
    with the header fields in two maps.  Addresses count Header-sized units.
 */
module FreeList {

  const NULL: nat := 0
  const BASE: nat := 1       // &base, below every address sbrk returns

  type Links = map<nat, nat>

  predicate Apart(a: nat, n: nat, b: nat, m: nat) {
    a + n <= b || b + m <= a
  }

  // ----- The free ring -----

  /** The element a list starts with, or what follows the list. */
  function First(s: seq<nat>, after: nat): nat {
    if s == [] then after else s[0]
  }

  /** Each element points to the next and the last to `after`. */
  ghost predicate Chain(ptr: Links, s: seq<nat>, after: nat) {
    s == [] || (s[0] in ptr && ptr[s[0]] == First(s[1..], after) && Chain(ptr, s[1..], after))
  }

  /** Where the last block of s ends; lo if there is none. */
  ghost function EndOf(lo: nat, size: Links, s: seq<nat>): nat
    decreases |s|
  {
    if s == [] then lo else if s[0] in size then EndOf(s[0] + size[s[0]], size, s[1..]) else lo
  }

  /** Nonempty blocks above lo in address order that neither overlap nor touch. */
  ghost predicate Ascending(lo: nat, size: Links, s: seq<nat>)
    decreases |s|
  {
    s == [] || (s[0] in size && lo < s[0] && size[s[0]] >= 1 && Ascending(s[0] + size[s[0]], size, s[1..]))
  }

  /** The ring is base followed by the free blocks. */
  ghost predicate RingOk(ptr: Links, size: Links, fl: seq<nat>, brk: nat) {
    && Chain(ptr, [BASE] + fl, BASE)
    && BASE in size && size[BASE] == 0
    && Ascending(BASE, size, fl)
    && EndOf(BASE, size, fl) <= brk
  }

  /** Live blocks carry their size, and overlap neither each other nor a free block. */
  ghost predicate LiveOk(size: Links, fl: seq<nat>, live: Links, brk: nat) {
    && (forall a :: a in live ==> BASE < a && a in size && size[a] == live[a] >= 1 && a + live[a] <= brk)
    && (forall a, b :: a in live && b in live && a != b ==> Apart(a, live[a], b, live[b]))
    && (forall a, x :: a in live && x in fl && x in size ==> Apart(a, live[a], x, size[x]))
  }

  lemma {:induction false} ChainConcat(ptr: Links, a: seq<nat>, b: seq<nat>, after: nat)
    ensures Chain(ptr, a + b, after) <==> Chain(ptr, a, First(b, after)) && Chain(ptr, b, after)
    decreases |a|
  {
    if a == [] {
      assert a + b == b;
    } else {
      assert (a + b)[1..] == a[1..] + b;
      ChainConcat(ptr, a[1..], b, after);
    }
  }

  lemma {:induction false} ChainSame(ptr: Links, ptr': Links, s: seq<nat>, after: nat)
    requires Chain(ptr, s, after)
    requires forall x :: x in s ==> x in ptr && x in ptr' && ptr'[x] == ptr[x]
    ensures Chain(ptr', s, after)
    decreases |s|
  {
    if s != [] {
      ChainSame(ptr, ptr', s[1..], after);
    }
  }

  lemma {:induction false} ChainAt(ptr: Links, s: seq<nat>, after: nat, i: nat)
    requires Chain(ptr, s, after) && i < |s|
    ensures s[i] in ptr && ptr[s[i]] == if i + 1 < |s| then s[i + 1] else after
    decreases |s|
  {
    if i > 0 {
      ChainAt(ptr, s[1..], after, i - 1);
    }
  }

  lemma {:induction false} AscendingConcat(lo: nat, size: Links, a: seq<nat>, b: seq<nat>)
    ensures Ascending(lo, size, a + b) <==> Ascending(lo, size, a) && Ascending(EndOf(lo, size, a), size, b)
    ensures Ascending(lo, size, a) ==> EndOf(lo, size, a + b) == EndOf(EndOf(lo, size, a), size, b)
    decreases |a|
  {
    if a == [] {
      assert a + b == b;
    } else {
      assert (a + b)[1..] == a[1..] + b;
      if a[0] in size {
        AscendingConcat(a[0] + size[a[0]], size, a[1..], b);
      }
    }
  }

  lemma {:induction false} AscendingSame(lo: nat, size: Links, size': Links, s: seq<nat>)
    requires Ascending(lo, size, s)
    requires forall x :: x in s ==> x in size && x in size' && size'[x] == size[x]
    ensures Ascending(lo, size', s) && EndOf(lo, size', s) == EndOf(lo, size, s)
    decreases |s|
  {
    if s != [] {
      AscendingSame(s[0] + size[s[0]], size, size', s[1..]);
    }
  }

  lemma {:induction false} AscendingAt(lo: nat, size: Links, s: seq<nat>, x: nat)
    requires Ascending(lo, size, s) && x in s
    ensures x in size && lo < x && size[x] >= 1 && x + size[x] <= EndOf(lo, size, s)
    decreases |s|
  {
    AscendingEnd(s[0] + size[s[0]], size, s[1..]);
    if x != s[0] {
      AscendingAt(s[0] + size[s[0]], size, s[1..], x);
    }
  }

  lemma {:induction false} AscendingEnd(lo: nat, size: Links, s: seq<nat>)
    requires Ascending(lo, size, s)
    ensures lo <= EndOf(lo, size, s)
    decreases |s|
  {
    if s != [] {
      AscendingEnd(s[0] + size[s[0]], size, s[1..]);
    }
  }

  // ----- Units -----

  function UnitsAt(size: Links, a: nat): nat {
    if a in size then size[a] else 0
  }

  ghost function FreeUnits(size: Links, ring: seq<nat>): nat {
    if ring == [] then 0 else FreeUnits(size, ring[..|ring| - 1]) + UnitsAt(size, ring[|ring| - 1])
  }

  ghost function Pick(live: Links): (a: nat)
    requires live.Keys != {}
    ensures a in live
  {
    var a :| a in live.Keys;
    a
  }

  ghost function LiveUnits(live: Links): nat
    decreases live.Keys
  {
    if live.Keys == {} then 0 else live[Pick(live)] + LiveUnits(live - {Pick(live)})
  }

  lemma {:induction false} LiveRemove(live: Links, a: nat)
    requires a in live
    ensures LiveUnits(live) == live[a] + LiveUnits(live - {a})
    decreases live.Keys
  {
    var b := Pick(live);
    if a != b {
      LiveRemove(live - {b}, a);
      LiveRemove(live - {a}, b);
      assert live - {a} - {b} == live - {b} - {a};
    }
  }

  lemma LiveAdd(live: Links, a: nat, n: nat)
    requires a !in live
    ensures LiveUnits(live[a := n]) == LiveUnits(live) + n
  {
    LiveRemove(live[a := n], a);
    assert live[a := n] - {a} == live;
  }

  lemma {:induction false} FreeConcat(size: Links, r: seq<nat>, s: seq<nat>)
    ensures FreeUnits(size, r + s) == FreeUnits(size, r) + FreeUnits(size, s)
    decreases |s|
  {
    if s == [] {
      assert r + s == r;
    } else {
      assert (r + s)[..|r + s| - 1] == r + s[..|s| - 1];
      FreeConcat(size, r, s[..|s| - 1]);
    }
  }

  lemma {:induction false} FreeSame(size: Links, size': Links, r: seq<nat>)
    requires forall a :: a in r ==> UnitsAt(size', a) == UnitsAt(size, a)
    ensures FreeUnits(size', r) == FreeUnits(size, r)
    decreases |r|
  {
    if r != [] {
      assert r[|r| - 1] in r;
      FreeSame(size, size', r[..|r| - 1]);
    }
  }

  // ----- Putting a block back -----

  function Last(s: seq<nat>): nat
    requires s != []
  {
    s[|s| - 1]
  }

  /** The free list split at bp, a live block: x below it and y above. */
  ghost predicate Split(size: Links, x: seq<nat>, y: seq<nat>, bp: nat) {
    && BASE in size && size[BASE] == 0 && bp in size && size[bp] >= 1 && BASE < bp
    && Ascending(BASE, size, x + y)
    && EndOf(BASE, size, x) <= bp
    && (y != [] ==> bp + size[bp] <= y[0])
  }

  ghost predicate JoinsUp(size: Links, y: seq<nat>, bp: nat)
    requires bp in size
  {
    y != [] && bp + size[bp] == y[0]
  }

  ghost predicate JoinsDown(size: Links, x: seq<nat>, bp: nat) {
    EndOf(BASE, size, x) == bp
  }

  /** What is left above bp once it has absorbed its upper neighbour. */
  ghost function Above(size: Links, y: seq<nat>, bp: nat): seq<nat>
    requires bp in size
  {
    if JoinsUp(size, y, bp) then y[1..] else y
  }

  ghost function JoinedSize(size: Links, y: seq<nat>, bp: nat): nat
    requires bp in size && (y != [] ==> y[0] in size)
  {
    if JoinsUp(size, y, bp) then size[bp] + size[y[0]] else size[bp]
  }

  ghost function ListAfterFree(size: Links, x: seq<nat>, y: seq<nat>, bp: nat): seq<nat>
    requires bp in size
  {
    x + (if JoinsDown(size, x, bp) then [] else [bp]) + Above(size, y, bp)
  }

  /** The effect of free on the size fields. */
  ghost function SizeAfterFree(size: Links, x: seq<nat>, y: seq<nat>, bp: nat): Links
    requires bp in size && (y != [] ==> y[0] in size) && Last([BASE] + x) in size
  {
    var s1 := size[bp := JoinedSize(size, y, bp)];
    var p := Last([BASE] + x);
    if JoinsDown(size, x, bp) then s1[p := s1[p] + s1[bp]] else s1
  }

  /** The effect of free on the links. */
  ghost function PtrAfterFree(ptr: Links, size: Links, x: seq<nat>, y: seq<nat>, bp: nat): Links
    requires bp in size
  {
    var next := First(Above(size, y, bp), BASE);
    ptr[bp := next][Last([BASE] + x) := if JoinsDown(size, x, bp) then next else bp]
  }

  lemma SplitFacts(size: Links, x: seq<nat>, y: seq<nat>, bp: nat)
    requires Split(size, x, y, bp)
    ensures Ascending(BASE, size, x) && Ascending(EndOf(BASE, size, x), size, y)
    ensures forall a :: a in x ==> a in size && a < bp && BASE < a && a + size[a] <= EndOf(BASE, size, x)
    ensures forall a :: a in y ==> a in size && bp < a
  {
    AscendingConcat(BASE, size, x, y);
    forall a | a in x ensures a in size && a < bp && BASE < a && a + size[a] <= EndOf(BASE, size, x) {
      AscendingAt(BASE, size, x, a);
    }
    forall a | a in y ensures a in size && bp < a {
      if a != y[0] {
        AscendingAt(y[0] + size[y[0]], size, y[1..], a);
      }
    }
  }

  /** Ascending from lower down. */
  lemma AscendingFrom(lo: nat, lo': nat, size: Links, y: seq<nat>)
    requires Ascending(lo, size, y) && (y != [] ==> lo' < y[0])
    ensures Ascending(lo', size, y) && (y != [] ==> EndOf(lo', size, y) == EndOf(lo, size, y))
  {
  }

  /** Above bp's new end the list is as it was. */
  lemma AboveOk(size: Links, x: seq<nat>, y: seq<nat>, bp: nat)
    requires Split(size, x, y, bp)
    ensures y != [] ==> y[0] in size
    ensures var hi := bp + JoinedSize(size, y, bp);
            && Ascending(hi, size, Above(size, y, bp))
            && (y != [] ==> EndOf(hi, size, Above(size, y, bp)) == EndOf(BASE, size, x + y))
  {
    SplitFacts(size, x, y, bp);
    AscendingConcat(BASE, size, x, y);
    if !JoinsUp(size, y, bp) {
      AscendingFrom(EndOf(BASE, size, x), bp + size[bp], size, y);
    }
  }

  lemma {:induction false} LastSplit(size: Links, x: seq<nat>)
    requires Ascending(BASE, size, x) && x != []
    ensures var x0, p := x[..|x| - 1], Last(x);
            && x == x0 + [p] && Ascending(BASE, size, x0) && p in size && EndOf(BASE, size, x0) < p
            && size[p] >= 1 && EndOf(BASE, size, x) == p + size[p] && p !in x0
  {
    var x0, p := x[..|x| - 1], Last(x);
    assert x == x0 + [p];
    AscendingConcat(BASE, size, x0, [p]);
    if p in x0 {
      AscendingAt(BASE, size, x0, p);
    }
  }

  /** The list up to and including bp, after free. */
  ghost function Low(size: Links, x: seq<nat>, bp: nat): seq<nat> {
    if JoinsDown(size, x, bp) then x else x + [bp]
  }

  lemma LowSeparate(size: Links, x: seq<nat>, bp: nat, size': Links)
    requires Ascending(BASE, size, x) && EndOf(BASE, size, x) < bp
    requires forall a :: a in x ==> a in size' && a in size && size'[a] == size[a]
    requires bp in size' && size'[bp] >= 1
    ensures Ascending(BASE, size', x + [bp]) && EndOf(BASE, size', x + [bp]) == bp + size'[bp]
  {
    AscendingSame(BASE, size, size', x);
    AscendingConcat(BASE, size', x, [bp]);
  }

  lemma LowJoined(size: Links, x: seq<nat>, bp: nat, size': Links)
    requires Ascending(BASE, size, x) && x != [] && EndOf(BASE, size, x) == bp
    requires forall a :: a in x ==> a in size' && a in size
    requires forall a :: a in x && a != Last(x) ==> size'[a] == size[a]
    requires size'[Last(x)] >= size[Last(x)]
    ensures Ascending(BASE, size', x) && EndOf(BASE, size', x) == bp + (size'[Last(x)] - size[Last(x)])
  {
    LastSplit(size, x);
    var x0, p := x[..|x| - 1], Last(x);
    forall a | a in x0 ensures a in size && a in size' && size'[a] == size[a] {
      assert a in x;
    }
    AscendingSame(BASE, size, size', x0);
    AscendingConcat(BASE, size', x0, [p]);
  }

  lemma LowOk(size: Links, x: seq<nat>, y: seq<nat>, bp: nat)
    requires Split(size, x, y, bp)
    ensures Last([BASE] + x) in size && (y != [] ==> y[0] in size)
    ensures var size' := SizeAfterFree(size, x, y, bp);
            && Ascending(BASE, size', Low(size, x, bp))
            && EndOf(BASE, size', Low(size, x, bp)) == bp + JoinedSize(size, y, bp)
  {
    hide Ascending, EndOf;
    SplitFacts(size, x, y, bp);
    NoneAbove(BASE, size);
    assert Last([BASE] + x) == if x == [] then BASE else Last(x);
    assert x != [] ==> Last(x) in x;
    if JoinsDown(size, x, bp) {
      LowJoined(size, x, bp, SizeAfterFree(size, x, y, bp));
    } else {
      LowSeparate(size, x, bp, SizeAfterFree(size, x, y, bp));
    }
  }

  lemma NoneAbove(lo: nat, size: Links)
    ensures EndOf(lo, size, []) == lo
  {
  }

  lemma FreeKeepsAscending(size: Links, x: seq<nat>, y: seq<nat>, bp: nat)
    requires Split(size, x, y, bp)
    ensures Last([BASE] + x) in size && (y != [] ==> y[0] in size)
    ensures var size' := SizeAfterFree(size, x, y, bp);
            var fl' := ListAfterFree(size, x, y, bp);
            && Ascending(BASE, size', fl')
            && EndOf(BASE, size', fl') == (if y == [] then bp + size[bp] else EndOf(BASE, size, x + y))
  {
    hide Ascending, EndOf, SizeAfterFree;
    LowOk(size, x, y, bp);
    AboveOk(size, x, y, bp);
    NoneAbove(bp + size[bp], size);
    var low, z := Low(size, x, bp), Above(size, y, bp);
    var size' := SizeAfterFree(size, x, y, bp);
    AboveSizes(size, x, y, bp);
    AscendingSame(bp + JoinedSize(size, y, bp), size, size', z);
    AscendingConcat(BASE, size', low, z);
    assert ListAfterFree(size, x, y, bp) == low + z;
  }

  lemma AboveSizes(size: Links, x: seq<nat>, y: seq<nat>, bp: nat)
    requires Split(size, x, y, bp)
    ensures Last([BASE] + x) in size && (y != [] ==> y[0] in size)
    ensures forall a :: a in Above(size, y, bp) ==>
              a in size && a in SizeAfterFree(size, x, y, bp) && SizeAfterFree(size, x, y, bp)[a] == size[a]
  {
    SplitFacts(size, x, y, bp);
    assert Last([BASE] + x) == if x == [] then BASE else Last(x);
    assert x != [] ==> Last(x) in x;
    forall a | a in Above(size, y, bp) ensures a in y {}
  }

  // The links.

  lemma ChainSplit(ptr: Links, r0: seq<nat>, p: nat, y: seq<nat>)
    requires Chain(ptr, r0 + ([p] + y), BASE)
    ensures Chain(ptr, r0, p) && Chain(ptr, y, BASE) && p in ptr && ptr[p] == First(y, BASE)
    ensures y != [] ==> Chain(ptr, y[1..], BASE) && y[0] in ptr && ptr[y[0]] == First(y[1..], BASE)
    ensures forall a :: a in r0 + y ==> a in ptr
  {
    ChainConcat(ptr, r0, [p] + y, BASE);
    ChainConcat(ptr, [p], y, BASE);
    ChainMembers(ptr, r0, p);
    ChainMembers(ptr, y, BASE);
  }

  lemma ChainJoin(q: Links, r0: seq<nat>, p: nat, m: seq<nat>, z: seq<nat>)
    requires Chain(q, r0, p) && Chain(q, z, BASE) && p in q && q[p] == First(m + z, BASE)
    requires |m| <= 1 && (m != [] ==> m[0] in q && q[m[0]] == First(z, BASE))
    ensures Chain(q, r0 + ([p] + (m + z)), BASE)
  {
    ChainConcat(q, m, z, BASE);
    ChainConcat(q, [p], m + z, BASE);
    ChainConcat(q, r0, [p] + (m + z), BASE);
  }

  function Front(s: seq<nat>): seq<nat>
    requires s != []
  {
    s[..|s| - 1]
  }

  lemma Regroup(x: seq<nat>, m: seq<nat>, z: seq<nat>)
    ensures var r := [BASE] + x;
            [BASE] + (x + m + z) == Front(r) + ([Last(r)] + (m + z))
  {
    var r := [BASE] + x;
    assert r == Front(r) + [Last(r)];
    assert [BASE] + (x + m + z) == r + (m + z);
  }

  lemma ChainElsewhere(ptr: Links, s: seq<nat>, after: nat, bp: nat, v: nat, p: nat, w: nat)
    requires Chain(ptr, s, after) && bp !in s && p !in s
    ensures Chain(ptr[bp := v][p := w], s, after)
  {
    ChainMembers(ptr, s, after);
    ChainSame(ptr, ptr[bp := v][p := w], s, after);
  }

  /** free changes the links of bp and of its predecessor only. */
  lemma FreeKeepsChain(ptr: Links, size: Links, x: seq<nat>, y: seq<nat>, bp: nat)
    requires Split(size, x, y, bp) && Chain(ptr, [BASE] + (x + y), BASE)
    ensures Chain(PtrAfterFree(ptr, size, x, y, bp), [BASE] + ListAfterFree(size, x, y, bp), BASE)
  {
    hide Ascending, EndOf, Chain;
    var r := [BASE] + x;
    var p, r0 := Last(r), Front(r);
    var z := Above(size, y, bp);
    var next := First(z, BASE);
    var m := if JoinsDown(size, x, bp) then [] else [bp];
    var w := if JoinsDown(size, x, bp) then next else bp;
    Regroup(x, [], y);
    assert x + [] + y == x + y && [] + y == y;
    ChainSplit(ptr, r0, p, y);
    Untouched(size, x, y, bp);
    ChainElsewhere(ptr, r0, p, bp, next, p, w);
    ChainElsewhere(ptr, z, BASE, bp, next, p, w);
    ChainJoin(ptr[bp := next][p := w], r0, p, m, z);
    Regroup(x, m, z);
  }

  lemma Untouched(size: Links, x: seq<nat>, y: seq<nat>, bp: nat)
    requires Split(size, x, y, bp)
    ensures var r := [BASE] + x;
            var z := Above(size, y, bp);
            && Last(r) != bp && bp !in Front(r) && Last(r) !in Front(r) && bp !in z && Last(r) !in z
  {
    var r := [BASE] + x;
    SplitFacts(size, x, y, bp);
    BelowLast(size, x);
    assert Last(r) == if x == [] then BASE else Last(x);
    assert x != [] ==> Last(x) in x;
    assert forall a :: a in Front(r) ==> a in r;
    forall a | a in Above(size, y, bp) ensures a in y {}
  }

  lemma {:induction false} ChainMembers(ptr: Links, s: seq<nat>, after: nat)
    requires Chain(ptr, s, after)
    ensures forall a :: a in s ==> a in ptr
    decreases |s|
  {
    if s != [] {
      ChainMembers(ptr, s[1..], after);
    }
  }

  lemma BelowLast(size: Links, x: seq<nat>)
    requires Ascending(BASE, size, x)
    ensures Last([BASE] + x) !in Front([BASE] + x)
  {
    var r := [BASE] + x;
    if x != [] {
      LastSplit(size, x);
      AscendingAt(BASE, size, x, Last(x));
      assert Front(r) == [BASE] + x[..|x| - 1];
    }
  }

  // The live blocks.

  lemma FreeKeepsLive(size: Links, x: seq<nat>, y: seq<nat>, bp: nat, live: Links, brk: nat)
    requires Split(size, x, y, bp) && LiveOk(size, x + y, live, brk) && bp in live
    ensures Last([BASE] + x) in size && (y != [] ==> y[0] in size)
    ensures LiveOk(SizeAfterFree(size, x, y, bp), ListAfterFree(size, x, y, bp), live - {bp}, brk)
  {
    hide Ascending, EndOf;
    SplitFacts(size, x, y, bp);
    FreeBlocks(size, x, y, bp);
    var size' := SizeAfterFree(size, x, y, bp);
    var fl' := ListAfterFree(size, x, y, bp);
    var p := Last([BASE] + x);
    assert x != [] ==> p in x + y;
    forall a | a in live - {bp} ensures a in size' && size'[a] == live[a] {}
    forall a, v | a in live - {bp} && v in fl' && v in size' ensures Apart(a, live[a], v, size'[v]) {
      StaysApart(size, x, y, bp, live, brk, a, v);
    }
  }

  /** Where the blocks of the new list come from. */
  lemma FreeBlocks(size: Links, x: seq<nat>, y: seq<nat>, bp: nat)
    requires Split(size, x, y, bp)
    ensures var p := Last([BASE] + x);
            && p in size && (x == [] ==> p == BASE) && (x != [] ==> p in x && p + size[p] == EndOf(BASE, size, x) && size[p] >= 1)
            && (y != [] ==> y[0] in size && size[y[0]] >= 1)
            && (forall v :: v in ListAfterFree(size, x, y, bp) ==> v in x || v in y || (v == bp && !JoinsDown(size, x, bp)))
            && (JoinsDown(size, x, bp) ==> x != [])
  {
    SplitFacts(size, x, y, bp);
    if x != [] {
      LastSplit(size, x);
    }
    assert Last([BASE] + x) == if x == [] then BASE else Last(x);
  }

  lemma StaysApart(size: Links, x: seq<nat>, y: seq<nat>, bp: nat, live: Links, brk: nat, a: nat, v: nat)
    requires Split(size, x, y, bp) && LiveOk(size, x + y, live, brk) && bp in live && a in live && a != bp
    requires v in ListAfterFree(size, x, y, bp)
    ensures Last([BASE] + x) in size && (y != [] ==> y[0] in size)
    ensures v in SizeAfterFree(size, x, y, bp) && Apart(a, live[a], v, SizeAfterFree(size, x, y, bp)[v])
  {
    hide Ascending, EndOf;
    SplitFacts(size, x, y, bp);
    FreeBlocks(size, x, y, bp);
    var p := Last([BASE] + x);
    assert Apart(a, live[a], bp, live[bp]);
    if y != [] {
      assert y[0] in x + y;
      assert Apart(a, live[a], y[0], size[y[0]]);
    }
    assert Apart(a, live[a], bp, JoinedSize(size, y, bp));
    if v != bp {
      assert v in x + y;
      assert Apart(a, live[a], v, size[v]);
    }
  }

  // Conservation.

  lemma FreeKeepsUnits(size: Links, x: seq<nat>, y: seq<nat>, bp: nat)
    requires Split(size, x, y, bp)
    ensures Last([BASE] + x) in size && (y != [] ==> y[0] in size)
    ensures FreeUnits(SizeAfterFree(size, x, y, bp), ListAfterFree(size, x, y, bp)) == FreeUnits(size, x + y) + size[bp]
  {
    hide FreeUnits, Ascending, EndOf, SizeAfterFree;
    FreeBlocks(size, x, y, bp);
    UnitsAbove(size, x, y, bp);
    UnitsBelow(size, x, y, bp);
    var m := if JoinsDown(size, x, bp) then [] else [bp];
    FreeConcat(SizeAfterFree(size, x, y, bp), x + m, Above(size, y, bp));
    FreeConcat(size, x, y);
  }

  lemma UnitsOne(size: Links, a: nat)
    ensures FreeUnits(size, [a]) == UnitsAt(size, a)
  {
    assert [a][..0] == [];
  }

  lemma UnitsAbove(size: Links, x: seq<nat>, y: seq<nat>, bp: nat)
    requires Split(size, x, y, bp)
    ensures Last([BASE] + x) in size && (y != [] ==> y[0] in size)
    ensures FreeUnits(SizeAfterFree(size, x, y, bp), Above(size, y, bp)) + JoinedSize(size, y, bp) ==
            FreeUnits(size, y) + size[bp]
  {
    hide FreeUnits, Ascending, EndOf;
    SplitFacts(size, x, y, bp);
    AboveSizes(size, x, y, bp);
    var z := Above(size, y, bp);
    FreeSame(size, SizeAfterFree(size, x, y, bp), z);
    if JoinsUp(size, y, bp) {
      assert y == [y[0]] + z;
      FreeConcat(size, [y[0]], z);
      UnitsOne(size, y[0]);
    }
  }

  lemma UnitsBelow(size: Links, x: seq<nat>, y: seq<nat>, bp: nat)
    requires Split(size, x, y, bp)
    ensures Last([BASE] + x) in size && (y != [] ==> y[0] in size)
    ensures var m := if JoinsDown(size, x, bp) then [] else [bp];
            FreeUnits(SizeAfterFree(size, x, y, bp), x + m) == FreeUnits(size, x) + JoinedSize(size, y, bp)
  {
    hide FreeUnits, Ascending, EndOf;
    SplitFacts(size, x, y, bp);
    FreeBlocks(size, x, y, bp);
    var size' := SizeAfterFree(size, x, y, bp);
    if JoinsDown(size, x, bp) {
      LastSplit(size, x);
      var x0, p := Front(x), Last(x);
      FreeSame(size, size', x0);
      assert x + [] == x == x0 + [p];
      FreeConcat(size, x0, [p]);
      FreeConcat(size', x0, [p]);
      UnitsOne(size, p);
      UnitsOne(size', p);
    } else {
      FreeSame(size, size', x);
      FreeConcat(size', x, [bp]);
      UnitsOne(size', bp);
    }
  }

  // ----- Taking a block -----

  /** A block in the middle of the list and what surrounds it. */
  lemma MiddleFacts(size: Links, x: seq<nat>, p: nat, y: seq<nat>)
    requires Ascending(BASE, size, x + [p] + y)
    ensures p in size && size[p] >= 1 && BASE < p
    ensures Ascending(BASE, size, x) && EndOf(BASE, size, x) < p
    ensures Ascending(p + size[p], size, y)
    ensures EndOf(BASE, size, x + [p] + y) == EndOf(p + size[p], size, y)
    ensures forall a :: a in x ==> a in size && BASE < a && a + size[a] < p
    ensures forall a :: a in y ==> a in size && p + size[p] < a
  {
    AscendingConcat(BASE, size, x + [p], y);
    AscendingConcat(BASE, size, x, [p]);
    AscendingEnd(BASE, size, x);
    forall a | a in x ensures a in size && BASE < a && a + size[a] < p {
      AscendingAt(BASE, size, x, a);
    }
    forall a | a in y ensures a in size && p + size[p] < a {
      AscendingAt(p + size[p], size, y, a);
    }
  }

  lemma MiddleJoin(size: Links, x: seq<nat>, p: nat, y: seq<nat>)
    requires Ascending(BASE, size, x) && p in size && size[p] >= 1 && EndOf(BASE, size, x) < p
    requires Ascending(p + size[p], size, y)
    ensures Ascending(BASE, size, x + [p] + y)
    ensures EndOf(BASE, size, x + [p] + y) == EndOf(p + size[p], size, y)
  {
    AscendingConcat(BASE, size, x, [p]);
    AscendingConcat(BASE, size, x + [p], y);
  }

  /** Cutting n units off the end of a free block keeps the list. */
  lemma TakeTailAscending(size: Links, x: seq<nat>, p: nat, y: seq<nat>, n: nat)
    requires Ascending(BASE, size, x + [p] + y) && p in size && 1 <= n < size[p]
    ensures var q := p + size[p] - n;
            var size' := size[p := size[p] - n][q := n];
            && q !in x && q !in y && p !in x && p !in y && p < q
            && Ascending(BASE, size', x + [p] + y)
            && EndOf(BASE, size', x + [p] + y) <= EndOf(BASE, size, x + [p] + y)
  {
    hide Ascending, EndOf;
    var q := p + size[p] - n;
    var size' := size[p := size[p] - n][q := n];
    MiddleFacts(size, x, p, y);
    AscendingSame(BASE, size, size', x);
    AscendingSame(p + size[p], size, size', y);
    LowerStart(p + size[p], p + size'[p], size', y);
    MiddleJoin(size', x, p, y);
  }

  lemma LowerStart(hi: nat, lo: nat, size: Links, y: seq<nat>)
    requires Ascending(hi, size, y) && lo <= hi
    ensures Ascending(lo, size, y) && EndOf(lo, size, y) <= EndOf(hi, size, y)
  {
  }

  lemma TakeWholeAscending(size: Links, x: seq<nat>, p: nat, y: seq<nat>)
    requires Ascending(BASE, size, x + [p] + y)
    ensures Ascending(BASE, size, x + y)
    ensures EndOf(BASE, size, x + y) <= EndOf(BASE, size, x + [p] + y)
  {
    MiddleFacts(size, x, p, y);
    LowerStart(p + size[p], EndOf(BASE, size, x), size, y);
    AscendingConcat(BASE, size, x, y);
  }

  lemma PrevElsewhere(size: Links, x: seq<nat>, p: nat, y: seq<nat>)
    requires Ascending(BASE, size, x + [p] + y)
    ensures var prev := Last([BASE] + x);
            prev !in Front([BASE] + x) && prev != p && prev !in y
  {
    MiddleFacts(size, x, p, y);
    BelowLast(size, x);
    assert x != [] ==> Last(x) in x;
    assert Last([BASE] + x) == if x == [] then BASE else Last(x);
  }

  lemma TakeWholeChain(ptr: Links, size: Links, x: seq<nat>, p: nat, y: seq<nat>)
    requires Chain(ptr, [BASE] + (x + [p] + y), BASE) && Ascending(BASE, size, x + [p] + y)
    ensures p in ptr && Chain(ptr[Last([BASE] + x) := ptr[p]], [BASE] + (x + y), BASE)
  {
    hide Chain, Ascending;
    var r := [BASE] + x;
    var prev, r0 := Last(r), Front(r);
    Regroup(x, [p], y);
    ChainSplit(ptr, r0, prev, [p] + y);
    assert ([p] + y)[1..] == y;
    PrevElsewhere(size, x, p, y);
    ChainElsewhere(ptr, r0, prev, prev, ptr[p], prev, ptr[p]);
    ChainElsewhere(ptr, y, BASE, prev, ptr[p], prev, ptr[p]);
    var q := ptr[prev := ptr[p]];
    assert q == ptr[prev := ptr[p]][prev := ptr[p]];
    assert [] + y == y && x + [] + y == x + y;
    ChainJoin(q, r0, prev, [], y);
    Regroup(x, [], y);
  }

  /** A live block cut from a free one overlaps no other block. */
  lemma TakeTailLive(size: Links, x: seq<nat>, p: nat, y: seq<nat>, n: nat, live: Links, brk: nat)
    requires Ascending(BASE, size, x + [p] + y) && p in size && 1 <= n < size[p]
    requires LiveOk(size, x + [p] + y, live, brk) && EndOf(BASE, size, x + [p] + y) <= brk
    ensures var q := p + size[p] - n;
            var size' := size[p := size[p] - n][q := n];
            q !in live && LiveOk(size', x + [p] + y, live[q := n], brk)
  {
    hide Ascending, EndOf, LiveOk;
    MiddleFacts(size, x, p, y);
    var fl := x + [p] + y;
    assert p in fl && forall v :: v in fl ==> v in x || v == p || v in y;
    UnderBrk(p + size[p], size, y, brk);
    TailApart(size, fl, live, brk, p, n);
    TailStays(size, fl, p, n, live, brk);
  }

  lemma TailStays(size: Links, fl: seq<nat>, p: nat, n: nat, live: Links, brk: nat)
    requires LiveOk(size, fl, live, brk)
    requires BASE < p && p in size && 1 <= n < size[p] && p + size[p] <= brk
    requires forall v :: v in fl ==> v == p || (v in size && (v + size[v] < p || p + size[p] < v))
    requires forall a :: a in live ==> a != p && a != p + size[p] - n
    requires forall a :: a in live ==> Apart(a, live[a], p + size[p] - n, n) && Apart(a, live[a], p, size[p] - n)
    ensures var q := p + size[p] - n;
            LiveOk(size[p := size[p] - n][q := n], fl, live[q := n], brk)
  {
    var q := p + size[p] - n;
    var size' := size[p := size[p] - n][q := n];
    var live' := live[q := n];
    forall a, v | a in live' && v in fl && v in size' ensures Apart(a, live'[a], v, size'[v]) {
      assert v == p || (v in size && (v + size[v] < p || p + size[p] < v));
      if a != q && v != p {
        assert Apart(a, live[a], v, size[v]);
      }
    }
  }

  lemma TailApart(size: Links, fl: seq<nat>, live: Links, brk: nat, p: nat, n: nat)
    requires LiveOk(size, fl, live, brk) && p in fl && p in size && 1 <= n < size[p]
    ensures forall a :: a in live ==>
              a != p && a != p + size[p] - n && Apart(a, live[a], p + size[p] - n, n) && Apart(a, live[a], p, size[p] - n)
  {
    forall a | a in live
      ensures a != p && a != p + size[p] - n && Apart(a, live[a], p + size[p] - n, n) && Apart(a, live[a], p, size[p] - n)
    {
      assert Apart(a, live[a], p, size[p]);
    }
  }

  lemma UnderBrk(lo: nat, size: Links, y: seq<nat>, brk: nat)
    requires Ascending(lo, size, y) && EndOf(lo, size, y) <= brk
    ensures lo <= brk
  {
    AscendingEnd(lo, size, y);
  }

  lemma TakeWholeLive(size: Links, x: seq<nat>, p: nat, y: seq<nat>, live: Links, brk: nat)
    requires Ascending(BASE, size, x + [p] + y)
    requires LiveOk(size, x + [p] + y, live, brk) && EndOf(BASE, size, x + [p] + y) <= brk
    ensures p in size && p !in live && LiveOk(size, x + y, live[p := size[p]], brk)
  {
    hide Ascending, EndOf;
    MiddleFacts(size, x, p, y);
    assert p in x + [p] + y;
    UnderBrk(p + size[p], size, y, brk);
    forall a | a in live ensures a != p && Apart(a, live[a], p, size[p]) {}
    var live', fl := live[p := size[p]], x + y;
    forall a, v | a in live' && v in fl && v in size ensures Apart(a, live'[a], v, size[v]) {
      assert v in x || v in y;
      assert v in x + [p] + y;
    }
  }

  lemma TakeTailUnits(size: Links, x: seq<nat>, p: nat, y: seq<nat>, n: nat)
    requires Ascending(BASE, size, x + [p] + y) && p in size && 1 <= n < size[p]
    ensures var size' := size[p := size[p] - n][p + size[p] - n := n];
            FreeUnits(size', x + [p] + y) + n == FreeUnits(size, x + [p] + y)
  {
    hide FreeUnits, Ascending, EndOf;
    var size' := size[p := size[p] - n][p + size[p] - n := n];
    TakeTailAscending(size, x, p, y, n);
    UnitsMiddle(size, x, p, y);
    UnitsMiddle(size', x, p, y);
    FreeSame(size, size', x);
    FreeSame(size, size', y);
  }

  lemma UnitsMiddle(size: Links, x: seq<nat>, p: nat, y: seq<nat>)
    ensures FreeUnits(size, x + [p] + y) == FreeUnits(size, x) + UnitsAt(size, p) + FreeUnits(size, y)
  {
    FreeConcat(size, x, [p]);
    FreeConcat(size, x + [p], y);
    UnitsOne(size, p);
  }

  lemma TakeWholeUnits(size: Links, x: seq<nat>, p: nat, y: seq<nat>)
    requires Ascending(BASE, size, x + [p] + y)
    ensures p in size && FreeUnits(size, x + y) + size[p] == FreeUnits(size, x + [p] + y)
  {
    MiddleFacts(size, x, p, y);
    UnitsMiddle(size, x, p, y);
    FreeConcat(size, x, y);
  }

  // ----- Walking the ring -----

  /** Where in the ring a new block belongs: the last element below it. */
  ghost function Place(ring: seq<nat>, bp: nat): (t: nat)
    requires ring != [] && ring[0] < bp
    ensures t < |ring| && ring[t] < bp && (t + 1 < |ring| ==> bp <= ring[t + 1])
  {
    if Last(ring) < bp then |ring| - 1 else Place(Front(ring), bp)
  }

  /** The element after position i, going round. */
  ghost function After(ring: seq<nat>, i: nat): nat
    requires i < |ring|
  {
    if i + 1 < |ring| then ring[i + 1] else BASE
  }

  lemma RingAt(ptr: Links, size: Links, fl: seq<nat>, brk: nat, i: nat)
    requires RingOk(ptr, size, fl, brk) && i <= |fl|
    ensures var ring := [BASE] + fl;
            && ring[i] in ptr && ptr[ring[i]] == After(ring, i)
            && ring[i] in size && (i > 0 ==> size[ring[i]] >= 1 && BASE < ring[i])
  {
    ChainAt(ptr, [BASE] + fl, BASE, i);
    if i > 0 {
      AscendingAt(BASE, size, fl, fl[i - 1]);
    }
  }

  lemma {:induction false} RingIncreasing(lo: nat, size: Links, fl: seq<nat>, i: nat, j: nat)
    requires Ascending(lo, size, fl) && i < j < |fl|
    ensures fl[i] < fl[j]
    decreases |fl|
  {
    if i == 0 {
      AscendingAt(fl[0] + size[fl[0]], size, fl[1..], fl[1..][j - 1]);
    } else {
      RingIncreasing(fl[0] + size[fl[0]], size, fl[1..], i - 1, j - 1);
    }
  }

  lemma RingBelow(size: Links, fl: seq<nat>, bp: nat, i: nat)
    requires Ascending(BASE, size, fl) && i <= |fl| && BASE < bp && bp !in fl
    ensures var ring := [BASE] + fl;
            ring[i] != bp && (ring[i] < bp <==> i <= Place(ring, bp))
  {
    var ring := [BASE] + fl;
    var t := Place(ring, bp);
    if i > 0 { assert ring[i] == fl[i - 1]; }
    if i < t {
      if i > 0 { RingIncreasing(BASE, size, fl, i - 1, t - 1); } else { AscendingAt(BASE, size, fl, fl[t - 1]); }
    } else if i > t + 1 {
      RingIncreasing(BASE, size, fl, t, i - 1);
    }
  }

  /** free's search stops at exactly one place of the ring, where bp belongs. */
  lemma SearchStops(ptr: Links, size: Links, fl: seq<nat>, brk: nat, bp: nat, i: nat)
    requires RingOk(ptr, size, fl, brk) && i <= |fl| && BASE < bp && bp !in fl
    ensures var ring := [BASE] + fl;
            var p := ring[i];
            && p in ptr && ptr[p] == After(ring, i)
            && (i == Place(ring, bp) <==>
                (bp > p && bp < ptr[p]) || (p >= ptr[p] && (bp > p || bp < ptr[p])))
  {
    var ring := [BASE] + fl;
    RingAt(ptr, size, fl, brk, i);
    RingBelow(size, fl, bp, i);
    if i + 1 <= |fl| {
      RingBelow(size, fl, bp, i + 1);
      if i > 0 { RingIncreasing(BASE, size, fl, i - 1, i); } else { AscendingAt(BASE, size, fl, fl[0]); }
    }
  }

  lemma PlaceBelow(size: Links, fl: seq<nat>, live: Links, brk: nat, bp: nat, t: nat)
    requires Ascending(BASE, size, fl) && BASE in size && size[BASE] == 0
    requires LiveOk(size, fl, live, brk) && bp in live
    requires t <= |fl| && ([BASE] + fl)[t] < bp
    ensures var p := ([BASE] + fl)[t];
            && p in size && EndOf(BASE, size, fl[..t]) == p + size[p] && EndOf(BASE, size, fl[..t]) <= bp
            && Last([BASE] + fl[..t]) == p
  {
    if t > 0 {
      var x := fl[..t];
      assert fl == x + fl[t..];
      AscendingConcat(BASE, size, x, fl[t..]);
      assert Last(x) == fl[t - 1] == ([BASE] + fl)[t];
      LastSplit(size, x);
      assert Last(x) in fl;
      assert Apart(bp, live[bp], Last(x), size[Last(x)]);
    }
  }

  lemma PlaceAbove(size: Links, fl: seq<nat>, live: Links, brk: nat, bp: nat, t: nat)
    requires Ascending(BASE, size, fl) && LiveOk(size, fl, live, brk) && bp in live
    requires t < |fl| && bp <= fl[t]
    ensures bp + size[bp] <= fl[t]
  {
    AscendingAt(BASE, size, fl, fl[t]);
    assert Apart(bp, live[bp], fl[t], size[fl[t]]);
  }

  lemma LiveNotFree(size: Links, fl: seq<nat>, live: Links, brk: nat, bp: nat)
    requires Ascending(BASE, size, fl) && LiveOk(size, fl, live, brk) && bp in live
    ensures bp !in fl
  {
    if bp in fl {
      AscendingAt(BASE, size, fl, bp);
    }
  }

  /** bp's place splits the free list. */
  lemma SplitAtPlace(ptr: Links, size: Links, fl: seq<nat>, brk: nat, live: Links, bp: nat) returns (x: seq<nat>, y: seq<nat>)
    requires RingOk(ptr, size, fl, brk) && LiveOk(size, fl, live, brk) && bp in live
    ensures bp !in fl && fl == x + y && Split(size, x, y, bp)
    ensures |x| == Place([BASE] + fl, bp) && ([BASE] + fl)[|x|] == Last([BASE] + x)
    ensures Last([BASE] + x) in size && (JoinsDown(size, x, bp) <==> Last([BASE] + x) + size[Last([BASE] + x)] == bp)
  {
    hide Chain, Ascending, EndOf;
    LiveNotFree(size, fl, live, brk, bp);
    var t := Place([BASE] + fl, bp);
    PlaceBelow(size, fl, live, brk, bp, t);
    if t < |fl| {
      PlaceAbove(size, fl, live, brk, bp, t);
    }
    x, y := fl[..t], fl[t..];
    assert fl == x + y;
  }
}
