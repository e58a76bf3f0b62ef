/** The page allocator of kalloc.c and the address-space operations of vm.c.  A
    frame is a physical page number; 0 is the null pointer.  Each operation
    carries, as a ghost, the roles of the frames its address space owns: free
    and owned frames together stay the same.
 */
module Vm {
  import opened PageTable

  const PGSIZE := 4096
  const KERNBASE := 0x8000_0000
  const PTE_P := 1
  const PTE_W := 2
  const PTE_U := 4

  type Page = seq<int>

  function ZeroPage(): (p: Page)
    ensures |p| == 4096 && forall i :: 0 <= i < |p| ==> p[i] == 0
  {
    seq(PGSIZE, _ => 0)
  }

  function JunkPage(): (p: Page)
    ensures |p| == 4096 && forall i :: 0 <= i < |p| ==> p[i] == 1
  {
    seq(PGSIZE, _ => 1)
  }

  type Owner = map<nat, Role>

  /** The run links from head visit exactly the frames in avail, each once. */
  ghost predicate Chain(next: map<nat, nat>, head: nat, avail: set<nat>)
    decreases |avail|
  {
    && (head == 0 <==> avail == {})
    && (head != 0 ==> head in avail && head in next && Chain(next, next[head], avail - {head}))
  }

  lemma {:induction false} ChainElsewhere(next: map<nat, nat>, head: nat, avail: set<nat>, f: nat, x: nat)
    requires Chain(next, head, avail) && f !in avail
    ensures Chain(next[f := x], head, avail)
    decreases |avail|
  {
    if head != 0 {
      ChainElsewhere(next, next[head], avail - {head}, f, x);
    }
  }

  /** Frames outside `mine` are as they were. */
  ghost predicate Kept(t: Tables, data: seq<Page>, t': Tables, data': seq<Page>, mine: set<nat>) {
    && |data'| == |data|
    && (forall f :: f !in mine ==> (f in t' <==> f in t))
    && (forall f :: f !in mine && f in t ==> t'[f] == t[f])
    && (forall f :: 0 <= f < |data| && f !in mine ==> data'[f] == data[f])
  }

  lemma KeptTrans(t: Tables, data: seq<Page>, t1: Tables, data1: seq<Page>, t2: Tables, data2: seq<Page>, mine: set<nat>)
    requires Kept(t, data, t1, data1, mine) && Kept(t1, data1, t2, data2, mine)
    ensures Kept(t, data, t2, data2, mine)
  {
  }

  /** Every role and page content of owner is still there. */
  ghost predicate Extends(owner: Owner, data: seq<Page>, o: Owner, data': seq<Page>) {
    && |data'| == |data|
    && (forall f :: f in owner ==> f in o && o[f] == owner[f])
    && (forall f :: f in owner && 0 <= f < |data| ==> data'[f] == data[f])
  }

  /** How many frames there are in a set of them. */
  ghost function Count(frames: set<nat>): nat { |frames| }

  lemma CountLess(frames: set<nat>, f: nat)
    ensures f in frames ==> Count(frames) == Count(frames - {f}) + 1
    ensures Count(frames) == 0 <==> frames == {}
  {
  }

  /** Frames it takes to map pages lo up to hi: one each, and the missing tables. */
  ghost function FramesFor(t: Tables, d: nat, lo: nat, hi: nat): nat {
    if lo < hi then hi - lo + Need(t, d, lo, hi) else 0
  }

  /** Page u is the first from lo that is mapped, and it can be reached. */
  ghost predicate Blocks(t: Tables, d: nat, lo: nat, u: nat, reached: bool) {
    reached && Look(t, d, u).To? && forall w: nat :: lo <= w < u ==> Look(t, d, w).Unmapped?
  }

  /** A page from lo up to hi is mapped, and there is a frame left when its turn comes. */
  ghost predicate Stops(t: Tables, d: nat, lo: nat, hi: nat, frames: nat) {
    exists u: nat :: lo <= u < hi && Blocks(t, d, lo, u, frames > FramesFor(t, d, lo, u))
  }

  /** Frames of a kernel half: the directory, 56 tables for PHYSTOP pages, 8 for the devices. */
  const KERNEL_FRAMES := 65

  /** Frames of a child with n pages: the kernel half, the pages and their tables. */
  function ChildFrames(n: nat): nat { KERNEL_FRAMES + n + (n + NENT - 1) / NENT }

  /** Page u is the first that is not mapped, and it can be reached. */
  ghost predicate Gap(t: Tables, d: nat, u: nat, reached: bool) {
    reached && Look(t, d, u).Unmapped? && forall w: nat :: w < u ==> Look(t, d, w).To?
  }

  class Machine {
    const first: nat              // frames from the end of the kernel
    const last: nat               // up to PHYSTOP
    var head: nat
    var next: map<nat, nat>
    var tables: Tables
    var data: seq<Page>
    ghost var avail: set<nat>     // frames on the free list

    ghost predicate Valid()
      reads this
    {
      && 0 < first < last && |data| == last && Chain(next, head, avail)
      && (forall f :: f in avail ==> first <= f < last)
    }

    /** An address space: it owns its frames, and none of them is free. */
    ghost predicate Space(d: nat, owner: Owner)
      reads this
    {
      && Valid() && Owned(tables, d, owner) && owner.Keys !! avail
      && (forall f :: f in owner ==> first <= f < last)
    }

    constructor (first: nat, last: nat)
      requires 0 < first < last
      ensures Valid() && this.first == first && this.last == last && avail == {} && tables == map[]
    {
      this.first, this.last := first, last;
      head, next, tables, avail := 0, map[], map[], {};
      data := seq(last, _ => ZeroPage());
    }

    /** kfree.  Freeing a frame twice is the caller's fault. */
    method Kfree(f: nat)
      requires Valid() && first <= f < last && f !in avail
      modifies this
      ensures Valid() && avail == old(avail) + {f} && tables == old(tables) - {f} && data == old(data)[f := JunkPage()]
    {
      data := data[f := JunkPage()];
      tables := tables - {f};
      ChainElsewhere(next, head, avail, f, head);
      assert avail + {f} - {f} == avail;
      next := next[f := head];
      head := f;
      avail := avail + {f};
    }

    /** freerange, in frames. */
    method FreeRange(lo: nat, hi: nat)
      requires Valid() && first <= lo && hi <= last && forall f :: lo <= f < hi ==> f !in avail
      modifies this
      ensures Valid() && forall f :: f in avail <==> f in old(avail) || lo <= f < hi
    {
      var p := lo;
      while p < hi
        invariant Valid() && lo <= p && (p <= hi || p == lo)
        invariant forall f :: f in avail <==> f in old(avail) || lo <= f < p
      {
        Kfree(p);
        p := p + 1;
      }
    }

    /** kalloc: the frame freed last, or 0. */
    method Kalloc() returns (f: nat)
      requires Valid()
      modifies this`head, this`avail
      ensures Valid() && avail == old(avail) - {f}
      ensures f == 0 <==> old(avail) == {}
      ensures f != 0 ==> f in old(avail) && f == old(head)
      ensures f == 0 <==> Count(old(avail)) == 0
      ensures f != 0 ==> Count(old(avail)) == Count(avail) + 1
    {
      CountLess(avail, head);
      f := head;
      if f != 0 {
        head := next[f];
        avail := avail - {f};
      }
    }

    /** walkpgdir: the table for a page, made if asked for. */
    method Walk(d: nat, v: nat, alloc: bool, ghost owner: Owner) returns (p: nat, ghost o: Owner)
      requires Space(d, owner) && v < NENT * NENT
      modifies this
      ensures Space(d, o) && avail + o.Keys == old(avail) + owner.Keys && Extends(owner, old(data), o, data)
      ensures avail <= old(avail)
      ensures p == TableOf(tables, d, v / NENT) && (alloc ==> (p == 0 <==> Count(old(avail)) < Short(old(tables), d, v)))
      ensures alloc && p == 0 ==> avail == {}
      ensures alloc && p != 0 ==> Count(old(avail)) == Count(avail) + Short(old(tables), d, v)
      ensures alloc && p != 0 ==> Gained(old(tables), tables, d, Extra(old(tables), d, v))
      ensures !alloc ==> tables == old(tables) && o == owner && avail == old(avail) && data == old(data)
      ensures forall u :: Look(tables, d, u) == Look(old(tables), d, u)
      ensures Kept(old(tables), old(data), tables, data, old(avail) + owner.Keys)
    {
      hide Count, Chain, Look, Owned, Kept, Extends, Gained;
      HasDir(tables, d, owner);
      KeptSelf(tables, data, avail + owner.Keys);
      ExtendsSelf(owner, data);
      GainedNone(tables, d);
      o := owner;
      var i := v / NENT;
      if i in tables[d] {
        p := tables[d][i].frame;
        return;
      }
      p := 0;
      if !alloc {
        return;
      }
      p := Kalloc();
      if p == 0 {
        return;
      }
      assert p !in owner;
      AddTableOwned(tables, d, owner, i, p, PTE_P + PTE_W + PTE_U);
      forall u ensures Look(AddTable(tables, d, i, p, PTE_P + PTE_W + PTE_U), d, u) == Look(tables, d, u) {
        AddTableLook(tables, d, owner, i, p, PTE_P + PTE_W + PTE_U, u);
      }
      GainedTable(tables, d, owner, i, p, PTE_P + PTE_W + PTE_U);
      TableAdded(tables, data, d, i, p, owner, old(avail));
      data := data[p := ZeroPage()];
      tables := AddTable(tables, d, i, p, PTE_P + PTE_W + PTE_U);
      o := owner[p := Table(i)];
    }

    /** One turn of mappages; a page that is mapped already stops the kernel. */
    method MapOne(d: nat, v: nat, frame: nat, flags: nat, ghost owner: Owner) returns (panic: bool, ok: bool, ghost o: Owner)
      requires Space(d, owner) && v < NENT * NENT
      requires v < USERTOP ==> first <= frame < last && frame !in owner && frame !in avail
      modifies this
      ensures Space(d, o) && avail + o.Keys == old(avail) + owner.Keys + (if ok && v < USERTOP then {frame} else {})
      ensures panic <==> Look(old(tables), d, v).To?
      ensures avail <= old(avail) && (ok <==> !panic && Count(old(avail)) >= Short(old(tables), d, v))
      ensures ok ==> Count(old(avail)) == Count(avail) + Short(old(tables), d, v)
      ensures !ok && !panic ==> avail == {}
      ensures ok ==> Gained(old(tables), tables, d, Extra(old(tables), d, v))
      ensures Extends(owner, old(data), o, data) && (ok && v < USERTOP ==> data[frame] == old(data)[frame])
      ensures forall u :: Look(tables, d, u) == if ok && u == v then To(frame, flags) else Look(old(tables), d, u)
      ensures Kept(old(tables), old(data), tables, data, old(avail) + owner.Keys)
    {
      hide Count, Extra, Chain, Look, Owned, Kept, Extends, Gained, TableOf;
      var p;
      p, o := Walk(d, v, true, owner);
      LookIs(tables, d, v);
      panic, ok := false, false;
      if p == 0 {
        return;
      }
      ghost var t := tables;
      var e := Pte(frame, flags);
      PteSet(tables, d, o, v, e);
      if v % NENT in tables[p] {
        panic := true;
        return;
      }
      forall u ensures Look(SetPte(t, p, v % NENT, e), d, u) == (if u == v then To(frame, flags) else Look(t, d, u))
        && TableOf(SetPte(t, p, v % NENT, e), d, u) == TableOf(t, d, u)
      {
        SetPteLook(t, d, o, v, e, u);
      }
      GainedSame(old(tables), t, SetPte(t, p, v % NENT, e), d, Extra(old(tables), d, v));
      KeptStep(old(tables), old(data), t, data, old(avail) + owner.Keys, SetPte(t, p, v % NENT, e), p);
      tables := SetPte(tables, p, v % NENT, e);
      ghost var was := o;
      if v < USERTOP {
        SetUserOwned(t, d, o, v, e);
        o := o[frame := User(v)];
      } else {
        SetKernelOwned(t, d, o, v, e);
      }
      ok := true;
      Extended(owner, old(data), was, data, o);
    }

    /** deallocuvm on the page v if it is mapped. */
    method FreePage(d: nat, v: nat, p: nat, ghost owner: Owner) returns (ghost o: Owner)
      requires Space(d, owner) && v < USERTOP && p == TableOf(tables, d, v / NENT) && p != 0
      modifies this
      ensures Space(d, o) && avail + o.Keys == old(avail) + owner.Keys
      ensures forall u: nat :: Look(tables, d, u) == if u == v then Unmapped else Look(old(tables), d, u)
      ensures Kept(old(tables), old(data), tables, data, old(avail) + owner.Keys)
      ensures Shrinks(owner, old(data), o, data, v, v + 1)
    {
      hide Chain, Owned;
      o := owner;
      PteSet(tables, d, owner, v, Pte(0, 0));
      if v % NENT in tables[p] {
        var f := tables[p][v % NENT].frame;
        assert Look(tables, d, v) == To(f, tables[p][v % NENT].flags);
        FreeUser(tables, d, owner, v);
        assert f != 0;                         // the panic for frame 0
        Kfree(f);
        tables := ClearPte(tables, p, v % NENT);
        o := owner - {f};
      }
    }

    /** deallocuvm: exactly the pages from newsz up to oldsz are given back; the
        4MB step over a missing table passes no mapped page. */
    method Deallocuvm(d: nat, oldsz: nat, newsz: nat, ghost owner: Owner) returns (r: nat, ghost o: Owner)
      requires Space(d, owner) && oldsz <= KERNBASE
      modifies this
      ensures r == (if newsz >= oldsz then oldsz else newsz)
      ensures Space(d, o) && avail + o.Keys == old(avail) + owner.Keys
      ensures forall u: nat :: Look(tables, d, u) == if Up(newsz) <= u < Up(oldsz) then Unmapped else Look(old(tables), d, u)
      ensures Kept(old(tables), old(data), tables, data, old(avail) + owner.Keys)
      ensures Shrinks(owner, old(data), o, data, Up(newsz), Up(oldsz))
    {
      hide Chain, Owned, Kept, Look, Shrinks;
      o := owner;
      KeptSelf(tables, data, avail + owner.Keys);
      ShrinksSelf(owner, data, Up(newsz), Up(oldsz));
      if newsz >= oldsz {
        return oldsz, o;
      }
      var a := Up(newsz) * PGSIZE;
      while a < oldsz
        invariant a % PGSIZE == 0 && a / PGSIZE >= Up(newsz)
        invariant Space(d, o) && avail + o.Keys == old(avail) + owner.Keys
        invariant forall u: nat :: Look(tables, d, u) ==
                    if Up(newsz) <= u < Up(oldsz) && u < a / PGSIZE then Unmapped else Look(old(tables), d, u)
        invariant Kept(old(tables), old(data), tables, data, old(avail) + owner.Keys)
        invariant Shrinks(owner, old(data), o, data, Up(newsz), Up(oldsz))
      {
        ghost var t, dat, o1 := tables, data, o;
        var v := a / PGSIZE;
        var p;
        p, o := Walk(d, v, false, o);
        if p == 0 {
          SkipTable(tables, d, v);
          a := (v / NENT + 1) * NENT * PGSIZE - PGSIZE;
        } else {
          o := FreePage(d, v, p, o);
          KeptTrans(old(tables), old(data), t, dat, tables, data, old(avail) + owner.Keys);
          ShrinksMore(owner, old(data), o1, dat, o, data, Up(newsz), Up(oldsz), v);
        }
        a := a + PGSIZE;
      }
      r := newsz;
    }

    /** One turn of allocuvm: a zeroed page for v.  When it cannot be mapped its
        frame mem is left with the caller. */
    method GrowOne(d: nat, v: nat, ghost owner: Owner) returns (panic: bool, mem: nat, ok: bool, ghost o: Owner)
      requires Space(d, owner) && v < USERTOP
      modifies this
      ensures panic <==> Count(old(avail)) >= 1 && Look(old(tables), d, v).To?
      ensures ok <==> !panic && Count(old(avail)) >= 1 + Short(old(tables), d, v)
      ensures ok ==> Count(old(avail)) == Count(avail) + 1 + Short(old(tables), d, v)
      ensures ok ==> Gained(old(tables), tables, d, Extra(old(tables), d, v))
      ensures Space(d, o) && Extends(owner, old(data), o, data) && avail <= old(avail)
      ensures (mem == 0 <==> Count(old(avail)) == 0) && (mem == 0 ==> !ok) && (!ok && !panic ==> avail == {})
      ensures mem != 0 ==> mem in old(avail) && mem < |data| && mem !in avail && data[mem] == ZeroPage()
      ensures avail + o.Keys + (if mem != 0 && !ok then {mem} else {}) == old(avail) + owner.Keys
      ensures mem != 0 ==> (ok <==> mem in o)
      ensures forall u: nat :: Look(tables, d, u) == if ok && u == v then To(mem, PTE_W + PTE_U + PTE_P) else Look(old(tables), d, u)
      ensures Kept(old(tables), old(data), tables, data, old(avail) + owner.Keys)
    {
      hide Count, Extra, Chain, Owned, Kept, Look, Extends, Gained, TableOf, Short;
      o := owner;
      KeptSelf(tables, data, avail + owner.Keys);
      ExtendsSelf(owner, data);
      mem := Kalloc();
      if mem == 0 {
        panic, ok := false, false;
        return;
      }
      data := data[mem := ZeroPage()];
      ghost var dat, av := data, avail;
      panic, ok, o := MapOne(d, v, mem, PTE_W + PTE_U + PTE_P, owner);
      MemSet(old(tables), old(data), mem, dat, tables, data, owner, o, av, old(avail));
    }

    /** allocuvm's way out: the pages go, and the frame that could not be mapped. */
    method Shrink(d: nat, newsz: nat, oldsz: nat, mem: nat, ghost owner: Owner) returns (ghost o: Owner)
      requires Space(d, owner) && newsz <= KERNBASE
      requires mem != 0 ==> first <= mem < last && mem !in owner && mem !in avail
      modifies this
      ensures Space(d, o) && avail + o.Keys == old(avail) + owner.Keys + (if mem != 0 then {mem} else {})
      ensures forall u: nat :: Look(tables, d, u) == if Up(oldsz) <= u < Up(newsz) then Unmapped else Look(old(tables), d, u)
      ensures Kept(old(tables), old(data), tables, data, old(avail) + owner.Keys + (if mem != 0 then {mem} else {}))
      ensures Shrinks(owner, old(data), o, data, Up(oldsz), Up(newsz))
    {
      hide Chain, Owned, Kept, Look, Extends, Shrinks;
      var _, o1 := Deallocuvm(d, newsz, oldsz, owner);
      o := o1;
      if mem != 0 {
        GivenBack(old(tables), old(data), tables, data, old(avail) + owner.Keys, mem, owner, o, Up(oldsz), Up(newsz));
        DropOther(tables, d, o, mem);
        Kfree(mem);
      }
    }

    /** No page between the two sizes is mapped. */
    ghost predicate RangeFree(d: nat, oldsz: nat, newsz: nat)
      reads this`tables
    {
      forall u: nat :: Up(oldsz) <= u < Up(newsz) ==> Look(tables, d, u).Unmapped?
    }

    /** allocuvm: either exactly the pages up to newsz are added, zeroed, on
        frames that were free, or those pages are unmapped and the others as
        before.  A page among them that is mapped already stops the kernel. */
    method Allocuvm(d: nat, oldsz: nat, newsz: nat, ghost owner: Owner) returns (panic: bool, r: nat, grown: bool, ghost o: Owner)
      requires Space(d, owner)
      modifies this
      ensures panic <==> newsz < KERNBASE && Stops(old(tables), d, Up(oldsz), Up(newsz), Count(old(avail)))
      ensures grown <==> newsz < KERNBASE && old(RangeFree(d, oldsz, newsz))
                         && Count(old(avail)) >= FramesFor(old(tables), d, Up(oldsz), Up(newsz))
      ensures grown ==> Count(old(avail)) == Count(avail) + FramesFor(old(tables), d, Up(oldsz), Up(newsz))
      ensures grown ==> r == if newsz < oldsz then oldsz else newsz
      ensures !grown ==> r == 0
      ensures !panic ==> Space(d, o) && avail + o.Keys == old(avail) + owner.Keys
      ensures !panic && (grown || newsz >= KERNBASE || old(RangeFree(d, oldsz, newsz))) ==> Extends(owner, old(data), o, data)
      ensures !panic && !grown ==>
                forall u: nat :: Look(tables, d, u) == if newsz < KERNBASE && Up(oldsz) <= u < Up(newsz) then Unmapped else Look(old(tables), d, u)
      ensures grown ==> forall u: nat :: !(Up(oldsz) <= u < Up(newsz)) ==> Look(tables, d, u) == Look(old(tables), d, u)
      ensures grown ==> forall u: nat :: Up(oldsz) <= u < Up(newsz) ==> NewPage(Look(tables, d, u), old(avail), o, data)
      ensures !panic ==> Kept(old(tables), old(data), tables, data, old(avail) + owner.Keys)
    {
      hide Chain, Owned, Kept, Look, Extends, NewPage, Shrinks, Count, Need, Filled, Short, Extra, Gained, Stops, FramesFor;
      o, panic := owner, false;
      FilledNone(tables, d, Up(oldsz));
      ghost var all := avail + owner.Keys;
      KeptSelf(tables, data, all);
      ExtendsSelf(owner, data);
      if newsz >= KERNBASE {
        return false, 0, false, o;
      }
      if newsz < oldsz {
        GrowDone(tables, d, Up(oldsz), Up(newsz), Count(avail));
        return false, oldsz, true, o;
      }
      var a := Up(oldsz) * PGSIZE;
      ghost var v := Up(oldsz);
      while a < newsz
        invariant a == v * PGSIZE && Up(oldsz) <= v <= Up(newsz)
        invariant Space(d, o) && avail + o.Keys == all && avail <= old(avail) && Extends(owner, old(data), o, data)
        invariant forall u: nat :: !(Up(oldsz) <= u < v) ==> Look(tables, d, u) == Look(old(tables), d, u)
        invariant forall u: nat :: Up(oldsz) <= u < v ==> Look(old(tables), d, u).Unmapped?
        invariant forall u: nat :: Up(oldsz) <= u < v ==> NewPage(Look(tables, d, u), old(avail), o, data)
        invariant Kept(old(tables), old(data), tables, data, all) && Filled(old(tables), tables, d, Up(oldsz), v)
        invariant Count(old(avail)) == Count(avail) + v - Up(oldsz) + Need(old(tables), d, Up(oldsz), v)
      {
        ghost var t, dat, o1 := tables, data, o;
        var mem, ok;
        panic, mem, ok, o := GrowOne(d, a / PGSIZE, o);
        FilledNext(old(tables), t, tables, d, Up(oldsz), v);
        GrowEnds(old(tables), d, Up(oldsz), v, Up(newsz), Count(old(avail)));
        if panic {
          return true, 0, false, o;
        }
        KeptTrans(old(tables), old(data), t, dat, tables, data, all);
        ExtendsTrans(owner, old(data), o1, dat, o, data);
        if !ok {
          ghost var dat1, t1, o2 := data, tables, o;
          ghost var rest := avail + o.Keys;
          o := Shrink(d, newsz, oldsz, mem, o);
          KeptLess(old(tables), old(data), t1, dat1, tables, data, rest + (if mem != 0 then {mem} else {}), all);
          if old(RangeFree(d, oldsz, newsz)) {
            Restored(old(tables), d, owner, old(data), o2, dat1, o, data, Up(oldsz), Up(newsz));
          }
          return false, 0, false, o;
        }
        forall u: nat | Up(oldsz) <= u < v + 1 ensures NewPage(Look(tables, d, u), old(avail), o, data) {
          StillNew(Look(tables, d, u), old(avail), o1, dat, o, data, u == v);
        }
        a, v := a + PGSIZE, v + 1;
      }
      GrowDone(old(tables), d, Up(oldsz), Up(newsz), Count(old(avail)));
      return false, newsz, true, o;
    }

    /** freevm: every frame of the space goes back, each once. */
    method Freevm(d: nat, ghost owner: Owner)
      requires Space(d, owner)
      modifies this
      ensures Valid() && avail == old(avail) + owner.Keys
      ensures Kept(old(tables), old(data), tables, data, old(avail) + owner.Keys)
    {
      hide Chain, Kept, Look, Owned, Shrinks;
      ghost var all := avail + owner.Keys;
      var _, o := Deallocuvm(d, KERNBASE, 0, owner);
      ghost var t, av := tables, avail;
      NoUsers(tables, d, o);
      HasDir(tables, d, o);
      var i := 0;
      while i < NENT
        invariant 0 <= i <= NENT && Valid() && d in tables && tables[d] == t[d]
        invariant forall f :: f in avail <==> f in av || (f in o && o[f].Table? && o[f].i < i)
        invariant Kept(old(tables), old(data), tables, data, all)
      {
        if i in tables[d] {
          var p := tables[d][i].frame;
          assert TableOf(t, d, i) == p;
          OwnedTable(t, d, o, i);
          KeptFree(old(tables), old(data), tables, data, all, p);
          OnlyTable(t, d, o, i);
          Kfree(p);
        } else {
          NotATable(t, d, o, i);
        }
        i := i + 1;
      }
      DirRole(t, d, o);
      KeptFree(old(tables), old(data), tables, data, all, d);
      Kfree(d);
      assert avail == all;
    }

    /** mappages over a range of the kernel half. */
    method MapPages(d: nat, v: nat, n: nat, frame: nat, flags: nat, ghost owner: Owner) returns (panic: bool, ok: bool, ghost o: Owner)
      requires Space(d, owner) && USERTOP <= v && v + n <= NENT * NENT
      modifies this
      ensures Space(d, o) && avail + o.Keys == old(avail) + owner.Keys
      ensures panic <==> exists u: nat :: v <= u < v + n && Blocks(old(tables), d, v, u, Count(old(avail)) >= Need(old(tables), d, v, u))
      ensures ok <==> Count(old(avail)) >= Need(old(tables), d, v, v + n) && forall u: nat :: v <= u < v + n ==> Look(old(tables), d, u).Unmapped?
      ensures ok ==> Count(old(avail)) == Count(avail) + Need(old(tables), d, v, v + n) && Filled(old(tables), tables, d, v, v + n)
      ensures ok ==> forall u: nat :: Look(tables, d, u) == if v <= u < v + n then To(frame + u - v, flags) else Look(old(tables), d, u)
      ensures Kept(old(tables), old(data), tables, data, old(avail) + owner.Keys)
    {
      hide Chain, Owned, Kept, Look, Extends, Count, Need, Filled, Short, Extra, Gained;
      o := owner;
      KeptSelf(tables, data, avail + owner.Keys);
      FilledNone(tables, d, v);
      var k := 0;
      while k < n
        invariant 0 <= k <= n && Space(d, o) && avail + o.Keys == old(avail) + owner.Keys
        invariant forall u: nat :: v <= u < v + k ==> Look(old(tables), d, u).Unmapped?
        invariant forall u: nat :: Look(tables, d, u) == if v <= u < v + k then To(frame + u - v, flags) else Look(old(tables), d, u)
        invariant Kept(old(tables), old(data), tables, data, old(avail) + owner.Keys)
        invariant Count(old(avail)) == Count(avail) + Need(old(tables), d, v, v + k) && Filled(old(tables), tables, d, v, v + k)
      {
        ghost var t, dat := tables, data;
        panic, ok, o := MapOne(d, v + k, frame + k, flags, o);
        FilledNext(old(tables), t, tables, d, v, v + k);
        NeedsGrow(old(tables), d, v, v + k, v + n);
        assert panic ==> Blocks(old(tables), d, v, v + k, Count(old(avail)) >= Need(old(tables), d, v, v + k));
        KeptTrans(old(tables), old(data), t, dat, tables, data, old(avail) + owner.Keys);
        if !ok {
          return;
        }
        k := k + 1;
      }
      panic, ok := false, true;
    }

    /** The rows of kmap, in order, into a directory that maps nothing. */
    method MapKernel(d: nat, text: nat, ghost owner: Owner) returns (ok: bool, ghost o: Owner)
      requires Space(d, owner) && EXTMEM < text < PHYSTOP && d in tables && tables[d] == map[]
      modifies this
      ensures Space(d, o) && avail + o.Keys == old(avail) + owner.Keys
      ensures Kept(old(tables), old(data), tables, data, old(avail) + owner.Keys)
      ensures ok <==> Count(old(avail)) >= KERNEL_FRAMES - 1
      ensures ok ==> Count(old(avail)) == Count(avail) + KERNEL_FRAMES - 1 && forall i: nat :: i < 512 ==> TableOf(tables, d, i) == 0
      ensures ok ==> forall u: nat :: Look(tables, d, u) == Kernel(u, text)
    {
      hide Chain, Owned, Kept, Look, Count, Need, Filled, TableOf;
      NothingMapped(tables, d);
      var panic;
      ghost var t, dat, t0 := tables, data, tables;
      KernelNeeds(t0, d, text);
      panic, ok, o := MapPages(d, USERTOP, EXTMEM, 0, PTE_W + PTE_P, owner);
      assert !panic;
      if ok {
        t, dat := tables, data;
        panic, ok, o := MapPages(d, USERTOP + EXTMEM, text - EXTMEM, EXTMEM, PTE_P, o);
        FilledTwice(t0, t, tables, d, USERTOP, USERTOP + EXTMEM, USERTOP + text);
        assert !panic;
        KeptTrans(old(tables), old(data), t, dat, tables, data, old(avail) + owner.Keys);
      }
      if ok {
        t, dat := tables, data;
        panic, ok, o := MapPages(d, USERTOP + text, PHYSTOP - text, text, PTE_W + PTE_P, o);
        FilledTwice(t0, t, tables, d, USERTOP, USERTOP + text, USERTOP + PHYSTOP);
        assert !panic;
        KeptTrans(old(tables), old(data), t, dat, tables, data, old(avail) + owner.Keys);
      }
      if ok {
        t, dat := tables, data;
        DeviceNeeds(t0, t, d);
        panic, ok, o := MapPages(d, DEVSPACE, NENT * NENT - DEVSPACE, DEVSPACE, PTE_W + PTE_P, o);
        NoUserTables(t0, t, tables, d);
        assert !panic;
        KeptTrans(old(tables), old(data), t, dat, tables, data, old(avail) + owner.Keys);
      }
    }

    /** setupkvm: a directory with the kernel's mappings only, or nothing taken. */
    method Setupkvm(text: nat) returns (d: nat, ghost o: Owner)
      requires Valid() && EXTMEM < text < PHYSTOP
      modifies this
      ensures Valid() && Kept(old(tables), old(data), tables, data, old(avail))
      ensures d == 0 ==> avail == old(avail)
      ensures d == 0 <==> Count(old(avail)) < KERNEL_FRAMES
      ensures d != 0 ==> Count(old(avail)) == Count(avail) + KERNEL_FRAMES && forall i: nat :: i < 512 ==> TableOf(tables, d, i) == 0
      ensures d != 0 ==> Space(d, o) && avail + o.Keys == old(avail)
      ensures d != 0 ==> forall u: nat :: Look(tables, d, u) == Kernel(u, text)
    {
      hide Chain, Owned, Kept, Look, Count, Need, Filled, TableOf;
      o := map[];
      KeptSelf(tables, data, avail);
      d := Kalloc();
      if d == 0 {
        return;
      }
      o := map[d := Dir];
      KeptFresh(tables, data, d, old(avail));
      data := data[d := ZeroPage()];
      tables := tables[d := map[]];
      NewSpace(old(tables), d, tables);
      assert avail + o.Keys == old(avail);
      var ok;
      ghost var t, dat := tables, data;
      ok, o := MapKernel(d, text, o);
      KeptTrans(old(tables), old(data), t, dat, tables, data, old(avail));
      if !ok {
        t, dat := tables, data;
        Freevm(d, o);
        KeptTrans(old(tables), old(data), t, dat, tables, data, old(avail));
        d := 0;
      }
    }

    /** One turn of copyuvm: page v of the parent on a frame of the child's own. */
    method CopyOne(c: nat, v: nat, frame: nat, flags: nat, ghost co: Owner) returns (ok: bool, ghost o: Owner)
      requires Space(c, co) && v < USERTOP && Look(tables, c, v).Unmapped?
      requires frame < last && frame !in avail && frame !in co
      modifies this
      ensures Space(c, o) && avail + o.Keys == old(avail) + co.Keys && Extends(co, old(data), o, data)
      ensures Kept(old(tables), old(data), tables, data, old(avail) + co.Keys)
      ensures ok <==> Count(old(avail)) >= 1 + Short(old(tables), c, v)
      ensures ok ==> Count(old(avail)) == Count(avail) + 1 + Short(old(tables), c, v) && Gained(old(tables), tables, c, Extra(old(tables), c, v))
      ensures ok ==> exists mem :: mem in o && mem !in co && CopyOf(tables, c, v, mem, flags, data, old(data)[frame])
      ensures ok ==> forall u: nat :: u != v ==> Look(tables, c, u) == Look(old(tables), c, u)
    {
      hide Count, Extra, Short, Gained, Chain, Owned, Kept, Look, Extends;
      o := co;
      KeptSelf(tables, data, avail + co.Keys);
      ExtendsSelf(co, data);
      var mem := Kalloc();
      if mem == 0 {
        ok := false;
        return;
      }
      data := data[mem := data[frame]];
      ghost var dat, av := data, avail;
      var panic;
      panic, ok, o := MapOne(c, v, mem, flags, co);
      assert !panic;
      MemCopied(old(tables), old(data), mem, frame, dat, tables, data, co, o, av, old(avail));
      if !ok {
        Freed(old(tables), old(data), tables, data, old(avail) + co.Keys, mem, co, o);
        DropOther(tables, c, o, mem);
        Kfree(mem);
      } else {
        assert CopyOf(tables, c, v, mem, flags, data, old(data)[frame]);
      }
    }

    /** copyuvm: a child with the same pages, flags and contents on frames of its
        own, or nothing taken; the parent is untouched.  A page of the parent that
        is not mapped stops the kernel. */
    method Copyuvm(d: nat, sz: nat, text: nat, ghost owner: Owner) returns (panic: bool, c: nat, ghost co: Owner)
      requires Space(d, owner) && sz <= KERNBASE && EXTMEM < text < PHYSTOP
      modifies this
      ensures Space(d, owner) && forall u: nat :: Look(tables, d, u) == Look(old(tables), d, u)
      ensures forall f :: f in owner ==> data[f] == old(data)[f]
      ensures panic <==> exists u: nat :: u < Up(sz) && Gap(old(tables), d, u, Count(old(avail)) >= ChildFrames(u))
      ensures !panic ==> (c == 0 <==> Count(old(avail)) < ChildFrames(Up(sz)))
      ensures !panic && c != 0 ==> Count(old(avail)) == Count(avail) + ChildFrames(Up(sz))
      ensures !panic && c == 0 ==> avail == old(avail)
      ensures !panic && c != 0 ==> Space(c, co) && avail + co.Keys == old(avail)
      ensures !panic && c != 0 ==> forall u: nat :: u < Up(sz) ==> Look(old(tables), d, u).To?
      ensures !panic && c != 0 ==> forall u: nat :: u < Up(sz) ==> Copied(Look(tables, c, u), Look(tables, d, u), data, co)
      ensures !panic && c != 0 ==> forall u: nat :: u >= Up(sz) ==> Look(tables, c, u) == Kernel(u, text)
    {
      hide Chain, Owned, Kept, Look, Extends, CopyOf, Copied, Count, Need, Filled, Short, Extra, Gained, TableOf, ChildFrames;
      panic := false;
      ghost var t0, data0, all := tables, data, avail;
      c, co := Setupkvm(text);
      ParentKept(t0, data0, d, owner, tables, data, all);
      ChildGrows();
      if c == 0 {
        return;
      }
      var i := 0;
      ghost var t1, n := tables, 0;
      FilledNone(t1, c, 0);
      while i < sz
        invariant i == n * PGSIZE && n <= Up(sz)
        invariant Filled(t1, tables, c, 0, n) && Count(all) == Count(avail) + ChildFrames(n)
        invariant Space(c, co) && avail + co.Keys == all && Kept(t0, data0, tables, data, all)
        invariant Space(d, owner) && (forall u: nat :: Look(tables, d, u) == Look(t0, d, u)) && forall f :: f in owner ==> data[f] == data0[f]
        invariant forall u: nat :: u < n ==> Look(t0, d, u).To?
        invariant forall u: nat :: u < n ==> Copied(Look(tables, c, u), Look(t0, d, u), data, co)
        invariant forall u: nat :: u >= n ==> Look(tables, c, u) == Kernel(u, text)
      {
        var v := i / PGSIZE;
        ghost var t, dat, o1 := tables, data, co;
        var found, p := TableAt(d, v, owner);
        if !found {
          panic := true;
          assert Gap(t0, d, v, Count(all) >= ChildFrames(v));
          return;
        }
        UserRole(tables, d, owner, v);
        var pte := tables[p][v % NENT];
        var ok;
        ok, co := CopyOne(c, v, pte.frame, pte.flags, co);
        FilledNext(t1, t, tables, c, 0, v);
        ChildNeeds(t1, c, v);
        KeptTrans(t0, data0, t, dat, tables, data, all);
        ParentKept(t0, data0, d, owner, tables, data, all);
        if !ok {
          t, dat := tables, data;
          Freevm(c, co);
          KeptTrans(t0, data0, t, dat, tables, data, all);
          ParentKept(t0, data0, d, owner, tables, data, all);
          c := 0;
          return;
        }
        forall u: nat | u < v + 1 ensures Copied(Look(tables, c, u), Look(t0, d, u), data, co) {
          UserRole(t0, d, owner, u);
          StillCopied(tables, c, u, v, Look(t0, d, u), dat, data, o1, co, owner);
        }
        i, n := i + PGSIZE, n + 1;
      }
    }

    /** walkpgdir without allocation, and the test of the present bit. */
    method TableAt(d: nat, v: nat, ghost owner: Owner) returns (found: bool, p: nat)
      requires Space(d, owner) && v < USERTOP
      ensures found <==> Look(tables, d, v).To?
      ensures found ==> p in tables && v % NENT in tables[p] && Look(tables, d, v) == To(tables[p][v % NENT].frame, tables[p][v % NENT].flags)
    {
      hide Look, Owned, Chain;
      HasDir(tables, d, owner);
      LookIs(tables, d, v);
      if v / NENT !in tables[d] {
        return false, 0;
      }
      p := tables[d][v / NENT].frame;
      TableKnown(tables, d, owner, v / NENT);
      found := v % NENT in tables[p];
    }
  }


  lemma NothingMapped(t: Tables, d: nat)
    requires d in t && t[d] == map[]
    ensures forall u: nat :: Look(t, d, u).Unmapped?
  {
  }

  lemma KernelNeeds(t: Tables, d: nat, text: nat)
    requires d in t && t[d] == map[] && EXTMEM < text < PHYSTOP
    ensures Need(t, d, USERTOP, USERTOP + EXTMEM) <= Need(t, d, USERTOP, USERTOP + text) <= Need(t, d, USERTOP, USERTOP + PHYSTOP) == 56
  {
    hide Need;
    NeedGrows(t, d, USERTOP, USERTOP + EXTMEM, USERTOP + text);
    NeedGrows(t, d, USERTOP, USERTOP + text, USERTOP + PHYSTOP);
    NeedAll(t, d, USERTOP, USERTOP + PHYSTOP);
  }

  lemma DeviceNeeds(t: Tables, t': Tables, d: nat)
    requires d in t && t[d] == map[] && Filled(t, t', d, USERTOP, USERTOP + PHYSTOP)
    ensures Need(t', d, DEVSPACE, NENT * NENT) == 8
  {
    hide Need;
    NeedAll(t', d, DEVSPACE, NENT * NENT);
  }

  lemma NoUserTables(t: Tables, t1: Tables, t2: Tables, d: nat)
    requires d in t && t[d] == map[] && Filled(t, t1, d, USERTOP, USERTOP + PHYSTOP)
    ensures Filled(t1, t2, d, DEVSPACE, NENT * NENT) ==> forall i: nat :: i < 512 ==> TableOf(t2, d, i) == 0
  {
  }

  lemma ChildGrows()
    ensures ChildFrames(0) == KERNEL_FRAMES
    ensures forall u, w :: 0 <= u <= w ==> ChildFrames(u) <= ChildFrames(w)
  {
  }

  lemma ChildNeeds(t: Tables, c: nat, v: nat)
    requires v < USERTOP && forall i: nat :: i < 512 ==> TableOf(t, c, i) == 0
    ensures ChildFrames(v) == KERNEL_FRAMES + v + Need(t, c, 0, v)
    ensures ChildFrames(v + 1) == KERNEL_FRAMES + v + 1 + Need(t, c, 0, v + 1)
  {
    hide Need;
    FilledNone(t, c, 0);
    NeedAll(t, c, 0, v);
    NeedAll(t, c, 0, v + 1);
  }

  lemma NeedsGrow(t: Tables, d: nat, lo: nat, v: nat, hi: nat)
    requires lo <= v < hi
    ensures forall u: nat :: v < u <= hi ==> Need(t, d, lo, v + 1) <= Need(t, d, lo, u)
  {
    forall u: nat | v < u <= hi ensures Need(t, d, lo, v + 1) <= Need(t, d, lo, u) {
      NeedGrows(t, d, lo, v + 1, u);
    }
  }

  /** Turn v is the last: at a page that is mapped, or for want of frames. */
  lemma GrowEnds(t: Tables, d: nat, lo: nat, v: nat, hi: nat, frames: nat)
    requires lo <= v < hi && forall w: nat :: lo <= w < v ==> Look(t, d, w).Unmapped?
    ensures Look(t, d, v).To? && frames > v - lo + Need(t, d, lo, v) ==> Stops(t, d, lo, hi, frames)
    ensures frames <= v - lo + Need(t, d, lo, v) || (Look(t, d, v).Unmapped? && frames < v - lo + 1 + Need(t, d, lo, v + 1)) ==>
              !Stops(t, d, lo, hi, frames) && frames < FramesFor(t, d, lo, hi)
  {
    hide Look, Need;
    FilledNone(t, d, lo);
    NeedsGrow(t, d, lo, v, hi);
    NeedGrows(t, d, lo, v, v + 1);
    assert Look(t, d, v).To? && frames > FramesFor(t, d, lo, v) ==> Blocks(t, d, lo, v, frames > FramesFor(t, d, lo, v));
  }

  lemma GrowDone(t: Tables, d: nat, lo: nat, hi: nat, frames: nat)
    requires forall u: nat :: lo <= u < hi ==> Look(t, d, u).Unmapped?
    ensures !Stops(t, d, lo, hi, frames) && FramesFor(t, d, lo, hi) == if lo < hi then hi - lo + Need(t, d, lo, hi) else 0
  {
  }

  lemma TableKnown(t: Tables, d: nat, owner: Owner, i: nat)
    requires Owned(t, d, owner) && d in t && i in t[d]
    ensures t[d][i].frame == TableOf(t, d, i) != 0 && t[d][i].frame in t
  {
    OwnedTable(t, d, owner, i);
  }

  lemma LookIs(t: Tables, d: nat, v: nat)
    ensures Look(t, d, v).To? <==> TableOf(t, d, v / NENT) != 0 && TableOf(t, d, v / NENT) in t && v % NENT in t[TableOf(t, d, v / NENT)]
    ensures Look(t, d, v).To? ==> var e := t[TableOf(t, d, v / NENT)][v % NENT]; Look(t, d, v) == To(e.frame, e.flags)
  {
  }

  lemma PteSet(t: Tables, d: nat, owner: Owner, v: nat, e: Pte)
    requires Owned(t, d, owner) && TableOf(t, d, v / NENT) != 0
    ensures TableOf(t, d, v / NENT) in t && TableOf(t, d, v / NENT) in owner
  {
    OwnedTable(t, d, owner, v / NENT);
  }

  lemma KeptStep(t: Tables, data: seq<Page>, t1: Tables, data1: seq<Page>, mine: set<nat>, t2: Tables, p: nat)
    requires Kept(t, data, t1, data1, mine) && p in mine && p in t1 && p in t2
    requires forall f :: f != p ==> (f in t2 <==> f in t1)
    requires forall f :: f != p && f in t1 ==> t2[f] == t1[f]
    ensures Kept(t, data, t2, data1, mine)
  {
  }

  lemma Extended(owner: Owner, data: seq<Page>, o: Owner, data': seq<Page>, o': Owner)
    requires Extends(owner, data, o, data') && forall f :: f in o ==> f in o' && o'[f] == o[f]
    ensures Extends(owner, data, o', data')
  {
  }

  /** The page after the last one that holds a byte below sz. */
  function Up(sz: nat): nat { (sz + PGSIZE - 1) / PGSIZE }

  /** Only user pages from lo to hi have gone. */
  ghost predicate Shrinks(owner: Owner, data: seq<Page>, o: Owner, data': seq<Page>, lo: nat, hi: nat) {
    && |data'| == |data| && (forall f :: f in o ==> f in owner && o[f] == owner[f])
    && (forall f :: f in owner && !(owner[f].User? && lo <= owner[f].v < hi) ==> f in o)
    && (forall f :: f in o && 0 <= f < |data| ==> data'[f] == data[f])
  }

  lemma ShrinksSelf(owner: Owner, data: seq<Page>, lo: nat, hi: nat)
    ensures Shrinks(owner, data, owner, data, lo, hi)
  {
  }

  lemma ShrinksMore(owner: Owner, data: seq<Page>, o: Owner, data1: seq<Page>, o': Owner, data2: seq<Page>, lo: nat, hi: nat, v: nat)
    requires Shrinks(owner, data, o, data1, lo, hi) && Shrinks(o, data1, o', data2, v, v + 1) && lo <= v < hi
    ensures Shrinks(owner, data, o', data2, lo, hi)
  {
  }

  lemma KeptSelf(t: Tables, data: seq<Page>, mine: set<nat>)
    ensures Kept(t, data, t, data, mine)
  {
  }

  lemma SkipTable(t: Tables, d: nat, v: nat)
    requires TableOf(t, d, v / NENT) == 0
    ensures forall u: nat :: v <= u < (v / NENT + 1) * NENT ==> Look(t, d, u) == Unmapped
  {
    forall u: nat | v <= u < (v / NENT + 1) * NENT ensures Look(t, d, u) == Unmapped {
      assert u / NENT == v / NENT;
    }
  }

  /** A page mapped to a zeroed frame that was free and is now owned. */
  ghost predicate NewPage(m: Mapping, avail: set<nat>, o: Owner, data: seq<Page>) {
    && m.To? && m.flags == PTE_W + PTE_U + PTE_P && m.frame in avail && m.frame in o
    && m.frame < |data| && data[m.frame] == ZeroPage()
  }

  lemma HasDir(t: Tables, d: nat, owner: Owner)
    requires Owned(t, d, owner)
    ensures d in t && d in owner
    ensures forall i :: i in t[d] ==> TableOf(t, d, i) == t[d][i].frame && t[d][i].frame != 0
  {
    assert At(t, d, Dir) == d;
  }

  lemma ExtendsSelf(owner: Owner, data: seq<Page>)
    ensures Extends(owner, data, owner, data)
  {
  }

  lemma TableAdded(t: Tables, data: seq<Page>, d: nat, i: nat, p: nat, owner: Owner, avail: set<nat>)
    requires d in t && d in owner && p in avail && p !in owner && p < |data|
    ensures Kept(t, data, AddTable(t, d, i, p, PTE_P + PTE_W + PTE_U), data[p := ZeroPage()], avail + owner.Keys)
    ensures Extends(owner, data, owner[p := Table(i)], data[p := ZeroPage()])
  {
  }

  lemma MemSet(t: Tables, data: seq<Page>, mem: nat, data1: seq<Page>, t2: Tables, data2: seq<Page>, owner: Owner, o: Owner,
               avail1: set<nat>, avail: set<nat>)
    requires mem in avail && mem !in owner && mem < |data| && data1 == data[mem := ZeroPage()] && avail1 == avail - {mem}
    requires Kept(t, data1, t2, data2, avail1 + owner.Keys) && Extends(owner, data1, o, data2)
    ensures Kept(t, data, t2, data2, avail + owner.Keys) && Extends(owner, data, o, data2) && data2[mem] == ZeroPage()
  {
  }

  lemma ExtendsTrans(owner: Owner, data: seq<Page>, o: Owner, data1: seq<Page>, o2: Owner, data2: seq<Page>)
    requires Extends(owner, data, o, data1) && Extends(o, data1, o2, data2)
    ensures Extends(owner, data, o2, data2)
  {
  }

  lemma KeptLess(t: Tables, data: seq<Page>, t1: Tables, data1: seq<Page>, t2: Tables, data2: seq<Page>, less: set<nat>, mine: set<nat>)
    requires Kept(t, data, t1, data1, mine) && Kept(t1, data1, t2, data2, less) && less <= mine
    ensures Kept(t, data, t2, data2, mine)
  {
  }

  /** Taking the new pages away leaves what there was: they were unmapped before. */
  lemma Restored(t: Tables, d: nat, owner: Owner, data: seq<Page>, o: Owner, data1: seq<Page>, o2: Owner, data2: seq<Page>,
                 lo: nat, hi: nat)
    requires Owned(t, d, owner) && Extends(owner, data, o, data1) && Shrinks(o, data1, o2, data2, lo, hi)
    requires forall u: nat :: lo <= u < hi ==> Look(t, d, u).Unmapped?
    ensures Extends(owner, data, o2, data2)
  {
    forall f | f in owner ensures f in o2 && o2[f] == owner[f] {
      assert At(t, d, owner[f]) == f;
    }
  }

  lemma GivenBack(t: Tables, data: seq<Page>, t1: Tables, data1: seq<Page>, mine: set<nat>, mem: nat, owner: Owner, o: Owner, lo: nat, hi: nat)
    requires Kept(t, data, t1, data1, mine) && mem !in owner && mem < |data1| && Shrinks(owner, data, o, data1, lo, hi)
    ensures mem !in o && Kept(t, data, t1 - {mem}, data1[mem := JunkPage()], mine + {mem})
    ensures Shrinks(owner, data, o, data1[mem := JunkPage()], lo, hi)
  {
  }

  lemma Freed(t: Tables, data: seq<Page>, t1: Tables, data1: seq<Page>, mine: set<nat>, mem: nat, owner: Owner, o: Owner)
    requires Kept(t, data, t1, data1, mine) && mem in mine && mem !in o && mem < |data1|
    ensures Kept(t, data, t1 - {mem}, data1[mem := JunkPage()], mine)
    ensures Extends(owner, data, o, data1) ==> Extends(owner, data, o, data1[mem := JunkPage()])
  {
  }

  /** A frame the space does not own is none of its tables. */
  lemma DropOther(t: Tables, d: nat, owner: Owner, f: nat)
    requires Owned(t, d, owner) && f !in owner
    ensures Owned(t - {f}, d, owner) && forall u: nat :: Look(t - {f}, d, u) == Look(t, d, u)
  {
    SameSpace(t, d, owner, t - {f});
  }

  lemma StillNew(m: Mapping, avail: set<nat>, o: Owner, data: seq<Page>, o': Owner, data': seq<Page>, now: bool)
    requires Extends(o, data, o', data')
    requires if now then NewPage(m, avail, o', data') else NewPage(m, avail, o, data)
    ensures NewPage(m, avail, o', data')
  {
  }

  lemma NoUsers(t: Tables, d: nat, o: Owner)
    requires Owned(t, d, o) && forall u: nat :: u < USERTOP ==> Look(t, d, u).Unmapped?
    ensures forall f :: f in o ==> o[f].Dir? || (o[f].Table? && o[f].i < NENT)
  {
    forall f | f in o ensures o[f].Dir? || (o[f].Table? && o[f].i < NENT) {
      assert At(t, d, o[f]) == f;
    }
  }

  lemma OnlyTable(t: Tables, d: nat, o: Owner, i: nat)
    requires Owned(t, d, o) && TableOf(t, d, i) != 0
    ensures forall f :: f in o && o[f] == Table(i) ==> f == TableOf(t, d, i)
  {
    forall f | f in o && o[f] == Table(i) ensures f == TableOf(t, d, i) {
      assert At(t, d, o[f]) == f;
    }
  }

  lemma NotATable(t: Tables, d: nat, o: Owner, i: nat)
    requires Owned(t, d, o) && d in t && i !in t[d]
    ensures forall f :: f in o ==> o[f] != Table(i)
  {
    forall f | f in o ensures o[f] != Table(i) {
      assert At(t, d, o[f]) == f;
    }
  }

  lemma DirRole(t: Tables, d: nat, o: Owner)
    requires Owned(t, d, o)
    ensures d in o && o[d] == Dir && forall f :: f in o && o[f] == Dir ==> f == d
  {
    assert At(t, d, Dir) == d;
    forall f | f in o && o[f] == Dir ensures f == d {
      assert At(t, d, o[f]) == f;
    }
  }

  lemma KeptFree(t: Tables, data: seq<Page>, t1: Tables, data1: seq<Page>, mine: set<nat>, f: nat)
    requires Kept(t, data, t1, data1, mine) && f in mine && f < |data1|
    ensures Kept(t, data, t1 - {f}, data1[f := JunkPage()], mine)
  {
  }

  const EXTMEM := 0x100                    // as page numbers
  const PHYSTOP := 0xE000
  const DEVSPACE := 0xFE000

  /** The kernel's mappings, kmap; its text ends at frame `text`. */
  function Kernel(u: nat, text: nat): Mapping {
    if USERTOP <= u < USERTOP + EXTMEM then To(u - USERTOP, PTE_W + PTE_P)
    else if USERTOP <= u < USERTOP + text then To(u - USERTOP, PTE_P)
    else if USERTOP <= u < USERTOP + PHYSTOP then To(u - USERTOP, PTE_W + PTE_P)
    else if DEVSPACE <= u < NENT * NENT then To(u, PTE_W + PTE_P)
    else Unmapped
  }

  /** Physical memory at 0x80000 and the devices at themselves, each page once;
      no page of it is the user's, and exactly the text cannot be written. */
  lemma KernelMaps(u: nat, v: nat, text: nat)
    requires EXTMEM < text < PHYSTOP
    ensures Kernel(u, text).To? <==> 0x80000 <= u < 0x8E000 || 0xFE000 <= u < 0x100000
    ensures Kernel(u, text).To? ==> Kernel(u, text).frame == if u < 0xFE000 then u - 0x80000 else u
    ensures Kernel(u, text).To? ==> Kernel(u, text).flags == if 0x80100 <= u < 0x80000 + text then 1 else 3
    ensures Kernel(u, text).To? && Kernel(v, text).To? && Kernel(u, text).frame == Kernel(v, text).frame ==> u == v
  {
  }

  lemma KeptFresh(t: Tables, data: seq<Page>, d: nat, mine: set<nat>)
    requires d in mine && d < |data|
    ensures Kept(t, data, t[d := map[]], data[d := ZeroPage()], mine)
  {
  }

  /** Page v maps to frame mem, with these flags and contents. */
  ghost predicate CopyOf(t: Tables, c: nat, v: nat, mem: nat, flags: nat, data: seq<Page>, page: Page) {
    Look(t, c, v) == To(mem, flags) && mem < |data| && data[mem] == page
  }

  lemma MemCopied(t: Tables, data: seq<Page>, mem: nat, frame: nat, data1: seq<Page>, t2: Tables, data2: seq<Page>, owner: Owner, o: Owner,
                  avail1: set<nat>, avail: set<nat>)
    requires mem in avail && mem !in owner && mem < |data| && frame < |data|
    requires data1 == data[mem := data[frame]] && avail1 == avail - {mem}
    requires Kept(t, data1, t2, data2, avail1 + owner.Keys) && Extends(owner, data1, o, data2)
    ensures Kept(t, data, t2, data2, avail + owner.Keys) && Extends(owner, data, o, data2) && data2[mem] == data[frame]
  {
  }

  /** The same flags, and the same contents on a frame in o. */
  ghost predicate Copied(m: Mapping, src: Mapping, data: seq<Page>, o: Owner) {
    && m.To? && src.To? && m.flags == src.flags && m.frame in o
    && m.frame < |data| && src.frame < |data| && data[m.frame] == data[src.frame]
  }

  /** A space none of whose frames are in `mine` is untouched. */
  lemma ParentKept(t: Tables, data: seq<Page>, d: nat, owner: Owner, t': Tables, data': seq<Page>, mine: set<nat>)
    requires Owned(t, d, owner) && Kept(t, data, t', data', mine) && owner.Keys !! mine && forall f :: f in owner ==> f < |data|
    ensures Owned(t', d, owner) && (forall u: nat :: Look(t', d, u) == Look(t, d, u)) && forall f :: f in owner ==> data'[f] == data[f]
  {
    SameSpace(t, d, owner, t');
  }

  lemma StillCopied(t: Tables, c: nat, u: nat, v: nat, src: Mapping, data: seq<Page>, data': seq<Page>, o: Owner, o': Owner, owner: Owner)
    requires Extends(o, data, o', data') && src.To? && src.frame in owner && src.frame < |data| && data'[src.frame] == data[src.frame]
    requires if u == v then exists mem :: mem in o' && mem !in o && CopyOf(t, c, v, mem, src.flags, data', data[src.frame])
             else Copied(Look(t, c, u), src, data, o)
    ensures Copied(Look(t, c, u), src, data', o')
  {
  }
}
