/**
 The physical memory manager: a free list threaded through the first word of every free frame.
 `free` is the abstract value of the list, head first.
 */
module PhysicalMemory {
  import opened Memory

  /** Following first words from physical address `a` visits exactly the frames `s`, then null. */
  ghost predicate Chain(mem: Mem, a: nat, s: seq<nat>)
    decreases |s|
  {
    if s == [] then a == 0
    else
      && a == 4096 * s[0] && s[0] != 0 && s[0] in mem
      && Chain(mem, mem[s[0]][0], s[1..])
  }

  ghost predicate FreeListOk(mem: Mem, freelist: Option<nat>, free: seq<nat>) {
    && 0 in mem
    && NoDup(free)
    && match freelist {
         case None => free == []
         case Some(a) => Chain(mem, a, free)
       }
  }

  lemma {:induction false} ChainElems(mem: Mem, a: nat, s: seq<nat>)
    requires Chain(mem, a, s)
    ensures forall f :: f in s ==> f in mem && f != 0
    decreases |s|
  {
    if s != [] {
      ChainElems(mem, mem[s[0]][0], s[1..]);
      assert forall f :: f in s ==> f == s[0] || f in s[1..];
    }
  }

  lemma FreeElems(mem: Mem, freelist: Option<nat>, free: seq<nat>)
    requires FreeListOk(mem, freelist, free)
    ensures forall f :: f in free ==> f in mem && f != 0
  {
    if freelist.Some? {
      ChainElems(mem, freelist.value, free);
    }
  }

  /** The list only depends on the frames it visits. */
  lemma {:induction false} ChainFrame(mem: Mem, mem': Mem, a: nat, s: seq<nat>)
    requires Chain(mem, a, s)
    requires SameOn(mem, mem', Elems(s))
    ensures Chain(mem', a, s)
    decreases |s|
  {
    if s != [] {
      assert s[0] in Elems(s);
      assert forall f :: f in s[1..] ==> f in s;
      ChainFrame(mem, mem', mem[s[0]][0], s[1..]);
    }
  }

  lemma FreeListFrame(mem: Mem, mem': Mem, freelist: Option<nat>, free: seq<nat>)
    requires FreeListOk(mem, freelist, free)
    requires SameOn(mem, mem', Elems(free)) && 0 in mem'
    ensures FreeListOk(mem', freelist, free)
  {
    if freelist.Some? {
      ChainFrame(mem, mem', freelist.value, free);
    }
  }

  /** Linking frame `f` in front of the list; only the first word of its page matters. */
  lemma PushKeepsList(mem: Mem, freelist: Option<nat>, free: seq<nat>, f: nat, page: Page)
    requires FreeListOk(mem, freelist, free)
    requires f != 0 && f !in free
    requires page[0] == (if freelist.Some? then freelist.value else 0)
    ensures FreeListOk(mem[f := page], Some(4096 * f), [f] + free)
  {
    var mem' := mem[f := page];
    FreeElems(mem, freelist, free);
    FreeListFrame(mem, mem', freelist, free);
    NoDupCons(f, free);
    assert ([f] + free)[1..] == free;
  }

  /** Physical memory and the global `FREELIST`: the address of the first free frame, null when it ran out. */
  datatype Ram = Ram(mem: Mem, freelist: Option<nat>)

  /** The free list visits exactly the frames of `free`, each once. */
  ghost predicate PoolOk(r: Ram, free: set<nat>) {
    exists s: seq<nat> :: ListOf(s, free) && FreeListOk(r.mem, r.freelist, s)
  }

  ghost predicate ListOf(s: seq<nat>, free: set<nat>) {
    |s| == |free| && forall f {:trigger f in s} :: f in s <==> f in free
  }

  /** A free list is a pool of the frames it visits. */
  lemma ListIsPool(r: Ram, s: seq<nat>)
    requires FreeListOk(r.mem, r.freelist, s)
    ensures PoolOk(r, Elems(s)) && |Elems(s)| == |s|
  {
    AllCounted(s);
    assert ListOf(s, Elems(s));
  }

  lemma {:induction false} AllCounted(s: seq<nat>)
    requires NoDup(s)
    ensures |Elems(s)| == |s|
  {
    if s != [] {
      NoDupTail(s);
      AllCounted(s[1..]);
    }
  }

  /** `allocate_page`: pops the head of the list and clears it; nothing when the list was never set up. */
  function TakePage(r: Ram): (Ram, Option<nat>) {
    if r.freelist.None? || r.freelist.value / 4096 !in r.mem then (r, None)
    else
      var f := r.freelist.value / 4096;
      (Ram(r.mem[f := ZeroPage()], Some(r.mem[f][0])), Some(f))
  }

  /** `deallocate_page`: clears the frame and links it in front. */
  function GivePage(r: Ram, f: nat): Ram {
    if r.freelist.None? then r
    else Ram(r.mem[f := ZeroPage()[0 := r.freelist.value]], Some(4096 * f))
  }

  /** Pool frames are RAM and never frame 0, whose address reads as null. */
  lemma PoolFrames(r: Ram, free: set<nat>)
    requires PoolOk(r, free)
    ensures 0 in r.mem && forall f :: f in free ==> f in r.mem && f != 0
  {
    var s :| ListOf(s, free) && FreeListOk(r.mem, r.freelist, s);
    FreeElems(r.mem, r.freelist, s);
  }

  /** The pool only depends on the frames in it. */
  lemma PoolFrame(r: Ram, mem': Mem, free: set<nat>)
    requires PoolOk(r, free) && 0 in mem'
    requires forall f :: f in free ==> f in r.mem && f in mem' && mem'[f] == r.mem[f]
    ensures PoolOk(r.(mem := mem'), free)
  {
    var s :| ListOf(s, free) && FreeListOk(r.mem, r.freelist, s);
    FreeElems(r.mem, r.freelist, s);
    FreeListFrame(r.mem, mem', r.freelist, s);
  }

  /** While the pool lasts, `allocate_page` takes a frame of the pool, zeroed, and keeps the rest. */
  lemma TakePageFacts(r: Ram, free: set<nat>)
    requires PoolOk(r, free) && free != {}
    ensures TakePage(r).1.Some? && TakePage(r).1.value in free
    ensures var f := TakePage(r).1.value;
            && f != 0 && f in r.mem
            && TakePage(r).0.mem == r.mem[f := ZeroPage()] && TakePage(r).0.freelist.Some?
            && PoolOk(TakePage(r).0, free - {f})
  {
    var s :| ListOf(s, free) && FreeListOk(r.mem, r.freelist, s);
    assert s != [];
    TakeHead(r, s);
    ListTail(s, free);
  }

  lemma TakeHead(r: Ram, s: seq<nat>)
    requires FreeListOk(r.mem, r.freelist, s) && s != []
    ensures TakePage(r) == (Ram(r.mem[s[0] := ZeroPage()], Some(r.mem[s[0]][0])), Some(s[0]))
    ensures s[0] != 0 && s[0] in r.mem
    ensures FreeListOk(TakePage(r).0.mem, TakePage(r).0.freelist, s[1..])
  {
    NoDupTail(s);
    FreeElems(r.mem, r.freelist, s);
    ChainFrame(r.mem, r.mem[s[0] := ZeroPage()], r.mem[s[0]][0], s[1..]);
  }

  lemma ListTail(s: seq<nat>, free: set<nat>)
    requires ListOf(s, free) && s != [] && NoDup(s)
    ensures s[0] in free && ListOf(s[1..], free - {s[0]})
  {
    NoDupTail(s);
    assert s[0] in s;
    forall f
      ensures f in s[1..] <==> f in free - {s[0]}
    {
      assert f in s <==> f == s[0] || f in s[1..];
    }
  }

  /** A frame that is not null and not free goes back to the pool. */
  lemma GivePageFacts(r: Ram, free: set<nat>, f: nat)
    requires PoolOk(r, free) && r.freelist.Some? && f != 0 && f !in free
    ensures PoolOk(GivePage(r, f), free + {f})
  {
    var s :| ListOf(s, free) && FreeListOk(r.mem, r.freelist, s);
    PushKeepsList(r.mem, r.freelist, s, f, ZeroPage()[0 := r.freelist.value]);
    assert ListOf([f] + s, free + {f});
  }

  /** Freeing a frame and allocating gives it back, cleared, and restores the list. */
  lemma GiveThenTake(r: Ram, f: nat)
    requires r.freelist.Some? && f in r.mem
    ensures TakePage(GivePage(r, f)) == (Ram(r.mem[f := ZeroPage()], r.freelist), Some(f))
  {
    assert GivePage(r, f).mem[f := ZeroPage()] == r.mem[f := ZeroPage()];
  }

  /**
   When the list has run out its head is null, and the code goes on to hand out frame 0:
   `allocate_page` returns a frame of the pool exactly when the pool is not empty.
   */
  lemma TakesFromPoolIff(r: Ram, free: set<nat>)
    requires PoolOk(r, free) && r.freelist.Some?
    ensures TakePage(r).1.Some?
    ensures TakePage(r).1.value in free <==> free != {}
    ensures free == {} ==> TakePage(r).1.value == 0
  {
    if free != {} {
      TakePageFacts(r, free);
    } else {
      var s :| ListOf(s, free) && FreeListOk(r.mem, r.freelist, s);
      assert s == [];
    }
  }

  /** Memory after `n` allocations. */
  function AfterTakes(r: Ram, n: nat): Ram {
    if n == 0 then r else TakePage(AfterTakes(r, n - 1)).0
  }

  /** An empty pool hands out frame 0 for ever, exactly when the first word of frame 0 is no other frame's address. */
  lemma ExhaustedPoolRepeatsFrameZero(r: Ram)
    requires PoolOk(r, {}) && r.freelist.Some?
    ensures (forall n: nat :: TakePage(AfterTakes(r, n)).1 == Some(0)) <==> r.mem[0][0] < 4096
  {
    TakesFromPoolIff(r, {});
    if r.mem[0][0] < 4096 {
      forall n: nat
        ensures TakePage(AfterTakes(r, n)).1 == Some(0)
      {
        ZeroAgain(r, n);
      }
    } else {
      assert TakePage(AfterTakes(r, 1)).1 != Some(0);
    }
  }

  lemma {:induction false} ZeroAgain(r: Ram, n: nat)
    requires TakePage(r).1 == Some(0) && r.mem[0][0] < 4096
    ensures TakePage(AfterTakes(r, n)).1 == Some(0) && AfterTakes(r, n).mem[0][0] < 4096
  {
    if n > 0 {
      ZeroAgain(r, n - 1);
    }
  }

  /** The kinds of memory the kernel tells apart: `Mapped` stands for those that only the direct map covers. */
  datatype EntryKind = UsableRam | Mapped | Framebuffer | Skipped

  /** One memory-map entry of the boot loader. */
  datatype MemmapEntry = MemmapEntry(base: nat, length: nat, kind: EntryKind)

  /** Entries of the usable type come page aligned, and no frame lies in two of them. */
  ghost predicate WellFormedMap(entries: seq<MemmapEntry>, mem: Mem) {
    && (forall i :: 0 <= i < |entries| && entries[i].kind == UsableRam ==>
          entries[i].base % 4096 == 0 && entries[i].length % 4096 == 0)
    && (forall i, f :: 0 <= i < |entries| && InEntry(entries[i], f) ==> f in mem)
    && (forall i, j, f :: 0 <= i < j < |entries| && InEntry(entries[i], f) ==> !InEntry(entries[j], f))
  }

  ghost predicate InEntry(e: MemmapEntry, f: nat) {
    e.kind == UsableRam && e.base <= 4096 * f < e.base + e.length
  }

  /** A frame is in the pool when it is usable RAM and not frame 0, whose address reads as null. */
  ghost predicate Usable(entries: seq<MemmapEntry>, f: nat) {
    f != 0 && exists i :: 0 <= i < |entries| && InEntry(entries[i], f)
  }

  class Pmm {
    var mem: Mem
    /** `FREELIST`: the physical address of the first free frame, null when the list ran out. */
    var freelist: Option<nat>
    ghost var free: seq<nat>

    ghost predicate Valid()
      reads this
    {
      FreeListOk(mem, freelist, free)
    }

    /** The state at boot: memory as the boot loader left it, no list yet. */
    constructor (mem: Mem)
      requires 0 in mem
      ensures Valid() && free == [] && freelist == None && this.mem == mem
    {
      this.mem := mem;
      freelist := None;
      free := [];
    }

    method Init(entries: seq<MemmapEntry>)
      requires Valid() && freelist == None
      requires WellFormedMap(entries, mem)
      modifies this
      ensures Valid()
      ensures forall f :: f in free <==> Usable(entries, f)
      ensures mem.Keys == old(mem.Keys)
    {
      for k := 0 to |entries|
        invariant Valid()
        invariant mem.Keys == old(mem.Keys)
        invariant forall f :: f in free <==> Usable(entries[..k], f)
      {
        ghost var before := free;
        var e := entries[k];
        assert forall f :: f in before ==> !InEntry(e, f);
        if e.kind == UsableRam {
          var a := e.base;
          while a < e.base + e.length
            invariant e.base <= a <= e.base + e.length && a % 4096 == 0
            invariant Valid()
            invariant mem.Keys == old(mem.Keys)
            invariant forall f :: f in free <==> f in before || (f != 0 && e.base <= 4096 * f < a)
            decreases e.base + e.length - a
          {
            if a != 0 {
              LinkFrame(a);
            }
            a := a + 4096;
          }
        }
        assert entries[..k + 1] == entries[..k] + [e];
        assert forall f :: Usable(entries[..k + 1], f) <==> Usable(entries[..k], f) || (f != 0 && InEntry(e, f)) by {
          UsableSnoc(entries[..k], e);
        }
      }
      assert entries[..|entries|] == entries;
    }

    /** The body of `init`'s inner loop for one non-null page address. */
    method LinkFrame(a: nat)
      requires Valid() && a != 0 && a % 4096 == 0
      requires a / 4096 in mem && a / 4096 !in free
      modifies this
      ensures Valid() && freelist == Some(a)
      ensures free == [a / 4096] + old(free)
      ensures mem.Keys == old(mem.Keys)
    {
      var f := a / 4096;
      var prev := if freelist.Some? then freelist.value else 0;
      PushKeepsList(mem, freelist, free, f, mem[f][0 := prev]);
      mem := SetWord(mem, f, 0, prev);
      freelist := Some(a);
      free := [f] + free;
    }

    method AllocatePage() returns (page: Option<nat>)
      requires Valid()
      modifies this
      ensures (Ram(mem, freelist), page) == TakePage(Ram(old(mem), old(freelist)))
      ensures old(free) != [] ==> Valid() && page == Some(old(free)[0]) && free == old(free)[1..]
    {
      if freelist.None? {
        return None;
      }
      if free != [] {
        NoDupTail(free);
        FreeElems(mem, freelist, free);
        ChainFrame(mem, mem[free[0] := ZeroPage()], mem[free[0]][0], free[1..]);
        free := free[1..];
      }
      var f := freelist.value / 4096;
      freelist := Some(mem[f][0]);
      mem := mem[f := ZeroPage()];
      page := Some(f);
    }

    /** Fails before `init` (the source panics). */
    method DeallocatePage(f: nat) returns (ok: bool)
      requires Valid()
      modifies this
      ensures ok == old(freelist).Some?
      ensures Ram(mem, freelist) == GivePage(Ram(old(mem), old(freelist)), f)
      ensures ok && f != 0 && f !in old(free) ==> Valid() && free == [f] + old(free)
    {
      if freelist.None? {
        return false;
      }
      if f != 0 && f !in free {
        PushKeepsList(mem, freelist, free, f, ZeroPage()[0 := freelist.value]);
        free := [f] + free;
      }
      var o := freelist.value;
      mem := mem[f := ZeroPage()];
      mem := SetWord(mem, f, 0, o);
      freelist := Some(4096 * f);
      ok := true;
    }
  }

  lemma UsableSnoc(es: seq<MemmapEntry>, e: MemmapEntry)
    ensures forall f :: Usable(es + [e], f) <==> Usable(es, f) || (f != 0 && InEntry(e, f))
  {
    forall f
      ensures Usable(es + [e], f) <==> Usable(es, f) || (f != 0 && InEntry(e, f))
    {
      if f != 0 && InEntry(e, f) {
        assert (es + [e])[|es|] == e;
      }
      if Usable(es, f) {
        var i :| 0 <= i < |es| && InEntry(es[i], f);
        assert (es + [e])[i] == es[i];
      }
    }
  }

  /**
   Freeing a frame leaves a list of the pool plus that frame exactly when the frame is
   not null and not in the pool already; a second free of the same frame closes a cycle.
   */
  lemma FreeingKeepsListIff(r: Ram, free: seq<nat>, f: nat)
    requires FreeListOk(r.mem, r.freelist, free) && r.freelist.Some? && f in r.mem
    ensures f != 0 && f !in free <==>
            exists s :: f in s && FreeListOk(GivePage(r, f).mem, GivePage(r, f).freelist, s)
  {
    var r' := GivePage(r, f);
    if f != 0 && f !in free {
      PushKeepsList(r.mem, r.freelist, free, f, ZeroPage()[0 := r.freelist.value]);
      assert f in [f] + free;
    }
    if s :| f in s && FreeListOk(r'.mem, r'.freelist, s) {
      ChainElems(r'.mem, 4096 * f, s);
      if f in free {
        FirstVisit(r.mem, r'.mem, r.freelist.value, free, f, s[1..]);
        assert false;
      }
    }
  }

  /** After a second free of `f`, whatever follows the old head leads back to `f`. */
  lemma {:induction false} FirstVisit(mem: Mem, mem': Mem, a: nat, free: seq<nat>, f: nat, t: seq<nat>)
    requires Chain(mem, a, free) && f in free
    requires Chain(mem', a, t)
    requires mem.Keys == mem'.Keys && forall g :: g in mem && g != f ==> mem'[g] == mem[g]
    ensures f in t
    decreases |free|
  {
    assert t != [] && t[0] == free[0];
    if free[0] != f {
      FirstVisit(mem, mem', mem[free[0]][0], free[1..], f, t[1..]);
    }
  }
}
