/** `vmm_dealloc`, and what is left after `vmm_alloc` and `vmm_dealloc` of the result. */
module VmmFree {
  import opened Memory
  import opened PhysicalMemory
  import opened TableTree
  import opened PageTables
  import opened X86Entries
  import opened RegionMapping
  import opened X86Regions
  import opened SlabPages
  import opened Slabs
  import opened SlabAlloc
  import opened RegionList
  import opened Ownership
  import opened RegionNodes
  import opened AddressSpace
  import opened Vmm

  // ---- the pages of the region ----

  /** From `a` to `b` the pages of `g` were unmapped and their frames freed; nothing else was. */
  ghost predicate PagesLost(a: World, b: World, g: Region) {
    && (forall f :: Owned(b, f) <==> Owned(a, f))
    && b.tree == a.tree && b.bits == a.bits
    && (forall n :: n in b.pages.frameOf <==> n in a.pages.frameOf && !HasPage(g, n))
    && (forall n {:trigger b.pages.frameOf[n]} :: n in b.pages.frameOf ==> b.pages.frameOf[n] == a.pages.frameOf[n])
    && (forall n :: LeafWord(X86, b.mem, b.tree, n) == if HasPage(g, n) then 0 else LeafWord(X86, a.mem, a.tree, n))
    && (forall f :: f in b.pages.pageOf ==> f in a.mem && f in b.mem && b.mem[f] == a.mem[f])
    && |b.free| == |a.free| + g.length / 4096
  }

  /** `PagesLost` with the slabs left alone, folded. */
  ghost predicate Unpaged(a: World, b: World, g: Region) {
    b.slabs == a.slabs && forall k {:trigger Open(k)} :: Open(k) ==> PagesLost(a, b, g) && SlabPagesSame(a, b)
  }

  /** `arch_unmap_region` for a region of backed pages. */
  method UnmapOld(r0: Ram, root: nat, ghost g: Region, base: nat, length: nat, ghost caches: seq<nat>, ghost w0: World)
    returns (r: Ram, ghost w: World)
    requires WorldOk(r0, root, caches, w0) && base == g.base && length == g.length
    requires g.base % 4096 == 0 && g.length % 4096 == 0 && EndPage(g) <= PAGES
    requires forall n :: HasPage(g, n) ==> n in w0.pages.frameOf
    ensures WorldOk(r, root, caches, w) && Unpaged(w0, w, g)
  {
    ghost var s;
    LiveHere(StockOf(w0), w0.pages, w0.bits, FirstPage(g));
    r, s := ArchUnmapRegion(r0, root, base, length, StockOf(w0), w0.pages, w0.bits);
    w := WithUnmapped(w0, s, FirstPage(g), EndPage(g));
    UnmapStep(r0, root, caches, w0, r, s, FirstPage(g), EndPage(g));
    UnmapFrames(r0, root, caches, w0, r, s, FirstPage(g), EndPage(g));
    UnmappedPages(r0, root, caches, w0, s, g);
    IsUnpaged(w0, w, g);
  }

  lemma LiveHere(s: Stock, k: Backing, bits: map<nat, nat>, lo: nat)
    requires Live(s, k, bits, 0, 0)
    ensures Live(s, k, bits, lo, lo)
  {
    assert Open(0);
  }

  lemma IsUnpaged(a: World, b: World, g: Region)
    requires PagesLost(a, b, g) && SlabPagesSame(a, b)
    ensures Unpaged(a, b, g)
  {
  }

  lemma UnmappedPages(r: Ram, root: nat, caches: seq<nat>, w: World, s: Stock, g: Region)
    requires WorldOk(r, root, caches, w)
    requires Released(X86, StockOf(w), s, FirstPage(g), EndPage(g), w.pages)
    requires forall f :: Owned(WithUnmapped(w, s, FirstPage(g), EndPage(g)), f) <==> Owned(w, f)
    ensures PagesLost(w, WithUnmapped(w, s, FirstPage(g), EndPage(g)), g)
  {
    UnmappedLeaves(w, s, g);
    UnmappedFrames(w, s, g);
  }

  lemma UnmappedLeaves(w: World, s: Stock, g: Region)
    requires Released(X86, StockOf(w), s, FirstPage(g), EndPage(g), w.pages)
    ensures s.tree == w.tree && |s.free| == |w.free| + g.length / 4096
    ensures forall n :: LeafWord(X86, s.mem, s.tree, n) == if HasPage(g, n) then 0 else LeafWord(X86, w.mem, w.tree, n)
  {
    assert Open(0);
  }

  lemma UnmappedFrames(w: World, s: Stock, g: Region)
    requires Released(X86, StockOf(w), s, FirstPage(g), EndPage(g), w.pages)
    requires Live(StockOf(w), w.pages, w.bits, 0, 0)
    ensures forall f :: f in Drop(w.pages, FirstPage(g), EndPage(g)).pageOf ==>
              f in w.mem && f in s.mem && s.mem[f] == w.mem[f]
  {
    assert Open(0);
    forall f | f in Drop(w.pages, FirstPage(g), EndPage(g)).pageOf
      ensures f in w.mem && f in s.mem && s.mem[f] == w.mem[f]
    {
      assert Reclaimable(X86, StockOf(w), f);
    }
  }

  // ---- the node of the region ----

  /** The slab object at `node` is free again, and nothing else of interest happened. */
  ghost predicate NodeLost(a: World, b: World, node: nat) {
    && b == a.(mem := b.mem, slabs := b.slabs, free := b.free) && b.free == a.free
    && SameLeaves(X86, a.mem, a.tree, b.mem, b.tree)
    && (forall f :: Owned(b, f) <==> Owned(a, f))
    && (forall f :: f in a.pages.pageOf && f in a.mem ==> f in b.mem && b.mem[f] == a.mem[f])
    && (forall f :: f in a.slabs.info ==> f in b.slabs.info && b.slabs.info[f].place == a.slabs.info[f].place)
    && (forall f, x :: LiveAt(b.slabs, f, x) <==> LiveAt(a.slabs, f, x) && !IsAt(node, f, x))
    && (forall f, x {:trigger LiveAt(b.slabs, f, x)} :: LiveAt(b.slabs, f, x) ==>
          SameWords(a.mem, b.mem, f, x, Units(a.slabs.info[f].place.cls)))
  }

  /** `NodeLost`, folded. */
  ghost predicate Unnoded(a: World, b: World, node: nat) {
    && b == a.(mem := b.mem, slabs := b.slabs, free := b.free)
    && forall k {:trigger Open(k)} :: Open(k) ==> NodeLost(a, b, node)
  }

  lemma IsUnnoded(a: World, b: World, node: nat)
    requires NodeLost(a, b, node)
    ensures Unnoded(a, b, node)
  {
  }

  /** `slab_dealloc` of a node that is no longer in the list. */
  method FreeNode(r0: Ram, node: nat, ghost root: nat, ghost caches: seq<nat>, ghost khead: Option<nat>,
                  ghost w0: World, ghost rs: seq<Region>)
    returns (r: Ram, ghost w: World)
    requires WorldOk(r0, root, caches, w0) && NodeObj(w0.slabs, node) && node != 0
    requires ListAt(r0.mem, khead, rs) && NodesHeld(w0.slabs, rs) && NotANode(rs, node)
    ensures WorldOk(r, root, caches, w) && Unnoded(w0, w, node)
    ensures ListAt(r.mem, khead, rs) && NodesHeld(w.slabs, rs)
  {
    ghost var d;
    r, d := Dealloc(r0, node, caches, DepotOf(w0));
    w := WithDepot(w0, d);
    ReturnStep(r0, root, caches, w0, r, d, node, w);
    ReturnList(r0, root, caches, w0, r, d, node, khead, rs);
  }

  lemma AfterReturn(w: World, d: Depot, node: nat)
    requires Returned(DepotOf(w), d, node) && node % 8 == 0
    ensures SlabsGrow(DepotOf(w), d) && ObjectsKept(DepotOf(w), d) && d.free == w.free
    ensures forall f, x :: LiveAt(d.slabs, f, x) <==> LiveAt(w.slabs, f, x) && !IsAt(node, f, x)
    ensures forall f, x {:trigger LiveAt(d.slabs, f, x)} :: LiveAt(d.slabs, f, x) ==>
              SameWords(w.mem, d.mem, f, x, Units(w.slabs.info[f].place.cls))
  {
    assert Open(0);
    Parts(node);
    forall f, x | LiveAt(w.slabs, f, x)
      ensures Address(f, x) == node <==> IsAt(node, f, x)
    {
      AddressParts(f, x);
    }
  }

  lemma ReturnStep(r: Ram, root: nat, caches: seq<nat>, w: World, r': Ram, d: Depot, node: nat, w': World)
    requires WorldOk(r, root, caches, w) && Depots(r', caches, d) && Returned(DepotOf(w), d, node)
    requires w' == WithDepot(w, d) && node % 8 == 0
    ensures WorldOk(r', root, caches, w') && Unnoded(w, w', node)
  {
    AfterReturn(w, d, node);
    SlabStep(r, root, caches, w, r', d);
    IsUnnoded(w, w', node);
  }

  lemma ReturnList(r: Ram, root: nat, caches: seq<nat>, w: World, r': Ram, d: Depot, node: nat,
                   khead: Option<nat>, rs: seq<Region>)
    requires WorldOk(r, root, caches, w) && Depots(r', caches, d) && Returned(DepotOf(w), d, node)
    requires ListAt(r.mem, khead, rs) && NodesHeld(w.slabs, rs) && NotANode(rs, node) && node % 8 == 0
    ensures ListAt(r'.mem, khead, rs) && NodesHeld(d.slabs, rs)
  {
    assert r'.mem == d.mem && w.mem == r.mem by { assert Open(0); }
    AfterReturn(w, d, node);
    forall i | 0 <= i < |rs|
      ensures NodeObj(d.slabs, rs[i].node)
      ensures SameWords(w.mem, d.mem, rs[i].node / 4096, rs[i].node % 4096 / 8, 8)
    {
      assert NodeObj(w.slabs, rs[i].node);
      Parts(rs[i].node);
      Parts(node);
      assert LiveAt(d.slabs, rs[i].node / 4096, rs[i].node % 4096 / 8);
    }
    ListKept(w.slabs, r.mem, r'.mem, khead, rs);
  }

  // ---- vmm_dealloc ----

  /** The object at `node` was given back; every other object but the one at `prev` is as before. */
  ghost predicate ObjectsLost(a: World, b: World, node: nat, prev: nat) {
    && (forall f, x :: LiveAt(b.slabs, f, x) <==> LiveAt(a.slabs, f, x) && !IsAt(node, f, x))
    && (forall f, x {:trigger LiveAt(b.slabs, f, x)} :: LiveAt(b.slabs, f, x) && Address(f, x) != prev ==>
          SameWords(a.mem, b.mem, f, x, Units(a.slabs.info[f].place.cls)))
  }

  /** All of what `vmm_dealloc` did for region `g`, whose node followed the one at `prev`.  Folded. */
  ghost predicate Lost(a: World, b: World, g: Region, prev: nat) {
    forall k {:trigger Open(k)} :: Open(k) ==> PagesLost(a, b, g) && ObjectsLost(a, b, g.node, prev)
  }

  lemma ComposeFree(w0: World, w1: World, w2: World, w3: World, g: Region, prev: nat)
    requires Unpaged(w0, w1, g) && Separate(w1) && Quiet(w1, w2, {prev}) && Unnoded(w2, w3, g.node)
    requires forall f :: f in w1.pages.pageOf ==> f in w1.mem
    requires forall f, x :: LiveAt(w0.slabs, f, x) ==> f in w0.mem
    ensures Lost(w0, w3, g, prev)
  {
    FreePages(w0, w1, w2, w3, g, prev);
    FreeObjects(w0, w1, w2, w3, g, prev);
  }

  lemma FreePages(w0: World, w1: World, w2: World, w3: World, g: Region, prev: nat)
    requires Unpaged(w0, w1, g) && Separate(w1) && Quiet(w1, w2, {prev}) && Unnoded(w2, w3, g.node)
    requires forall f :: f in w1.pages.pageOf ==> f in w1.mem
    ensures PagesLost(w0, w3, g)
  {
    assert Open(0);
  }

  lemma FreeObjects(w0: World, w1: World, w2: World, w3: World, g: Region, prev: nat)
    requires Unpaged(w0, w1, g) && Quiet(w1, w2, {prev}) && Unnoded(w2, w3, g.node)
    requires forall f, x :: LiveAt(w0.slabs, f, x) ==> f in w0.mem
    ensures ObjectsLost(w0, w3, g.node, prev)
  {
    assert Open(0);
    forall f, x | LiveAt(w3.slabs, f, x) && Address(f, x) != prev
      ensures SameWords(w0.mem, w3.mem, f, x, Units(w0.slabs.info[f].place.cls))
    {
      assert LiveAt(w2.slabs, f, x) && LiveAt(w1.slabs, f, x) && LiveAt(w0.slabs, f, x);
      assert SameWords(w1.mem, w2.mem, f, x, Units(w0.slabs.info[f].place.cls));
      assert SameWords(w2.mem, w3.mem, f, x, Units(w0.slabs.info[f].place.cls));
    }
  }

  /** The body of the loop once the region was found: unmap, unlink, free the node. */
  method FreeRegion(r0: Ram, root: nat, khead: Option<nat>, prev: Option<nat>, current: nat,
                    ghost caches: seq<nat>, ghost w0: World, ghost rs0: seq<Region>, ghost win: nat, ghost k: nat)
    returns (r: Ram, head: Option<nat>, ghost w: World)
    requires KernelOk(r0, root, caches, khead, w0, rs0, win) && 0 < k < |rs0| - 1
    requires prev == Some(rs0[k - 1].node) && current == rs0[k].node
    ensures KernelOk(r, root, caches, head, w, Remove(rs0, k), win) && head == khead
    ensures Lost(w0, w, rs0[k], rs0[k - 1].node)
  {
    assert ListAt(r0.mem, khead, rs0) && NodesHeld(w0.slabs, rs0) && Backed(w0, rs0) by { assert Open(0); }
    ghost var g, rs := rs0[k], Remove(rs0, k);
    assert NodeAt(r0.mem, rs0, k);
    PagesAreBacked(w0, rs0, win, k);
    r, w := UnmapOld(r0, root, g, Field(r0.mem, current, 2), Field(r0.mem, current, 3), caches, w0);
    ghost var r1, w1 := r, w;
    ListThroughUnmap(r0, r1, root, caches, khead, w0, w1, rs0, g);
    head := khead;
    if prev.Some? {
      NodesInMemory(r, root, caches, w1, rs0, k - 1, g);
      r, w := UnlinkNode(r, prev.value, current, root, caches, w1, khead, rs0, k);
    } else {
      head := NextOf(r.mem, current);
    }
    ghost var w2 := w;
    NodesHeldRemoved(r, root, caches, w1.slabs, w2, rs0, k);
    r, w := FreeNode(r, current, root, caches, khead, w2, rs);
    FreedFacts(r0, r1, root, caches, w0, w1);
    ComposeFree(w0, w1, w2, w, g, prev.value);
    FreedOk(r, root, caches, khead, w0, w, rs0, rs, win, k);
  }

  lemma FreedOk(r: Ram, root: nat, caches: seq<nat>, khead: Option<nat>, w0: World, w: World,
                rs0: seq<Region>, rs: seq<Region>, win: nat, k: nat)
    requires Ordered(rs0) && Windowed(rs0, win) && Backed(w0, rs0) && 0 < k < |rs0| - 1 && rs == Remove(rs0, k)
    requires WorldOk(r, root, caches, w) && Lost(w0, w, rs0[k], rs0[k - 1].node)
    requires ListAt(r.mem, khead, rs) && NodesHeld(w.slabs, rs)
    ensures KernelOk(r, root, caches, khead, w, rs, win)
  {
    RemoveKeepsOrder(rs0, k);
    assert PagesLost(w0, w, rs0[k]) by { assert Open(0); }
    BackedRemoved(w0, rs0, win, k, w);
  }

  lemma PagesAreBacked(w: World, rs: seq<Region>, win: nat, k: nat)
    requires Ordered(rs) && Windowed(rs, win) && Backed(w, rs) && 0 < k < |rs| - 1
    ensures Whole(rs[k]) && EndPage(rs[k]) <= PAGES
    ensures forall n :: HasPage(rs[k], n) ==> n in w.pages.frameOf
  {
    InnerPages(rs, win, k);
    forall n | HasPage(rs[k], n)
      ensures n in w.pages.frameOf
    {
      assert Claimed(rs, n);
    }
  }

  lemma ListThroughUnmap(r0: Ram, r: Ram, root: nat, caches: seq<nat>, khead: Option<nat>, w0: World, w: World,
                         rs: seq<Region>, g: Region)
    requires WorldOk(r0, root, caches, w0) && WorldOk(r, root, caches, w) && Unpaged(w0, w, g)
    requires ListAt(r0.mem, khead, rs) && NodesHeld(w0.slabs, rs)
    ensures ListAt(r.mem, khead, rs) && NodesHeld(w.slabs, rs)
  {
    assert SlabPagesSame(w0, w) && w.mem == r.mem && w0.mem == r0.mem by { assert Open(0); }
    NodePagesSame(r0, root, caches, w0, w, rs);
    ListKept(w0.slabs, r0.mem, r.mem, khead, rs);
  }

  lemma NodesHeldRemoved(r: Ram, root: nat, caches: seq<nat>, s: Slabs, w: World, rs: seq<Region>, k: nat)
    requires NodesHeld(s, rs) && 0 < k < |rs| && w.slabs == s && WorldOk(r, root, caches, w)
    ensures NodesHeld(s, Remove(rs, k)) && NotANode(Remove(rs, k), rs[k].node)
    ensures NodeObj(s, rs[k].node) && rs[k].node != 0
  {
    var rs' := Remove(rs, k);
    forall i | 0 <= i < |rs'|
      ensures NodeObj(s, rs'[i].node) && rs'[i].node != rs[k].node
    {
      var j := if i < k then i else i + 1;
      assert rs'[i] == rs[j] && NodeObj(s, rs[j].node);
    }
    assert NodeObj(s, rs[k].node);
    SlabAt(r, caches, DepotOf(w), rs[k].node / 4096);
  }

  lemma FreedFacts(r0: Ram, r1: Ram, root: nat, caches: seq<nat>, w0: World, w1: World)
    requires WorldOk(r0, root, caches, w0) && WorldOk(r1, root, caches, w1)
    ensures forall f :: f in w1.pages.pageOf ==> f in w1.mem
    ensures forall f, x :: LiveAt(w0.slabs, f, x) ==> f in w0.mem
  {
    assert Open(0);
    forall f, x | LiveAt(w0.slabs, f, x)
      ensures f in w0.mem
    {
      assert PageOk(w0.mem, w0.slabs, f);
    }
  }

  /** `vmm_dealloc` took region `k` out of the list and gave its pages back. */
  ghost predicate RegionTakenOut(w0: World, w: World, rs0: seq<Region>, rs: seq<Region>, k: nat) {
    && 0 < k < |rs0| - 1 && rs == Remove(rs0, k)
    && Lost(w0, w, rs0[k], rs0[k - 1].node)
  }

  /**
   Frees the region that starts at `base`; a null pointer, or one no region starts at, is ignored.
   The direct map and the kernel image must not be freed.
   */
  method VmmDealloc(r0: Ram, root: nat, khead: Option<nat>, base: nat,
                    ghost caches: seq<nat>, ghost w0: World, ghost rs0: seq<Region>, ghost win: nat)
    returns (r: Ram, head: Option<nat>, ghost w: World, ghost rs: seq<Region>, ghost k: nat)
    requires KernelOk(r0, root, caches, khead, w0, rs0, win)
    requires base == 0 || (base != rs0[0].base && base != rs0[|rs0| - 1].base)
    ensures KernelOk(r, root, caches, head, w, rs, win) && head == khead
    ensures (base == 0 || forall i :: 0 <= i < |rs0| ==> rs0[i].base != base) ==> r == r0 && w == w0 && rs == rs0
    ensures base != 0 && (exists i :: 0 <= i < |rs0| && rs0[i].base == base) ==>
              RegionTakenOut(w0, w, rs0, rs, k) && rs0[k].base == base
  {
    k := 0;
    r, head, w, rs := r0, khead, w0, rs0;
    if base == 0 {
      return;
    }
    assert ListAt(r0.mem, khead, rs0) by { assert Open(0); }
    var prev, cur := None, khead;
    while cur.Some?
      invariant k <= |rs0| && cur == NodeFrom(rs0, k)
      invariant prev == if k == 0 then None else NodeFrom(rs0, k - 1)
      invariant forall i :: 0 <= i < k ==> rs0[i].base != base
      decreases |rs0| - k
    {
      assert NodeAt(r0.mem, rs0, k);
      var current := cur.value;
      if Field(r0.mem, current, 2) == base {
        r, head, w := FreeRegion(r0, root, khead, prev, current, caches, w0, rs0, win, k);
        rs := Remove(rs0, k);
        return;
      } else {
        prev := cur;
        cur := NextOf(r0.mem, current);
        k := k + 1;
      }
    }
  }

  // ---- vmm_alloc, then vmm_dealloc of the result ----

  /** A list with the inserted region taken out again is the list before. */
  lemma InsertRemove(rs: seq<Region>, at: nat, g: Region)
    requires at + 1 < |rs|
    ensures Remove(Insert(rs, at, g), at + 1) == rs
  {
  }

  /**
   Freeing what was just allocated restores the region list, every translation, the backing of every
   other page and the set of live slab objects; the pool is short by the new tables and, if the node
   needed one, a slab page.
   */
  lemma RoundTrip(w0: World, w1: World, w2: World, rs0: seq<Region>, rs1: seq<Region>, rs2: seq<Region>, win: nat,
                  at: nat, k: nat, amount: nat, flags: VmmFlags, base: nat, n: nat)
    requires Ordered(rs0) && Windowed(rs0, win) && Ordered(rs1) && Backed(w0, rs0)
    requires RegionAdded(w0, w1, rs0, rs1, at, amount, flags, base)
    requires RegionTakenOut(w1, w2, rs1, rs2, k) && rs1[k].base == base
    ensures rs2 == rs0
    ensures LeafWord(X86, w2.mem, w2.tree, n) == LeafWord(X86, w0.mem, w0.tree, n)
    ensures n in w2.pages.frameOf <==> n in w0.pages.frameOf
    ensures n in w0.pages.frameOf ==> w2.pages.frameOf[n] == w0.pages.frameOf[n]
    ensures forall f :: Owned(w2, f) <==> Owned(w0, f)
    ensures |w2.free| + (|w2.tree.nodes| - |w0.tree.nodes|) + NodeCost(w0) == |w0.free|
  {
    assert k == at + 1 by {
      assert rs1[at + 1].base == base;
      if k < at + 1 {
        InOrder(rs1, k, at + 1);
      } else if k > at + 1 {
        InOrder(rs1, at + 1, k);
      }
    }
    var g := rs1[at + 1];
    InsertRemove(rs0, at, g);
    assert PagesGained(w0, w1, g) && PagesLost(w1, w2, g) by { assert Open(0); }
    if HasPage(g, n) {
      GapUnclaimed(rs0, win, at, g, n);
    }
  }

  /** The same for slab objects: which are live, and what those other than the neighbour's node hold. */
  lemma RoundTripObjects(w0: World, w1: World, w2: World, g: Region, prev: nat, f: nat, x: nat)
    requires Gained(w0, w1, g, prev) && Lost(w1, w2, g, prev)
    ensures LiveAt(w2.slabs, f, x) <==> LiveAt(w0.slabs, f, x)
    ensures LiveAt(w0.slabs, f, x) && Address(f, x) != prev ==>
              SameWords(w0.mem, w2.mem, f, x, Units(w0.slabs.info[f].place.cls))
  {
    assert Open(0);
    assert LiveAt(w1.slabs, f, x) <==> LiveAt(w0.slabs, f, x) || IsAt(g.node, f, x);
  }
}
