/** `vmm_alloc` and `vmm_dealloc`: the region list, the tables, the slabs and the pool at work together. */
module Vmm {
  import opened Memory
  import opened PhysicalMemory
  import opened TableTree
  import opened PageTables
  import opened X86Entries
  import opened X86Paging
  import opened RegionMapping
  import opened X86Regions
  import opened SlabPages
  import opened Slabs
  import opened SlabAlloc
  import opened RegionList
  import opened Ownership
  import opened RegionNodes
  import opened AddressSpace

  /** The list is in memory, its nodes are live objects, its regions are mapped. */
  ghost predicate ListOk(mem: Mem, khead: Option<nat>, w: World, rs: seq<Region>) {
    |rs| >= 2 && ListAt(mem, khead, rs) && NodesHeld(w.slabs, rs) && Backed(w, rs)
  }

  /** The invariant of the memory stack. */
  ghost predicate KernelOk(r: Ram, root: nat, caches: seq<nat>, khead: Option<nat>, w: World, rs: seq<Region>,
                           win: nat) {
    && WorldOk(r, root, caches, w) && Ordered(rs) && Windowed(rs, win)
    && forall k {:trigger Open(k)} :: Open(k) ==> ListOk(r.mem, khead, w, rs)
  }

  // ---- the node of a new region ----

  /** `slab_alloc` for a node: the list is not disturbed, and the new object is none of its nodes. */
  method NewNode(r0: Ram, caches: seq<nat>, ghost root: nat, ghost khead: Option<nat>,
                 ghost w0: World, ghost rs: seq<Region>)
    returns (node: nat, r: Ram, ghost w: World)
    requires WorldOk(r0, root, caches, w0) && |caches| == CLASSES
    requires ListAt(r0.mem, khead, rs) && NodesHeld(w0.slabs, rs)
    requires HasRoom(w0.slabs, NODE_CLASS) || w0.free != {}
    ensures WorldOk(r, root, caches, w)
    ensures ListAt(r.mem, khead, rs) && NodesHeld(w.slabs, rs) && NodeObj(w.slabs, node) && NotANode(rs, node)
    ensures Noded(w0, w, node)
    ensures |w.free| == |w0.free| - (if HasRoom(w0.slabs, NODE_CLASS) then 0 else 1)
  {
    var res;
    ghost var d;
    res, r, d := Alloc(r0, caches, NODE_BYTES, DepotOf(w0));
    node := res.value;
    w := WithDepot(w0, d);
    AllotStep(r0, root, caches, w0, r, d, NODE_CLASS, node, w);
    AllotList(r0, root, caches, w0, r, d, NODE_CLASS, node, khead, rs);
  }

  lemma AllotStep(r: Ram, root: nat, caches: seq<nat>, w: World, r': Ram, d: Depot, c: nat, node: nat, w': World)
    requires WorldOk(r, root, caches, w) && Depots(r', caches, d) && Allotted(DepotOf(w), d, c, node)
    requires w' == WithDepot(w, d)
    ensures WorldOk(r', root, caches, w') && Noded(w, w', node) && ObjectOf(w'.slabs, node, c)
  {
    assert forall f :: f in w.free ==> f !in w.pages.pageOf by { assert Open(0); }
    AfterAllot(w, d, c, node);
    SlabStep(r, root, caches, w, r', d);
    IsNoded(w, w', node);
  }

  lemma AllotList(r: Ram, root: nat, caches: seq<nat>, w: World, r': Ram, d: Depot, c: nat, node: nat,
                  khead: Option<nat>, rs: seq<Region>)
    requires WorldOk(r, root, caches, w) && Depots(r', caches, d) && Allotted(DepotOf(w), d, c, node)
    requires ListAt(r.mem, khead, rs) && NodesHeld(w.slabs, rs)
    ensures ListAt(r'.mem, khead, rs) && NodesHeld(d.slabs, rs) && NotANode(rs, node)
  {
    assert r'.mem == d.mem && w.mem == r.mem && forall f :: f in w.free ==> f !in w.pages.pageOf by {
      assert Open(0);
    }
    AfterAllot(w, d, c, node);
    NodesStay(w, d, c, node, rs);
    ListKept(w.slabs, r.mem, r'.mem, khead, rs);
  }

  predicate IsAt(a: nat, f: nat, x: nat) {
    f == a / 4096 && x == a % 4096 / 8
  }

  /** A slab object at `node` is live now, and nothing else of interest happened. */
  ghost predicate NodeGained(a: World, b: World, node: nat) {
    && b == a.(mem := b.mem, slabs := b.slabs, free := b.free)
    && SameLeaves(X86, a.mem, a.tree, b.mem, b.tree) && !LiveAt(a.slabs, node / 4096, node % 4096 / 8)
    && (forall f :: Owned(b, f) <==> Owned(a, f))
    && (forall f :: f in a.pages.pageOf && f in a.mem ==> f in b.mem && b.mem[f] == a.mem[f])
    && (forall f :: f in a.slabs.info ==> f in b.slabs.info && b.slabs.info[f].place == a.slabs.info[f].place)
    && (forall f, x :: LiveAt(b.slabs, f, x) <==> LiveAt(a.slabs, f, x) || IsAt(node, f, x))
    && (forall f, x {:trigger LiveAt(a.slabs, f, x)} :: LiveAt(a.slabs, f, x) ==>
          SameWords(a.mem, b.mem, f, x, Units(a.slabs.info[f].place.cls)))
  }

  /** `NodeGained`, folded. */
  ghost predicate Noded(a: World, b: World, node: nat) {
    && b == a.(mem := b.mem, slabs := b.slabs, free := b.free)
    && forall k {:trigger Open(k)} :: Open(k) ==> NodeGained(a, b, node)
  }

  lemma IsNoded(a: World, b: World, node: nat)
    requires NodeGained(a, b, node)
    ensures Noded(a, b, node)
  {
  }

  lemma AfterAllot(w: World, d: Depot, c: nat, node: nat)
    requires Allotted(DepotOf(w), d, c, node) && Separate(w)
    requires forall f :: f in w.free ==> f !in w.pages.pageOf
    ensures SlabsGrow(DepotOf(w), d) && ObjectsKept(DepotOf(w), d)
    ensures ObjectOf(d.slabs, node, c) && !LiveAt(w.slabs, node / 4096, node % 4096 / 8)
    ensures forall f, x :: LiveAt(d.slabs, f, x) <==> LiveAt(w.slabs, f, x) || IsAt(node, f, x)
    ensures forall f, x {:trigger LiveAt(w.slabs, f, x)} :: LiveAt(w.slabs, f, x) ==>
              SameWords(w.mem, d.mem, f, x, Units(w.slabs.info[f].place.cls))
    ensures forall f :: f in w.pages.pageOf && f in w.mem ==> f in d.mem && d.mem[f] == w.mem[f]
  {
    assert Open(0);
    forall f, x | LiveAt(w.slabs, f, x)
      ensures SameWords(w.mem, d.mem, f, x, Units(w.slabs.info[f].place.cls))
    {
      assert LiveAt(d.slabs, f, x);
    }
  }

  lemma NodesStay(w: World, d: Depot, c: nat, node: nat, rs: seq<Region>)
    requires NodesHeld(w.slabs, rs) && SlabsGrow(DepotOf(w), d)
    requires ObjectOf(d.slabs, node, c) && !LiveAt(w.slabs, node / 4096, node % 4096 / 8)
    requires forall f, x :: LiveAt(d.slabs, f, x) <==> LiveAt(w.slabs, f, x) || IsAt(node, f, x)
    requires forall f, x {:trigger LiveAt(w.slabs, f, x)} :: LiveAt(w.slabs, f, x) ==>
               SameWords(w.mem, d.mem, f, x, Units(w.slabs.info[f].place.cls))
    ensures NodesHeld(d.slabs, rs) && NotANode(rs, node)
    ensures forall i :: 0 <= i < |rs| ==> SameWords(w.mem, d.mem, rs[i].node / 4096, rs[i].node % 4096 / 8, 8)
  {
    forall i | 0 <= i < |rs|
      ensures NodeObj(d.slabs, rs[i].node) && rs[i].node != node
      ensures SameWords(w.mem, d.mem, rs[i].node / 4096, rs[i].node % 4096 / 8, 8)
    {
      assert NodeObj(w.slabs, rs[i].node);
      assert LiveAt(w.slabs, rs[i].node / 4096, rs[i].node % 4096 / 8);
    }
  }

  // ---- the pages of a new region ----

  /** From `a` to `b` the pages of `g` were mapped to frames of their own, zeroed; nothing else was. */
  ghost predicate PagesGained(a: World, b: World, g: Region) {
    && (forall f :: Owned(b, f) <==> Owned(a, f))
    && (forall n :: n in b.pages.frameOf <==> n in a.pages.frameOf || HasPage(g, n))
    && (forall n {:trigger b.pages.frameOf[n]} :: n in a.pages.frameOf && !HasPage(g, n) ==>
          b.pages.frameOf[n] == a.pages.frameOf[n])
    && (forall n :: n in a.bits && !HasPage(g, n) ==> n in b.bits && b.bits[n] == a.bits[n])
    && (forall n :: HasPage(g, n) ==> n in b.bits && Encodes(b.bits[n], g.flags))
    && (forall n :: LeafWord(X86, b.mem, b.tree, n) ==
                    if HasPage(g, n) then LeafPte(X86, b.pages.frameOf[n], b.bits[n])
                    else LeafWord(X86, a.mem, a.tree, n))
    && (forall n {:trigger b.pages.frameOf[n]} :: HasPage(g, n) ==>
          b.pages.frameOf[n] in b.mem && b.mem[b.pages.frameOf[n]] == ZeroPage())
    && (forall f :: f in a.pages.pageOf && f in a.mem ==> f in b.mem && b.mem[f] == a.mem[f])
  }

  ghost predicate SlabPagesSame(a: World, b: World) {
    b.slabs == a.slabs && forall f :: f in a.slabs.info && f in a.mem ==> f in b.mem && b.mem[f] == a.mem[f]
  }

  /** `PagesGained` with the slabs left alone, folded. */
  ghost predicate Paged(a: World, b: World, g: Region) {
    forall k {:trigger Open(k)} :: Open(k) ==> PagesGained(a, b, g) && SlabPagesSame(a, b)
  }

  /** `arch_map_region_alloc` for the new region. */
  method MapNew(r0: Ram, root: nat, g: Region, ghost caches: seq<nat>, ghost w0: World)
    returns (r: Ram, ghost w: World)
    requires WorldOk(r0, root, caches, w0) && g.base % 4096 == 0 && g.length % 4096 == 0 && EndPage(g) <= PAGES
    requires forall n :: HasPage(g, n) ==> n !in w0.pages.frameOf
    requires Fits(StockOf(w0), FirstPage(g), EndPage(g))
    ensures WorldOk(r, root, caches, w) && Paged(w0, w, g)
    ensures |w.tree.nodes| + |w.free| + g.length / 4096 == |w0.tree.nodes| + |w0.free|
  {
    ghost var s, l, attr;
    r, s, l, attr := ArchMapRegionAlloc(r0, root, g.base, g.length, g.flags, StockOf(w0));
    w := WithMapped(w0, s, l, attr);
    MapStep(r0, root, caches, w0, r, s, FirstPage(g), EndPage(g), attr, l);
    MappedApart(r0, root, caches, w0, r, s, FirstPage(g), EndPage(g), attr, l);
    MappedPages(r0, root, caches, w0, s, g, attr, l);
    IsPaged(w0, w, g);
  }

  lemma IsPaged(a: World, b: World, g: Region)
    requires PagesGained(a, b, g) && SlabPagesSame(a, b)
    ensures Paged(a, b, g)
  {
  }

  lemma MappedPages(r: Ram, root: nat, caches: seq<nat>, w: World, s: Stock, g: Region, attr: nat, l: Backing)
    requires WorldOk(r, root, caches, w) && forall n :: HasPage(g, n) ==> n !in w.pages.frameOf
    requires Filled(X86, StockOf(w), s, FirstPage(g), EndPage(g), attr, l)
    requires Encodes(attr, g.flags) && forall f :: Owned(WithMapped(w, s, l, attr), f) <==> Owned(w, f)
    ensures PagesGained(w, WithMapped(w, s, l, attr), g)
  {
    MappedLeaves(w, s, g, attr, l);
    MappedFrames(r, root, w, s, g, attr, l);
  }

  lemma MappedLeaves(w: World, s: Stock, g: Region, attr: nat, l: Backing)
    requires forall n :: HasPage(g, n) ==> n !in w.pages.frameOf
    requires Filled(X86, StockOf(w), s, FirstPage(g), EndPage(g), attr, l)
    ensures var b := WithMapped(w, s, l, attr);
            && (forall n :: n in l.frameOf <==> HasPage(g, n))
            && (forall n {:trigger l.frameOf[n]} :: HasPage(g, n) ==>
                  l.frameOf[n] in s.mem && s.mem[l.frameOf[n]] == ZeroPage())
            && (forall n :: LeafWord(X86, b.mem, b.tree, n) ==
                    if HasPage(g, n) then LeafPte(X86, l.frameOf[n], attr)
                    else LeafWord(X86, w.mem, w.tree, n))
  {
    assert Open(0);
  }

  lemma MappedFrames(r: Ram, root: nat, w: World, s: Stock, g: Region, attr: nat, l: Backing)
    requires Tables(X86, r, root, StockOf(w)) && Live(StockOf(w), w.pages, w.bits, 0, 0)
    requires Filled(X86, StockOf(w), s, FirstPage(g), EndPage(g), attr, l)
    ensures forall f :: f in w.pages.pageOf && f in w.mem ==> f in s.mem && s.mem[f] == w.mem[f]
  {
    assert Open(0);
    forall f | f in w.pages.pageOf && f in w.mem
      ensures f in s.mem && s.mem[f] == w.mem[f]
    {
      assert Reclaimable(X86, StockOf(w), f);
    }
  }

  // ---- vmm_alloc ----

  /** The object at `node` was gained; every other object but the one at `prev` is as before. */
  ghost predicate ObjectsGained(a: World, b: World, node: nat, prev: nat) {
    && !LiveAt(a.slabs, node / 4096, node % 4096 / 8)
    && (forall f :: f in a.slabs.info ==> f in b.slabs.info && b.slabs.info[f].place == a.slabs.info[f].place)
    && (forall f, x :: LiveAt(b.slabs, f, x) <==> LiveAt(a.slabs, f, x) || IsAt(node, f, x))
    && (forall f, x {:trigger LiveAt(a.slabs, f, x)} :: LiveAt(a.slabs, f, x) && Address(f, x) != prev ==>
          SameWords(a.mem, b.mem, f, x, Units(a.slabs.info[f].place.cls)))
  }

  /** All of what `vmm_alloc` did for region `g`, whose node it linked behind the one at `prev`.  Folded. */
  ghost predicate Gained(a: World, b: World, g: Region, prev: nat) {
    forall k {:trigger Open(k)} :: Open(k) ==> PagesGained(a, b, g) && ObjectsGained(a, b, g.node, prev)
  }

  lemma Compose(w0: World, w1: World, w2: World, w3: World, g: Region, prev: nat)
    requires Noded(w0, w1, g.node) && Separate(w1) && Quiet(w1, w2, {g.node, prev}) && Paged(w2, w3, g)
    ensures Gained(w0, w3, g, prev)
  {
    ComposePages(w0, w1, w2, w3, g, prev);
    ComposeObjects(w0, w1, w2, w3, g, prev);
  }

  lemma ComposePages(w0: World, w1: World, w2: World, w3: World, g: Region, prev: nat)
    requires Noded(w0, w1, g.node) && Separate(w1) && Quiet(w1, w2, {g.node, prev}) && Paged(w2, w3, g)
    ensures PagesGained(w0, w3, g)
  {
    assert Open(0);
  }

  lemma ComposeObjects(w0: World, w1: World, w2: World, w3: World, g: Region, prev: nat)
    requires Noded(w0, w1, g.node) && Separate(w1) && Quiet(w1, w2, {g.node, prev}) && Paged(w2, w3, g)
    ensures ObjectsGained(w0, w3, g.node, prev)
  {
    assert Open(0);
    forall f, x | LiveAt(w0.slabs, f, x) && Address(f, x) != prev
      ensures SameWords(w0.mem, w3.mem, f, x, Units(w0.slabs.info[f].place.cls))
    {
      assert LiveAt(w1.slabs, f, x);
      AddressParts(f, x);
      assert SameWords(w0.mem, w1.mem, f, x, Units(w0.slabs.info[f].place.cls));
      assert SameWords(w1.mem, w2.mem, f, x, Units(w1.slabs.info[f].place.cls));
    }
  }

  /** Free frames suffice for a region: its pages, the tables they lack, and a slab page if no node is free. */
  ghost predicate Affordable(w: World, base: nat, length: nat) {
    var lo, hi := PageNumber(base), PageNumber(base) + length / 4096;
    NodeCost(w) + (hi - lo) + |WithRegion(w.tree.nodes, lo, hi)| <= |w.free| + |w.tree.nodes|
  }

  ghost function NodeCost(w: World): nat {
    if HasRoom(w.slabs, NODE_CLASS) then 0 else 1
  }

  lemma AffordsNode(w: World, base: nat, length: nat)
    requires Affordable(w, base, length)
    ensures HasRoom(w.slabs, NODE_CLASS) || w.free != {}
  {
    var lo, hi := PageNumber(base), PageNumber(base) + length / 4096;
    forall q | q in w.tree.nodes
      ensures q in WithRegion(w.tree.nodes, lo, hi)
    {
      WithRegionKeeps(w.tree.nodes, lo, hi, q);
    }
    SubsetSize(w.tree.nodes, WithRegion(w.tree.nodes, lo, hi));
  }

  /**
   Finds the first gap that fits, records the region there and backs its pages with zeroed frames.
   The frames must suffice wherever the first gap is.
   */
  method VmmAlloc(r0: Ram, root: nat, caches: seq<nat>, khead: Option<nat>, amount: nat, flags: VmmFlags,
                  ghost w0: World, ghost rs0: seq<Region>, ghost win: nat)
    returns (res: Option<nat>, r: Ram, ghost w: World, ghost rs: seq<Region>, ghost at: nat)
    requires KernelOk(r0, root, caches, khead, w0, rs0, win) && |caches| == CLASSES
    requires amount > 0 && flags.user == 0
    requires forall i :: 0 <= i < |rs0| - 1 && Qualifies(rs0, i, amount) ==>
               Affordable(w0, End(rs0[i]), AlignUp(amount))
    ensures KernelOk(r, root, caches, khead, w, rs, win)
    ensures res.None? ==> r == r0 && w == w0 && rs == rs0
    ensures res.None? <==> forall i :: 0 <= i < |rs0| - 1 ==> !Qualifies(rs0, i, amount)
    ensures res.Some? ==> RegionAdded(w0, w, rs0, rs, at, amount, flags, res.value)
  {
    assert ListAt(r0.mem, khead, rs0) && NodesHeld(w0.slabs, rs0) && Backed(w0, rs0) by { assert Open(0); }
    var cal;
    cal, at := CalculateRegionLocation(r0.mem, khead, amount, rs0);
    r, w, rs := r0, w0, rs0;
    if cal.None? {
      return None, r, w, rs, at;
    }
    assert Qualifies(rs0, at, amount);
    AffordsNode(w0, End(rs0[at]), AlignUp(amount));
    var node;
    node, r, w := NewNode(r0, caches, root, khead, w0, rs0);
    ghost var w1 := w;
    var g := Region(node, cal.value.base, AlignUp(amount), flags);
    NodesInMemory(r, root, caches, w1, rs0, at, g);
    r, w := LinkNode(r, g, cal.value.prev, cal.value.cur, root, caches, w1, khead, rs0, at);
    ghost var r2, w2 := r, w;
    RegionFits(w0, w1, w2, rs0, win, at, g, amount);
    r, w := MapNew(r, root, g, caches, w2);
    rs := Insert(rs0, at, g);
    Compose(w0, w1, w2, w, g, rs0[at].node);
    AllocatedOk(r2, r, root, caches, khead, w0, w1, w2, w, rs0, rs, win, at, g);
    res := Some(g.base);
  }

  /** `vmm_alloc` recorded a region in gap `at`, the lowest that fits, and backed it. */
  ghost predicate RegionAdded(w0: World, w: World, rs0: seq<Region>, rs: seq<Region>, at: nat,
                            amount: nat, flags: VmmFlags, base: nat) {
    && at + 1 < |rs0| && Qualifies(rs0, at, amount) && (forall i :: 0 <= i < at ==> !Qualifies(rs0, i, amount))
    && |rs| == |rs0| + 1 && rs == Insert(rs0, at, rs[at + 1])
    && rs[at + 1] == Region(rs[at + 1].node, base, AlignUp(amount), flags) && base == End(rs0[at])
    && Gained(w0, w, rs[at + 1], rs0[at].node)
    && |w.tree.nodes| + |w.free| + AlignUp(amount) / 4096 + NodeCost(w0) == |w0.tree.nodes| + |w0.free|
  }

  lemma NodesInMemory(r: Ram, root: nat, caches: seq<nat>, w: World, rs: seq<Region>, at: nat, g: Region)
    requires WorldOk(r, root, caches, w) && NodesHeld(w.slabs, rs) && at < |rs| && NodeObj(w.slabs, g.node)
    ensures g.node / 4096 in r.mem && rs[at].node / 4096 in r.mem
  {
    assert NodeObj(w.slabs, rs[at].node);
    SlabAt(r, caches, DepotOf(w), g.node / 4096);
    SlabAt(r, caches, DepotOf(w), rs[at].node / 4096);
  }

  lemma RegionFits(w0: World, w1: World, w2: World, rs: seq<Region>, win: nat, at: nat, g: Region, amount: nat)
    requires Ordered(rs) && Windowed(rs, win) && at + 1 < |rs| && Qualifies(rs, at, amount) && amount > 0
    requires g.base == End(rs[at]) && g.length == AlignUp(amount) && Backed(w0, rs)
    requires w1.tree == w0.tree && w2.tree == w0.tree && w2.pages == w0.pages && w2.free == w1.free
    requires |w1.free| == |w0.free| - NodeCost(w0) && Affordable(w0, g.base, g.length)
    ensures Ordered(Insert(rs, at, g)) && g.base % 4096 == 0 && EndPage(g) <= PAGES
    ensures forall n :: HasPage(g, n) ==> n !in w2.pages.frameOf
    ensures Fits(StockOf(w2), FirstPage(g), EndPage(g))
  {
    assert g == RegionBehind(rs, at, g.node, amount, g.flags);
    InsertKeepsOrder(rs, at, g.node, amount, g.flags);
    var rs' := Insert(rs, at, g);
    assert Whole(rs'[at + 1]);
    assert rs'[at + 1] == g && rs'[0] == rs[0] && rs'[|rs'| - 1] == rs[|rs| - 1];
    InnerPages(rs', win, at + 1);
    forall n | HasPage(g, n)
      ensures n !in w2.pages.frameOf
    {
      GapUnclaimed(rs, win, at, g, n);
    }
  }

  lemma AllocatedOk(r2: Ram, r: Ram, root: nat, caches: seq<nat>, khead: Option<nat>,
                    w0: World, w1: World, w2: World, w: World,
                    rs0: seq<Region>, rs: seq<Region>, win: nat, at: nat, g: Region)
    requires WorldOk(r2, root, caches, w2) && WorldOk(r, root, caches, w) && Ordered(rs0) && Windowed(rs0, win)
    requires at + 1 < |rs0| && rs == Insert(rs0, at, g) && Ordered(rs) && ListAt(r2.mem, khead, rs)
    requires NodesHeld(w1.slabs, rs0) && NodeObj(w1.slabs, g.node) && NotANode(rs0, g.node) && w2.slabs == w1.slabs
    requires Backed(w0, rs0) && Gained(w0, w, g, rs0[at].node) && Paged(w2, w, g)
    ensures KernelOk(r, root, caches, khead, w, rs, win)
  {
    assert PagesGained(w0, w, g) && SlabPagesSame(w2, w) && w.mem == r.mem && w2.mem == r2.mem by { assert Open(0); }
    BackedInserted(w0, rs0, win, at, g, w);
    NodesHeldInserted(w1.slabs, rs0, at, g);
    NodePagesSame(r2, root, caches, w2, w, rs);
    ListKept(w2.slabs, r2.mem, r.mem, khead, rs);
  }

  lemma NodesHeldInserted(s: Slabs, rs: seq<Region>, at: nat, g: Region)
    requires NodesHeld(s, rs) && NodeObj(s, g.node) && NotANode(rs, g.node) && at + 1 < |rs|
    ensures NodesHeld(s, Insert(rs, at, g))
  {
    var rs' := Insert(rs, at, g);
    forall i | 0 <= i < |rs'|
      ensures NodeObj(s, rs'[i].node)
    {
      assert i != at + 1 ==> rs'[i] == rs[if i <= at then i else i - 1];
      assert i != at + 1 ==> NodeObj(s, rs[if i <= at then i else i - 1].node);
    }
  }

  lemma NodePagesSame(r: Ram, root: nat, caches: seq<nat>, w: World, w': World, rs: seq<Region>)
    requires WorldOk(r, root, caches, w) && SlabPagesSame(w, w') && NodesHeld(w.slabs, rs)
    ensures forall i :: 0 <= i < |rs| ==> SameWords(w.mem, w'.mem, rs[i].node / 4096, rs[i].node % 4096 / 8, 8)
  {
    forall i | 0 <= i < |rs|
      ensures SameWords(w.mem, w'.mem, rs[i].node / 4096, rs[i].node % 4096 / 8, 8)
    {
      assert NodeObj(w.slabs, rs[i].node);
      SlabAt(r, caches, DepotOf(w), rs[i].node / 4096);
    }
  }
}
