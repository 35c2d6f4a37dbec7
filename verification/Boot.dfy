/** How the kernel comes to its first consistent state: the page list, `init_slab`, `pt_init`, `vmm_init`. */
module Boot {
  import opened Memory
  import opened PhysicalMemory
  import opened TableTree
  import opened PageTables
  import opened X86Entries
  import opened X86Paging
  import opened RegionMapping
  import opened X86Regions
  import opened SlabPages
  import opened Slabs
  import opened SlabAlloc
  import opened RegionList
  import opened Ownership
  import opened RegionNodes
  import opened AddressSpace
  import opened Vmm
  import opened Kernel
  import opened FixedMaps

  // ---- init_slab ----

  /** The first `n` caches are set up. */
  ghost predicate CachesUpTo(mem: Mem, caches: seq<nat>, s: Slabs, n: nat) {
    && n <= CLASSES && |caches| == n && Placed(s) && PagesOk(mem, s)
    && (forall c :: 0 <= c < CLASSES ==> s.len[c] == if c < n then 1 else 0)
    && (forall c {:trigger caches[c]} :: 0 <= c < n ==> caches[c] == 4096 * s.frameOf[Place(c, 0)])
  }

  /** Frames of the first pool are free or slabs, all objects are free, and no other frame changed. */
  ghost predicate SlabsFrom(mem0: Mem, free0: set<nat>, d: Depot) {
    && (forall f :: f in free0 <==> f in d.free || f in d.slabs.info)
    && (forall f :: f in d.free ==> f !in d.slabs.info)
    && (forall f, w :: !LiveAt(d.slabs, f, w))
    && d.mem.Keys == mem0.Keys && (forall f :: f in mem0 && f !in d.slabs.info ==> d.mem[f] == mem0[f])
  }

  /** A slab for every class. */
  method InitSlab(r0: Ram, ghost free0: set<nat>)
    returns (r: Ram, caches: seq<nat>, ghost d: Depot)
    requires PoolOk(r0, free0) && r0.freelist.Some? && |free0| >= CLASSES
    ensures Depots(r, caches, d) && |caches| == CLASSES
    ensures SlabsFrom(r0.mem, free0, d) && |d.free| == |free0| - CLASSES
  {
    r, caches := r0, [];
    d := Depot(r0.mem, Slabs(map[], map[], [0, 0, 0, 0, 0, 0, 0]), free0);
    var c := 0;
    while c < CLASSES
      invariant c <= CLASSES && d.mem == r.mem && r.freelist.Some? && PoolOk(r, d.free)
      invariant CachesUpTo(r.mem, caches, d.slabs, c)
      invariant SlabsFrom(r0.mem, free0, d) && |d.free| == |free0| - c
    {
      r, caches, d := InitCache(r, caches, c, d, r0.mem, free0);
      c := c + 1;
    }
    assert Depots(r, caches, d);
  }

  /** `slabcache::init` for class `c`. */
  method InitCache(r0: Ram, caches0: seq<nat>, c: nat, ghost d0: Depot, ghost mem0: Mem, ghost free0: set<nat>)
    returns (r: Ram, caches: seq<nat>, ghost d: Depot)
    requires c < CLASSES && d0.mem == r0.mem && r0.freelist.Some? && PoolOk(r0, d0.free) && d0.free != {}
    requires CachesUpTo(r0.mem, caches0, d0.slabs, c) && SlabsFrom(mem0, free0, d0)
    ensures d.mem == r.mem && r.freelist.Some? && PoolOk(r, d.free)
    ensures CachesUpTo(r.mem, caches, d.slabs, c + 1)
    ensures SlabsFrom(mem0, free0, d) && |d.free| == |d0.free| - 1
  {
    TakePageFacts(r0, d0.free);
    var (r1, page) := TakePage(r0);
    var f := page.value;
    var pg := InitPage(f, 8 * Units(c), Units(c));
    ghost var free := Slots(Units(c), Capacity(8 * Units(c)));
    r := r1.(mem := r1.mem[f := pg]);
    caches := caches0 + [4096 * f];
    d := Depot(r.mem, AddSlab(d0.slabs, c, f, free), d0.free - {f});
    PoolFrames(r1, d.free);
    PoolFrame(r1, r.mem, d.free);
    assert r.mem == r0.mem[f := pg];
    OneMoreCache(r0.mem, caches0, d0.slabs, c, f, free, pg);
    OneMoreSlab(mem0, free0, d0, d, c, f, pg);
  }

  lemma OneMoreCache(mem: Mem, caches: seq<nat>, s: Slabs, c: nat, f: nat, free: seq<nat>, pg: Page)
    requires CachesUpTo(mem, caches, s, c) && c < CLASSES && f !in s.info
    requires SlabPage(pg, f, Units(c), free) && pg[3] == 0
    ensures CachesUpTo(mem[f := pg], caches + [4096 * f], AddSlab(s, c, f, free), c + 1)
  {
    FirstSlab(mem, s, c, f, free, pg);
    ChainGrows(s, c, f, free);
  }

  lemma OneMoreSlab(mem0: Mem, free0: set<nat>, d0: Depot, d: Depot, c: nat, f: nat, pg: Page)
    requires SlabsFrom(mem0, free0, d0) && f in d0.free && f in d0.mem && c < |d0.slabs.len|
    requires d == Depot(d0.mem[f := pg], AddSlab(d0.slabs, c, f, Slots(Units(c), Capacity(8 * Units(c)))),
                        d0.free - {f})
    ensures SlabsFrom(mem0, free0, d)
  {
    NothingLive(d0.slabs, c, f);
  }

  lemma NothingLive(s: Slabs, c: nat, f: nat)
    requires c < |s.len| && forall g, w :: !LiveAt(s, g, w)
    ensures var s' := AddSlab(s, c, f, Slots(Units(c), Capacity(8 * Units(c))));
            forall g, w :: !LiveAt(s', g, w)
  {
    var s' := AddSlab(s, c, f, Slots(Units(c), Capacity(8 * Units(c))));
    forall g, w
      ensures !LiveAt(s', g, w)
    {
      if g == f {
        if IsSlot(Units(c), w) {
          SlotsComplete(Units(c), w);
        }
      } else {
        assert !LiveAt(s, g, w);
      }
    }
  }

  // ---- the first page table ----

  /** The world before any region exists. */
  function Bare(mem: Mem, tree: Tree, slabs: Slabs, free: set<nat>): World {
    World(mem, tree, slabs, free, NoPages(), map[])
  }

  /** Takes the root table from the pool: nothing is mapped yet. */
  lemma RootTaken(r: Ram, caches: seq<nat>, d: Depot)
    requires Depots(r, caches, d) && d.free != {} && forall f :: f in d.free ==> f < FRAMES
    ensures TakePage(r).1.Some? && TakePage(r).1.value in d.free
    ensures var root := TakePage(r).1.value;
            var w := Bare(TakePage(r).0.mem, Tree({ROOT}, map[ROOT := root], map[root := ROOT]), d.slabs,
                          d.free - {root});
            && WorldOk(TakePage(r).0, root, caches, w) && (forall n :: LeafWord(X86, w.mem, w.tree, n) == 0)
            && (forall f :: Owned(w, f) <==> f in d.free || f in d.slabs.info)
  {
    assert PoolOk(r, d.free) && r.freelist.Some? && d.mem == r.mem by { assert Open(0); }
    assert forall f :: f in d.free ==> f !in d.slabs.info by { assert Open(0); }
    TakePageFacts(r, d.free);
    NewRoot(X86, r, d.free);
    var root := TakePage(r).1.value;
    DepotKept(r, caches, d, TakePage(r).0, Depot(TakePage(r).0.mem, d.slabs, d.free - {root}));
  }

  // ---- vmm_init ----

  /** `VMMRegion::new` for a region that is not linked yet. */
  method NewRegion(r0: Ram, caches: seq<nat>, base: nat, length: nat, flags: VmmFlags,
                   ghost root: nat, ghost khead: Option<nat>, ghost w0: World, ghost rs: seq<Region>)
    returns (node: nat, r: Ram, ghost w: World)
    requires WorldOk(r0, root, caches, w0) && |caches| == CLASSES && w0.free != {}
    requires ListAt(r0.mem, khead, rs) && NodesHeld(w0.slabs, rs)
    ensures WorldOk(r, root, caches, w) && NodeObj(w.slabs, node) && node / 4096 in r.mem && NotANode(rs, node)
    ensures NodesHeld(w.slabs, rs) && ListAt(r.mem, khead, rs)
    ensures NextOf(r.mem, node) == None && Field(r.mem, node, 2) == base && Field(r.mem, node, 3) == length
    ensures Field(r.mem, node, 4) == FlagWord(flags)
    ensures w.tree == w0.tree && w.pages == w0.pages && w.bits == w0.bits && |w.free| >= |w0.free| - 1
    ensures SameLeaves(X86, w0.mem, w0.tree, w.mem, w.tree) && forall f :: Owned(w, f) <==> Owned(w0, f)
  {
    node, r, w := NewNode(r0, caches, root, khead, w0, rs);
    ghost var r1, w1 := r, w;
    QuietSelf(r, root, caches, w1, {node});
    SlabAt(r, caches, DepotOf(w1), node / 4096);
    r, w := WriteNode(r, node, base, length, flags, root, caches, w1, w1, {node});
    OthersListed(w1.slabs, r1.mem, r.mem, khead, rs, node);
    NothingElse(w0, w1, w, node);
  }

  lemma OthersListed(s: Slabs, mem: Mem, mem': Mem, khead: Option<nat>, rs: seq<Region>, a: nat)
    requires ListAt(mem, khead, rs) && NodesHeld(s, rs) && NotANode(rs, a) && OthersSame(s, mem, mem', a)
    ensures ListAt(mem', khead, rs)
  {
    forall i | 0 <= i < |rs|
      ensures NodeAt(mem', rs, i)
    {
      assert NodeAt(mem, rs, i) && NodeObj(s, rs[i].node) && rs[i].node != a;
      assert SameNode(mem, mem', rs[i].node);
      NodeMoves(mem, mem', rs, i, rs, i);
    }
  }

  lemma NothingElse(w0: World, w1: World, w2: World, node: nat)
    requires Noded(w0, w1, node) && Quiet(w1, w2, {node})
    ensures SameLeaves(X86, w0.mem, w0.tree, w2.mem, w2.tree) && forall f :: Owned(w2, f) <==> Owned(w0, f)
  {
    assert Open(0);
  }

  /** The list is the direct map, writable, and the kernel image; both are executable and global. */
  predicate TwoFixed(rs: seq<Region>, kernelBase: nat, kernelSize: nat, hhdm: nat, size: nat) {
    && |rs| == 2 && rs[0].base == hhdm && rs[0].length == size && rs[0].flags == VmmFlags(1, 1, 1, 0, 0)
    && rs[1].base == kernelBase && rs[1].length == kernelSize && rs[1].flags == VmmFlags(0, 1, 1, 0, 0)
  }

  /** The list of the direct map and the kernel image. */
  method VmmInit(r0: Ram, root: nat, caches: seq<nat>, kernelBase: nat, kernelSize: nat, hhdm: nat, hhdmSize: nat,
                 ghost w0: World, ghost win: nat)
    returns (khead: Option<nat>, r: Ram, ghost w: World, ghost rs: seq<Region>)
    requires WorldOk(r0, root, caches, w0) && |caches| == CLASSES && |w0.free| >= 2 && w0.pages == NoPages()
    requires OnPages(hhdm, hhdmSize) && OnPages(kernelBase, kernelSize) && hhdm + hhdmSize + 4096 <= kernelBase
    requires win * WINDOW <= hhdm && kernelBase < (win + 1) * WINDOW
    requires forall n :: PageNumber(hhdm) + hhdmSize / 4096 <= n < PageNumber(kernelBase) ==>
               LeafWord(X86, w0.mem, w0.tree, n) == 0
    ensures KernelOk(r, root, caches, khead, w, rs, win)
    ensures TwoFixed(rs, kernelBase, kernelSize, hhdm, hhdmSize)
    ensures SameLeaves(X86, w0.mem, w0.tree, w.mem, w.tree) && forall f :: Owned(w, f) <==> Owned(w0, f)
  {
    var kflags, hflags := VmmFlags(0, 1, 1, 0, 0), VmmFlags(1, 1, 1, 0, 0);
    var k, h;
    k, r, w := NewRegion(r0, caches, kernelBase, kernelSize, kflags, root, None, w0, []);
    var kernel := Region(k, kernelBase, kernelSize, kflags);
    assert ListAt(r.mem, Some(k), [kernel]) by { assert NodeAt(r.mem, [kernel], 0); }
    ghost var w1 := w;
    h, r, w := NewRegion(r, caches, hhdm, hhdmSize, hflags, root, Some(k), w1, [kernel]);
    ghost var r2, w2 := r, w;
    QuietSelf(r, root, caches, w2, {h});
    r, w := SetNext(r, h, k, root, caches, w2, w2, {h});
    khead := Some(h);
    rs := [Region(h, hhdm, hhdmSize, hflags), kernel];
    TwoRegions(r2.mem, r.mem, w2.slabs, rs);
    FirstWorld(w0, w1, w2, w, rs, win, {h});
  }

  predicate OnPages(base: nat, length: nat) {
    base % 4096 == 0 && length % 4096 == 0 && length > 0
  }

  lemma TwoRegions(mem: Mem, mem': Mem, s: Slabs, rs: seq<Region>)
    requires |rs| == 2 && ListAt(mem, Some(rs[1].node), [rs[1]]) && NodesHeld(s, [rs[1]])
    requires NodeObj(s, rs[0].node) && NotANode([rs[1]], rs[0].node) && OthersSame(s, mem, mem', rs[0].node)
    requires Field(mem, rs[0].node, 2) == rs[0].base && Field(mem, rs[0].node, 3) == rs[0].length
    requires Field(mem, rs[0].node, 4) == FlagWord(rs[0].flags)
    requires NextOf(mem', rs[0].node) == Some(rs[1].node) && SameBody(mem, mem', rs[0].node)
    ensures ListAt(mem', Some(rs[0].node), rs) && NodesHeld(s, rs)
  {
    assert [rs[1]][0] == rs[1];
    assert NodeAt(mem, [rs[1]], 0) && NodeObj(s, [rs[1]][0].node) && [rs[1]][0].node != rs[0].node;
    assert SameNode(mem, mem', rs[1].node);
    assert NodeAt(mem', rs, 0);
    NodeMoves(mem, mem', [rs[1]], 0, rs, 1);
  }

  lemma FirstWorld(w0: World, w1: World, w2: World, w: World, rs: seq<Region>, win: nat, touched: set<nat>)
    requires |rs| == 2 && w0.pages == NoPages() && w1.pages == w0.pages && w2.pages == w0.pages && Quiet(w2, w, touched)
    requires SameLeaves(X86, w0.mem, w0.tree, w1.mem, w1.tree) && SameLeaves(X86, w1.mem, w1.tree, w2.mem, w2.tree)
    requires forall n :: Between(rs, n) ==> LeafWord(X86, w0.mem, w0.tree, n) == 0
    requires (forall f :: Owned(w1, f) <==> Owned(w0, f)) && (forall f :: Owned(w2, f) <==> Owned(w1, f))
    ensures Backed(w, rs) && (forall f :: Owned(w, f) <==> Owned(w0, f))
    ensures SameLeaves(X86, w0.mem, w0.tree, w.mem, w.tree)
  {
    assert Open(0);
    assert forall n :: !Claimed(rs, n);
  }

  // ---- all together ----

  /** Where the boot loader put the direct map and the kernel image: on pages, one below the other, in one window. */
  ghost predicate Layout(kernelBase: nat, kernelSize: nat, hhdm: nat, size: nat, win: nat) {
    && OnPages(hhdm, size) && OnPages(kernelBase, kernelSize) && hhdm + size + 4096 <= kernelBase
    && win * WINDOW <= hhdm && kernelBase < (win + 1) * WINDOW && InWindow(kernelBase, kernelSize)
  }

  /** The pages of the direct map end before those of the kernel image begin. */
  lemma RunsApart(kernelBase: nat, kernelSize: nat, hhdm: nat, size: nat, win: nat)
    requires Layout(kernelBase, kernelSize, hhdm, size, win)
    ensures PageNumber(hhdm) + size / 4096 < PageNumber(kernelBase) && InWindow(hhdm, size)
  {
    PageInWindow(hhdm, win);
    PageInWindow(kernelBase, win);
  }

  /** Tables the fixed mappings need, the root included. */
  ghost function TableCount(kernelBase: nat, kernelSize: nat, hhdm: nat, size: nat): nat {
    |BootTables(PageNumber(kernelBase), PageNumber(kernelBase) + kernelSize / 4096,
                PageNumber(hhdm), PageNumber(hhdm) + size / 4096)|
  }

  /** `init` of the page list: all usable frames but frame 0. */
  method InitPool(mem0: Mem, entries: seq<MemmapEntry>, ghost free0: set<nat>) returns (r: Ram)
    requires 0 in mem0 && WellFormedMap(entries, mem0) && free0 != {}
    requires forall f :: f in free0 <==> Usable(entries, f)
    ensures PoolOk(r, free0) && r.freelist.Some?
  {
    var pmm := new Pmm(mem0);
    pmm.Init(entries);
    r := Ram(pmm.mem, pmm.freelist);
    ListIsPool(r, pmm.free);
    assert Elems(pmm.free) == free0;
  }

  /** `pt_init`: the root table, the kernel image, the direct map. */
  method PtInit(r0: Ram, kernelBase: nat, kernelPhys: nat, kernelSize: nat, hhdm: nat, size: nat, fb: (nat, nat),
                ghost caches: seq<nat>, ghost d: Depot, ghost win: nat)
    returns (root: nat, r: Ram, ghost w: World, ghost kernel: seq<nat>, ghost direct: seq<nat>)
    requires Depots(r0, caches, d) && (forall f :: f in d.free ==> f < FRAMES)
    requires Layout(kernelBase, kernelSize, hhdm, size, win)
    requires |d.free| >= TableCount(kernelBase, kernelSize, hhdm, size) + 2
    ensures WorldOk(r, root, caches, w) && w.pages == NoPages() && |w.free| >= 2
    ensures BootLeaves(w.mem, w.tree, PageNumber(kernelBase), kernel, PageNumber(hhdm), direct)
    ensures |kernel| == kernelSize / 4096 && KernelWords(kernel, kernelPhys)
    ensures |direct| == size / 4096 && DirectWords(direct, fb)
    ensures forall f :: Owned(w, f) <==> f in d.free || f in d.slabs.info
  {
    RunsApart(kernelBase, kernelSize, hhdm, size, win);
    RootTaken(r0, caches, d);
    var (r1, page) := TakePage(r0);
    root := page.value;
    ghost var w0 := Bare(r1.mem, Tree({ROOT}, map[ROOT := root], map[root := ROOT]), d.slabs, d.free - {root});
    r, w, kernel, direct := MapBoth(r1, root, kernelBase, kernelPhys, kernelSize, hhdm, size, fb, caches, w0);
  }

  lemma LeavesStay(w0: World, w: World, klo: nat, kernel: seq<nat>, hlo: nat, direct: seq<nat>)
    requires BootLeaves(w0.mem, w0.tree, klo, kernel, hlo, direct) && SameLeaves(X86, w0.mem, w0.tree, w.mem, w.tree)
    ensures BootLeaves(w.mem, w.tree, klo, kernel, hlo, direct)
  {
  }

  /** `vmm_init` with the `pt_init` it begins with. */
  method VmmBoot(r0: Ram, caches: seq<nat>, kernelBase: nat, kernelPhys: nat, kernelSize: nat,
                 hhdm: nat, size: nat, fb: (nat, nat), ghost d: Depot, ghost win: nat)
    returns (root: nat, khead: Option<nat>, r: Ram, ghost w: World, ghost rs: seq<Region>)
    requires Depots(r0, caches, d) && |caches| == CLASSES && (forall f :: f in d.free ==> f < FRAMES)
    requires Layout(kernelBase, kernelSize, hhdm, size, win)
    requires |d.free| >= TableCount(kernelBase, kernelSize, hhdm, size) + 2
    ensures Sound(r, root, caches, khead, w, rs, win) && TwoFixed(rs, kernelBase, kernelSize, hhdm, size)
    ensures forall f :: Owned(w, f) <==> f in d.free || f in d.slabs.info
    ensures SeesFixed(r.mem, root, PageNumber(kernelBase), kernelPhys, kernelSize, PageNumber(hhdm), size, fb)
  {
    ghost var w0, kernel, direct;
    root, r, w0, kernel, direct := PtInit(r0, kernelBase, kernelPhys, kernelSize, hhdm, size, fb, caches, d, win);
    RunsApart(kernelBase, kernelSize, hhdm, size, win);
    khead, r, w, rs := VmmInit(r, root, caches, kernelBase, kernelSize, hhdm, size, w0, win);
    assert TreeOk(X86, r.mem, root, w.tree) && w.mem == r.mem by { assert Open(0); }
    LeavesStay(w0, w, PageNumber(kernelBase), kernel, PageNumber(hhdm), direct);
    FixedSeen(r.mem, root, w.tree, PageNumber(kernelBase), kernel, kernelPhys, kernelSize,
              PageNumber(hhdm), direct, size, fb);
  }

  /**
   From the boot loader's memory map to a running allocator: the page list, a slab of every class, the tables with
   the kernel image and the direct map, the region list.  The frames must suffice for the slabs and the tables.
   */
  method Start(mem0: Mem, entries: seq<MemmapEntry>, kernelBase: nat, kernelPhys: nat, kernelSize: nat, hhdm: nat,
               ghost free0: set<nat>, ghost win: nat)
    returns (stack: MemoryStack)
    requires 0 in mem0 && WellFormedMap(entries, mem0)
    requires (forall f: nat :: f in free0 <==> Usable(entries, f)) && (forall f :: f in free0 ==> f < FRAMES)
    requires Layout(kernelBase, kernelSize, hhdm, DirectSize(entries), win)
    requires |free0| >= CLASSES + TableCount(kernelBase, kernelSize, hhdm, DirectSize(entries)) + 2
    ensures fresh(stack) && stack.Valid()
    ensures TwoFixed(stack.regions, kernelBase, kernelSize, hhdm, DirectSize(entries))
    ensures forall f: nat :: f in stack.frames <==> Usable(entries, f)
    ensures SeesFixed(stack.ram.mem, stack.root, PageNumber(kernelBase), kernelPhys, kernelSize,
                      PageNumber(hhdm), DirectSize(entries), LastFramebuffer(entries))
  {
    var r := InitPool(mem0, entries, free0);
    var caches;
    ghost var d;
    r, caches, d := InitSlab(r, free0);
    var size, fb := ScanMemmap(entries);
    var root, khead;
    ghost var w, rs;
    root, khead, r, w, rs := VmmBoot(r, caches, kernelBase, kernelPhys, kernelSize, hhdm, size, fb, d, win);
    stack := new MemoryStack(r, root, caches, khead, w, rs, win);
  }
}
