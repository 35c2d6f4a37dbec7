/** The kernel's memory as one object: slab and region allocation over one pool of frames. */
module Kernel {
  import opened Memory
  import opened PhysicalMemory
  import opened TableTree
  import opened PageTables
  import opened X86Hardware
  import opened X86Entries
  import opened X86Paging
  import opened RegionMapping
  import opened X86Regions
  import opened SlabPages
  import opened Slabs
  import opened SlabAlloc
  import opened RegionList
  import opened Ownership
  import opened RegionNodes
  import opened AddressSpace
  import opened Vmm
  import opened VmmFree

  // ---- what the hardware sees ----

  /** The processor reaches `frame`, writable, executable, global, user or uncached as the region's flags ask. */
  predicate Maps(t: Translation, frame: nat, flags: VmmFlags) {
    && t.Translated? && t.frame == frame
    && t.access.write == flags.write && t.access.user == flags.user && t.access.nexec == 1 - flags.executable
    && t.access.global == flags.global
    && t.access.pwt == flags.nocache && t.access.pcd == flags.nocache && t.access.pat == 0
  }

  /**
   The processor translates every address between the direct map and the kernel image as the region
   list says: a page of a region to the frame that backs it, with the region's flags, and any other to a fault.
   */
  lemma HardwareSeesRegions(r: Ram, root: nat, caches: seq<nat>, khead: Option<nat>, w: World, rs: seq<Region>,
                            win: nat, v: nat, i: nat)
    requires KernelOk(r, root, caches, khead, w, rs, win)
    ensures 0 < i < |rs| - 1 && HasPage(rs[i], PageNumber(v)) ==>
              && PageNumber(v) in w.pages.frameOf
              && Maps(Translate(r.mem, root, v), w.pages.frameOf[PageNumber(v)], rs[i].flags)
    ensures Between(rs, PageNumber(v)) && !Claimed(rs, PageNumber(v)) ==> Translate(r.mem, root, v) == Fault
  {
    var n := PageNumber(v);
    assert TreeOk(X86, r.mem, root, w.tree) && Backed(w, rs) && w.mem == r.mem by { assert Open(0); }
    TranslateIsLeaf(r.mem, root, w.tree, v);
    if 0 < i < |rs| - 1 && HasPage(rs[i], n) {
      assert Claimed(rs, n);
      LivePage(w, n);
      LeafOfPage(w.pages.frameOf[n], w.bits[n], rs[i].flags);
    }
    assert !Present(0);
  }

  lemma LivePage(w: World, n: nat)
    requires Live(StockOf(w), w.pages, w.bits, 0, 0) && BackingOk(w.pages) && n in w.pages.frameOf
    ensures w.pages.frameOf[n] < FRAMES && n in w.bits
    ensures LeafWord(X86, w.mem, w.tree, n) == LeafPte(X86, w.pages.frameOf[n], w.bits[n])
  {
    assert Open(0);
    assert Reclaimable(X86, StockOf(w), w.pages.frameOf[n]);
  }

  lemma LeafOfPage(f: nat, attr: nat, flags: VmmFlags)
    requires f < FRAMES && Encodes(attr, flags)
    ensures Maps(LeafMeaning(LeafPte(X86, f, attr)), f, flags)
  {
    FrameOfAligned(f);
    assert LeafEntry(4096 * f, FromVmmFlags(flags)) == LeafPte(X86, f, attr) by { assert Spell(0); }
    MeaningOfLeaf(4096 * f, FromVmmFlags(flags));
    SeenMaps(4096 * f, flags);
  }

  /** The flags of a region, as `PT::from_vmmflags` passes them on. */
  lemma SeenMaps(phys: nat, flags: VmmFlags)
    ensures Maps(Seen(phys, FromVmmFlags(flags)), phys / 4096 % 0x100_0000_0000, flags)
  {
  }

  /** No two pages share a frame. */
  lemma NoFrameShared(r: Ram, root: nat, caches: seq<nat>, khead: Option<nat>, w: World, rs: seq<Region>, win: nat,
                      n: nat, m: nat)
    requires KernelOk(r, root, caches, khead, w, rs, win)
    requires n in w.pages.frameOf && m in w.pages.frameOf && n != m
    ensures w.pages.frameOf[n] != w.pages.frameOf[m]
  {
    assert w.pages.pageOf[w.pages.frameOf[n]] == n;
  }

  // ---- slab objects of other clients ----

  lemma BackedSame(w: World, w': World, rs: seq<Region>)
    requires |rs| >= 2 && Backed(w, rs) && w'.pages == w.pages && w'.bits == w.bits && w'.tree == w.tree
    requires SameLeaves(X86, w.mem, w.tree, w'.mem, w'.tree)
    ensures Backed(w', rs)
  {
  }

  lemma KernelAfterAllot(r: Ram, root: nat, caches: seq<nat>, khead: Option<nat>, w: World, rs: seq<Region>, win: nat,
                         r': Ram, d: Depot, c: nat, obj: nat, w': World)
    requires KernelOk(r, root, caches, khead, w, rs, win) && w' == WithDepot(w, d)
    requires Depots(r', caches, d) && Allotted(DepotOf(w), d, c, obj)
    ensures KernelOk(r', root, caches, khead, w', rs, win) && Noded(w, w', obj)
    ensures ObjectOf(w'.slabs, obj, c) && NotANode(rs, obj) && ZeroedObject(r'.mem, obj, c)
  {
    assert ListAt(r.mem, khead, rs) && NodesHeld(w.slabs, rs) && Backed(w, rs) by { assert Open(0); }
    AllotStep(r, root, caches, w, r', d, c, obj, w');
    AllotList(r, root, caches, w, r', d, c, obj, khead, rs);
    assert SameLeaves(X86, w.mem, w.tree, w'.mem, w'.tree) && ZeroedObject(r'.mem, obj, c) by { assert Open(0); }
    BackedSame(w, w', rs);
  }

  ghost predicate ZeroedObject(mem: Mem, obj: nat, c: nat) {
    obj / 4096 in mem && IsZero(mem[obj / 4096], obj % 4096 / 8, Units(c))
  }

  lemma KernelAfterReturn(r: Ram, root: nat, caches: seq<nat>, khead: Option<nat>, w: World, rs: seq<Region>, win: nat,
                          r': Ram, d: Depot, obj: nat, w': World)
    requires KernelOk(r, root, caches, khead, w, rs, win) && w' == WithDepot(w, d)
    requires Depots(r', caches, d) && Returned(DepotOf(w), d, obj) && obj % 8 == 0 && NotANode(rs, obj)
    ensures KernelOk(r', root, caches, khead, w', rs, win) && Unnoded(w, w', obj)
  {
    assert ListAt(r.mem, khead, rs) && NodesHeld(w.slabs, rs) && Backed(w, rs) by { assert Open(0); }
    ReturnStep(r, root, caches, w, r', d, obj, w');
    ReturnList(r, root, caches, w, r', d, obj, khead, rs);
    assert SameLeaves(X86, w.mem, w.tree, w'.mem, w'.tree) by { assert Open(0); }
    BackedSame(w, w', rs);
  }

  // ---- clients at work ----

  /** A client that writes in its own slab object disturbs nothing. */
  lemma ObjectWritten(r: Ram, root: nat, caches: seq<nat>, khead: Option<nat>, w: World, rs: seq<Region>, win: nat,
                      f: nat, x: nat, i: nat, v: nat)
    requires KernelOk(r, root, caches, khead, w, rs, win) && LiveAt(w.slabs, f, x) && NotANode(rs, Address(f, x))
    requires x <= i < x + Units(w.slabs.info[f].place.cls)
    ensures f in r.mem && i < PAGE_WORDS
    ensures KernelOk(r.(mem := SetWord(r.mem, f, i, v)), root, caches, khead,
                     w.(mem := SetWord(r.mem, f, i, v)), rs, win)
  {
    WriteStep(r, root, caches, w, f, x, i, v);
    var mem' := SetWord(r.mem, f, i, v);
    var w' := w.(mem := mem');
    assert ListAt(r.mem, khead, rs) && NodesHeld(w.slabs, rs) && Backed(w, rs) by { assert Open(0); }
    forall k | 0 <= k < |rs|
      ensures SameWords(r.mem, mem', rs[k].node / 4096, rs[k].node % 4096 / 8, 8)
    {
      assert NodeObj(w.slabs, rs[k].node);
      Parts(rs[k].node);
    }
    ListKept(w.slabs, r.mem, mem', khead, rs);
    BackedSame(w, w', rs);
  }

  /** A client that writes in a page of its own region disturbs nothing. */
  lemma PageWritten(r: Ram, root: nat, caches: seq<nat>, khead: Option<nat>, w: World, rs: seq<Region>, win: nat,
                    f: nat, i: nat, v: nat)
    requires KernelOk(r, root, caches, khead, w, rs, win) && f in w.pages.pageOf && i < PAGE_WORDS
    ensures f in r.mem
    ensures KernelOk(r.(mem := SetWord(r.mem, f, i, v)), root, caches, khead,
                     w.(mem := SetWord(r.mem, f, i, v)), rs, win)
  {
    PageIsApart(r, root, caches, w, f);
    var mem' := SetWord(r.mem, f, i, v);
    var r', w' := r.(mem := mem'), w.(mem := mem');
    PoolFrame(r, mem', w.free);
    TablesKept(r, root, StockOf(w), r', StockOf(w'));
    LiveKept(StockOf(w), StockOf(w'), w.pages, w.bits);
    DepotKept(r, caches, DepotOf(w), r', DepotOf(w'));
    assert ListAt(r.mem, khead, rs) && NodesHeld(w.slabs, rs) && Backed(w, rs) by { assert Open(0); }
    NodePagesSame(r, root, caches, w, w', rs);
    ListKept(w.slabs, r.mem, mem', khead, rs);
    BackedSame(w, w', rs);
  }

  lemma PageIsApart(r: Ram, root: nat, caches: seq<nat>, w: World, f: nat)
    requires WorldOk(r, root, caches, w) && f in w.pages.pageOf
    ensures f in r.mem && w.mem == r.mem && f !in w.free && f !in w.tree.nodeOf && f !in w.slabs.info
    ensures PoolOk(r, w.free) && r.freelist.Some? && 0 in r.mem && (forall g :: g in w.free ==> g in r.mem)
    ensures forall g :: g in w.free ==> g !in w.slabs.info
  {
    assert Open(0);
    assert Reclaimable(X86, StockOf(w), f);
    PoolFrames(r, w.free);
  }

  // ---- the allocator's operations ----

  /** `KernelOk`, folded. */
  ghost predicate Sound(r: Ram, root: nat, caches: seq<nat>, khead: Option<nat>, w: World, rs: seq<Region>, win: nat) {
    && |rs| >= 2 && |caches| == CLASSES
    && forall k {:trigger Open(k)} :: Open(k) ==> KernelOk(r, root, caches, khead, w, rs, win)
  }

  /** No frame was lost and none gained.  Folded. */
  ghost predicate Conserved(w0: World, w: World) {
    forall k {:trigger Open(k)} :: Open(k) ==> forall f :: Owned(w, f) <==> Owned(w0, f)
  }

  method ObjectAlloc(r0: Ram, root: nat, caches: seq<nat>, khead: Option<nat>, size: nat,
                     ghost w0: World, ghost rs: seq<Region>, ghost win: nat)
    returns (obj: nat, r: Ram, ghost w: World)
    requires Sound(r0, root, caches, khead, w0, rs, win) && size <= 1024
    requires HasRoom(w0.slabs, ClassFor(size)) || w0.free != {}
    ensures Sound(r, root, caches, khead, w, rs, win) && Conserved(w0, w) && Noded(w0, w, obj)
    ensures ObjectOf(w.slabs, obj, ClassFor(size)) && NotANode(rs, obj) && ZeroedObject(r.mem, obj, ClassFor(size))
  {
    assert KernelOk(r0, root, caches, khead, w0, rs, win) by { assert Open(0); }
    var res;
    ghost var d;
    res, r, d := SlabAlloc.Alloc(r0, caches, size, DepotOf(w0));
    obj := res.value;
    w := WithDepot(w0, d);
    KernelAfterAllot(r0, root, caches, khead, w0, rs, win, r, d, ClassFor(size), obj, w);
    AllotConserves(w0, w, obj);
  }

  lemma AllotConserves(w0: World, w: World, obj: nat)
    requires Noded(w0, w, obj)
    ensures Conserved(w0, w)
  {
    assert Open(0);
  }

  method ObjectFree(r0: Ram, root: nat, caches: seq<nat>, khead: Option<nat>, obj: nat,
                    ghost w0: World, ghost rs: seq<Region>, ghost win: nat)
    returns (r: Ram, ghost w: World)
    requires Sound(r0, root, caches, khead, w0, rs, win) && obj != 0
    requires obj % 8 == 0 && LiveAt(w0.slabs, obj / 4096, obj % 4096 / 8) && NotANode(rs, obj)
    ensures Sound(r, root, caches, khead, w, rs, win) && Conserved(w0, w) && Unnoded(w0, w, obj)
  {
    assert KernelOk(r0, root, caches, khead, w0, rs, win) by { assert Open(0); }
    ghost var d;
    r, d := SlabAlloc.Dealloc(r0, obj, caches, DepotOf(w0));
    w := WithDepot(w0, d);
    KernelAfterReturn(r0, root, caches, khead, w0, rs, win, r, d, obj, w);
    ReturnConserves(w0, w, obj);
  }

  lemma ReturnConserves(w0: World, w: World, obj: nat)
    requires Unnoded(w0, w, obj)
    ensures Conserved(w0, w)
  {
    assert Open(0);
  }

  /** Frames suffice for a region wherever the first gap is. */
  ghost predicate Affords(w: World, rs: seq<Region>, amount: nat) {
    forall i :: 0 <= i < |rs| - 1 && Qualifies(rs, i, amount) ==> Affordable(w, End(rs[i]), AlignUp(amount))
  }

  ghost predicate NoGap(rs: seq<Region>, amount: nat) {
    forall i :: 0 <= i < |rs| - 1 ==> !Qualifies(rs, i, amount)
  }

  /** `RegionAdded`, folded. */
  ghost predicate AddsRegion(w0: World, w: World, rs0: seq<Region>, rs: seq<Region>, at: nat,
                             amount: nat, flags: VmmFlags, base: nat) {
    forall k {:trigger Open(k)} :: Open(k) ==> RegionAdded(w0, w, rs0, rs, at, amount, flags, base)
  }

  method RegionAlloc(r0: Ram, root: nat, caches: seq<nat>, khead: Option<nat>, amount: nat, flags: VmmFlags,
                     ghost w0: World, ghost rs0: seq<Region>, ghost win: nat)
    returns (res: Option<nat>, r: Ram, ghost w: World, ghost rs: seq<Region>, ghost at: nat)
    requires Sound(r0, root, caches, khead, w0, rs0, win) && amount > 0 && flags.user == 0
    requires Affords(w0, rs0, amount)
    ensures Sound(r, root, caches, khead, w, rs, win) && Conserved(w0, w)
    ensures res.None? ==> r == r0 && w == w0 && rs == rs0
    ensures res.None? <==> NoGap(rs0, amount)
    ensures res.Some? ==> AddsRegion(w0, w, rs0, rs, at, amount, flags, res.value)
  {
    assert KernelOk(r0, root, caches, khead, w0, rs0, win) by { assert Open(0); }
    res, r, w, rs, at := VmmAlloc(r0, root, caches, khead, amount, flags, w0, rs0, win);
    if res.Some? {
      AddingConserves(w0, w, rs[at + 1], rs0[at].node);
    }
  }

  lemma AddingConserves(w0: World, w: World, g: Region, prev: nat)
    requires Gained(w0, w, g, prev)
    ensures Conserved(w0, w)
  {
    assert Open(0);
  }

  method RegionFree(r0: Ram, root: nat, caches: seq<nat>, khead: Option<nat>, base: nat,
                    ghost w0: World, ghost rs0: seq<Region>, ghost win: nat)
    returns (r: Ram, head: Option<nat>, ghost w: World, ghost rs: seq<Region>, ghost k: nat)
    requires Sound(r0, root, caches, khead, w0, rs0, win)
    requires base == 0 || (base != rs0[0].base && base != rs0[|rs0| - 1].base)
    ensures Sound(r, root, caches, head, w, rs, win) && Conserved(w0, w)
    ensures (base == 0 || forall i :: 0 <= i < |rs0| ==> rs0[i].base != base) ==>
              r == r0 && head == khead && w == w0 && rs == rs0
    ensures base != 0 && (exists i :: 0 <= i < |rs0| && rs0[i].base == base) ==>
              RegionTakenOut(w0, w, rs0, rs, k) && rs0[k].base == base
  {
    assert KernelOk(r0, root, caches, khead, w0, rs0, win) by { assert Open(0); }
    r, head, w, rs, k := VmmDealloc(r0, root, khead, base, caches, w0, rs0, win);
    if base != 0 && exists i :: 0 <= i < |rs0| && rs0[i].base == base {
      RemovalConserves(w0, w, rs0[k], rs0[k - 1].node);
    }
  }

  lemma RemovalConserves(w0: World, w: World, g: Region, prev: nat)
    requires Lost(w0, w, g, prev)
    ensures Conserved(w0, w)
  {
    assert Open(0);
  }

  /** A client writes word `i` of its object. */
  method StoreInObject(r0: Ram, root: nat, caches: seq<nat>, khead: Option<nat>, obj: nat, i: nat, v: nat,
                     ghost w0: World, ghost rs: seq<Region>, ghost win: nat)
    returns (r: Ram, ghost w: World)
    requires Sound(r0, root, caches, khead, w0, rs, win) && obj % 8 == 0 && NotANode(rs, obj)
    requires LiveAt(w0.slabs, obj / 4096, obj % 4096 / 8) && i < Units(w0.slabs.info[obj / 4096].place.cls)
    ensures Sound(r, root, caches, khead, w, rs, win) && Conserved(w0, w)
    ensures obj / 4096 in r0.mem && obj % 4096 / 8 + i < PAGE_WORDS
    ensures r == r0.(mem := SetWord(r0.mem, obj / 4096, obj % 4096 / 8 + i, v)) && w == w0.(mem := r.mem)
  {
    ghost var f, x := obj / 4096, obj % 4096 / 8;
    Parts(obj);
    assert KernelOk(r0, root, caches, khead, w0, rs, win) by { assert Open(0); }
    ObjectWritten(r0, root, caches, khead, w0, rs, win, f, x, x + i, v);
    r := r0.(mem := SetWord(r0.mem, obj / 4096, obj % 4096 / 8 + i, v));
    w := w0.(mem := r.mem);
  }

  /** A client writes at an address inside one of its regions: the store goes where the processor's walk leads. */
  method StoreInPage(r0: Ram, root: nat, caches: seq<nat>, khead: Option<nat>, virt: nat, v: nat,
                   ghost w0: World, ghost rs: seq<Region>, ghost win: nat, ghost k: nat)
    returns (r: Ram, ghost w: World)
    requires Sound(r0, root, caches, khead, w0, rs, win) && 0 < k < |rs| - 1 && HasPage(rs[k], PageNumber(virt))
    ensures Sound(r, root, caches, khead, w, rs, win) && Conserved(w0, w)
    ensures PageNumber(virt) in w0.pages.frameOf && w0.pages.frameOf[PageNumber(virt)] in r0.mem
    ensures r == r0.(mem := SetWord(r0.mem, w0.pages.frameOf[PageNumber(virt)], virt % 4096 / 8, v))
    ensures w == w0.(mem := r.mem)
  {
    assert KernelOk(r0, root, caches, khead, w0, rs, win) by { assert Open(0); }
    HardwareSeesRegions(r0, root, caches, khead, w0, rs, win, virt, k);
    var f := Translate(r0.mem, root, virt).frame;
    PageWritten(r0, root, caches, khead, w0, rs, win, f, virt % 4096 / 8, v);
    r := r0.(mem := SetWord(r0.mem, f, virt % 4096 / 8, v));
    w := w0.(mem := r.mem);
  }

  // ---- the global allocator ----

  /** `frames` are the frames with an owner.  Folded. */
  ghost predicate OwnedAre(w: World, frames: iset<nat>) {
    forall k {:trigger Open(k)} :: Open(k) ==> forall f :: Owned(w, f) <==> f in frames
  }

  lemma FramesKept(w0: World, w: World, frames: iset<nat>)
    requires OwnedAre(w0, frames) && Conserved(w0, w)
    ensures OwnedAre(w, frames)
  {
    assert Open(0);
  }

  /** `NAlloc` over `kermap`, the slab caches and the pool. */
  class MemoryStack {
    /** Memory and the global free list. */
    var ram: Ram
    var khead: Option<nat>
    const root: nat
    const caches: seq<nat>
    ghost var world: World
    ghost var regions: seq<Region>
    ghost const window: nat
    /** The frames handed over at boot. */
    ghost const frames: iset<nat>

    /** Every frame has exactly one owner, and the list, the tables, the slabs and the pool agree. */
    ghost predicate Valid()
      reads this
    {
      Sound(ram, root, caches, khead, world, regions, window) && OwnedAre(world, frames)
    }

    constructor (r: Ram, root: nat, caches: seq<nat>, khead: Option<nat>,
                 ghost w: World, ghost rs: seq<Region>, ghost win: nat)
      requires Sound(r, root, caches, khead, w, rs, win)
      ensures Valid() && world == w && regions == rs && ram == r && this.root == root
      ensures frames == iset f | Owned(w, f)
    {
      this.ram, this.khead, this.root, this.caches := r, khead, root, caches;
      world, regions, window := w, rs, win;
      frames := iset f | Owned(w, f);
    }

    /** `vmm_alloc`, for callers that ask for a region with flags of their own. */
    method VmmAlloc(amount: nat, flags: VmmFlags) returns (res: Option<nat>, ghost at: nat)
      requires Valid() && amount > 0 && flags.user == 0
      requires Affords(world, regions, amount)
      modifies this
      ensures Valid()
      ensures res.None? <==> NoGap(old(regions), amount)
      ensures res.None? ==> ram == old(ram) && world == old(world) && regions == old(regions)
      ensures res.Some? ==> AddsRegion(old(world), world, old(regions), regions, at, amount, flags, res.value)
    {
      var r;
      ghost var w, rs;
      res, r, w, rs, at := RegionAlloc(ram, root, caches, khead, amount, flags, world, regions, window);
      FramesKept(world, w, frames);
      ram, world, regions := r, w, rs;
    }

    /** `vmm_dealloc`: a null pointer, or one no region starts at, has no effect. */
    method VmmDealloc(base: nat) returns (ghost k: nat)
      requires Valid() && (base == 0 || (base != regions[0].base && base != regions[|regions| - 1].base))
      modifies this
      ensures Valid()
      ensures (base == 0 || forall i :: 0 <= i < |old(regions)| ==> old(regions)[i].base != base) ==>
                ram == old(ram) && khead == old(khead) && world == old(world) && regions == old(regions)
      ensures base != 0 && (exists i :: 0 <= i < |old(regions)| && old(regions)[i].base == base) ==>
                RegionTakenOut(old(world), world, old(regions), regions, k) && old(regions)[k].base == base
    {
      ghost var w0 := world;
      ram, khead, world, regions, k := RegionFree(ram, root, caches, khead, base, w0, regions, window);
      FramesKept(w0, world, frames);
    }

    /** Up to 1024 bytes from the slabs, more from `vmm_alloc`. */
    method Alloc(size: nat) returns (res: Option<nat>, ghost at: nat)
      requires Valid()
      requires size <= 1024 ==> HasRoom(world.slabs, ClassFor(size)) || world.free != {}
      requires size > 1024 ==> Affords(world, regions, size)
      modifies this
      ensures Valid()
      ensures size <= 1024 ==>
                && res.Some? && regions == old(regions) && Noded(old(world), world, res.value)
                && ObjectOf(world.slabs, res.value, ClassFor(size)) && NotANode(regions, res.value)
                && ZeroedObject(ram.mem, res.value, ClassFor(size))
      ensures size > 1024 ==> (res.None? <==> NoGap(old(regions), size))
      ensures size > 1024 && res.None? ==> ram == old(ram) && world == old(world) && regions == old(regions)
      ensures size > 1024 && res.Some? ==>
                AddsRegion(old(world), world, old(regions), regions, at, size, VmmFlags(1, 0, 0, 0, 0), res.value)
    {
      at := 0;
      if size <= 1024 {
        ghost var w0 := world;
        var obj;
        obj, ram, world := ObjectAlloc(ram, root, caches, khead, size, w0, regions, window);
        FramesKept(w0, world, frames);
        res := Some(obj);
      } else {
        res, at := VmmAlloc(size, VmmFlags(1, 0, 0, 0, 0));
      }
    }

    /** Gives back what `Alloc` returned for the same size; null, or an address no region starts at, has no effect. */
    method Dealloc(ptr: nat, size: nat) returns (ghost k: nat)
      requires Valid()
      requires size <= 1024 ==> ptr == 0 || Belongs(ptr)
      requires size > 1024 ==> ptr == 0 || (ptr != regions[0].base && ptr != regions[|regions| - 1].base)
      modifies this
      ensures Valid()
      ensures size <= 1024 ==> regions == old(regions)
      ensures size <= 1024 && ptr != 0 ==> Unnoded(old(world), world, ptr)
      ensures size > 1024 && ptr != 0 && (exists i :: 0 <= i < |old(regions)| && old(regions)[i].base == ptr) ==>
                RegionTakenOut(old(world), world, old(regions), regions, k) && old(regions)[k].base == ptr
      ensures ptr == 0 || (size > 1024 && forall i :: 0 <= i < |old(regions)| ==> old(regions)[i].base != ptr) ==>
                ram == old(ram) && khead == old(khead) && world == old(world) && regions == old(regions)
    {
      k := 0;
      if size <= 1024 {
        if ptr != 0 {
          ghost var w0 := world;
          ram, world := ObjectFree(ram, root, caches, khead, ptr, w0, regions, window);
          FramesKept(w0, world, frames);
        }
      } else {
        k := VmmDealloc(ptr);
      }
    }

    /** `obj` is a live slab object of a client, not a node of the region list. */
    ghost predicate Belongs(obj: nat)
      reads this
    {
      obj % 8 == 0 && LiveAt(world.slabs, obj / 4096, obj % 4096 / 8) && NotANode(regions, obj)
    }

    /** A client writes word `i` of its object. */
    method WriteObject(obj: nat, i: nat, v: nat)
      requires Valid() && Belongs(obj) && i < Units(world.slabs.info[obj / 4096].place.cls)
      modifies this`ram, this`world
      ensures Valid() && obj / 4096 in old(ram).mem && obj % 4096 / 8 + i < PAGE_WORDS
      ensures ram == old(ram).(mem := SetWord(old(ram).mem, obj / 4096, obj % 4096 / 8 + i, v))
      ensures world == old(world).(mem := ram.mem)
    {
      ghost var w0 := world;
      ram, world := StoreInObject(ram, root, caches, khead, obj, i, v, w0, regions, window);
      FramesKept(w0, world, frames);
    }

    /** A client writes the word at `virt`, in its own region `k`. */
    method WriteRegion(virt: nat, v: nat, ghost k: nat)
      requires Valid() && 0 < k < |regions| - 1 && HasPage(regions[k], PageNumber(virt))
      modifies this`ram, this`world
      ensures Valid() && PageNumber(virt) in world.pages.frameOf
      ensures world.pages.frameOf[PageNumber(virt)] in old(ram).mem
      ensures ram == old(ram).(mem := SetWord(old(ram).mem, world.pages.frameOf[PageNumber(virt)], virt % 4096 / 8, v))
      ensures world == old(world).(mem := ram.mem)
    {
      ghost var w0 := world;
      ram, world := StoreInPage(ram, root, caches, khead, virt, v, w0, regions, window, k);
      FramesKept(w0, world, frames);
    }

    /**
     What every operation keeps: each frame handed over at boot is in exactly one of the pool, the slabs, the page
     tables and the backed pages, and no other frame is in any.
     */
    lemma ExactlyOneOwner(f: nat)
      requires Valid()
      ensures One(f in world.free) + One(f in world.slabs.info) + One(f in world.tree.nodeOf)
              + One(f in world.pages.pageOf) == One(f in frames)
    {
      assert Open(0);
      if Owned(world, f) {
        OneOwner(ram, root, caches, world, f);
      }
    }
  }
}
