/**
 The four owners of physical frames together: the pool, the slabs, the page tables, and the
 pages of live regions.
 */
module Ownership {
  import opened Memory
  import opened PhysicalMemory
  import opened TableTree
  import opened PageTables
  import opened RegionMapping
  import opened X86Regions
  import opened Slabs
  import opened SlabAlloc

  /** Memory with its owners; `pages` are the backed pages and `bits` the flag bits they were mapped with. */
  datatype World = World(mem: Mem, tree: Tree, slabs: Slabs, free: set<nat>,
                         pages: Backing, bits: map<nat, nat>)

  function StockOf(w: World): Stock {
    Stock(w.mem, w.tree, w.free)
  }

  function DepotOf(w: World): Depot {
    Depot(w.mem, w.slabs, w.free)
  }

  /** No slab lies on a table or on a backed page. */
  ghost predicate Separate(w: World) {
    forall f {:trigger f in w.slabs.info} :: f in w.slabs.info ==> f !in w.tree.nodeOf && f !in w.pages.pageOf
  }

  ghost predicate WorldOk(r: Ram, root: nat, caches: seq<nat>, w: World) {
    && Tables(X86, r, root, StockOf(w)) && Depots(r, caches, DepotOf(w))
    && Live(StockOf(w), w.pages, w.bits, 0, 0) && BackingOk(w.pages) && Separate(w)
  }

  /** `f` has an owner. */
  ghost predicate Owned(w: World, f: nat) {
    f in w.free || f in w.slabs.info || f in w.tree.nodeOf || f in w.pages.pageOf
  }

  function One(b: bool): nat {
    if b then 1 else 0
  }

  /** No frame has two owners. */
  lemma OneOwner(r: Ram, root: nat, caches: seq<nat>, w: World, f: nat)
    requires WorldOk(r, root, caches, w) && Owned(w, f)
    ensures One(f in w.free) + One(f in w.slabs.info) + One(f in w.tree.nodeOf) + One(f in w.pages.pageOf) == 1
    ensures f in r.mem
  {
    assert Open(0);
    PoolFrames(r, w.free);
    if f in w.slabs.info {
      assert PageOk(w.mem, w.slabs, f);
    }
    if f in w.tree.nodeOf {
      assert Holds(w.tree, f);
    }
    if f in w.pages.pageOf {
      assert Reclaimable(X86, StockOf(w), f);
    }
  }

  // ---- what each owner needs to stay as it is ----

  lemma TablesKept(r: Ram, root: nat, s: Stock, r': Ram, s': Stock)
    requires Tables(X86, r, root, s) && s'.tree == s.tree && s'.mem == r'.mem
    requires PoolOk(r', s'.free) && r'.freelist.Some? && forall f :: f in s'.free ==> f in s.free
    requires forall f :: f in s.tree.nodeOf && f in s.mem ==> f in s'.mem && s'.mem[f] == s.mem[f]
    ensures Tables(X86, r', root, s') && SameLeaves(X86, s.mem, s.tree, s'.mem, s'.tree)
  {
    assert Open(0);
    TreeFrame(X86, s.mem, s'.mem, root, s.tree);
  }

  lemma LiveKept(s: Stock, s': Stock, k: Backing, bits: map<nat, nat>)
    requires Live(s, k, bits, 0, 0) && s'.tree == s.tree && SameLeaves(X86, s.mem, s.tree, s'.mem, s'.tree)
    requires s'.mem.Keys == s.mem.Keys && forall f :: f in s'.free ==> f in s.free
    ensures Live(s', k, bits, 0, 0)
  {
    assert Open(0);
  }

  lemma DepotKept(r: Ram, caches: seq<nat>, d: Depot, r': Ram, d': Depot)
    requires Depots(r, caches, d) && d'.slabs == d.slabs && d'.mem == r'.mem
    requires PoolOk(r', d'.free) && r'.freelist.Some? && forall f :: f in d'.free ==> f !in d.slabs.info
    requires forall f :: f in d.slabs.info && f in d.mem ==> f in d'.mem && d'.mem[f] == d.mem[f]
    ensures Depots(r', caches, d')
  {
    assert Open(0);
    forall f | f in d.slabs.info
      ensures PageOk(d'.mem, d'.slabs, f)
    {
      assert PageOk(d.mem, d.slabs, f);
    }
  }

  // ---- slab steps ----

  function WithDepot(w: World, d: Depot): World {
    w.(mem := d.mem, slabs := d.slabs, free := d.free)
  }

  /** Taking or giving a slab object moves at most a frame from the pool to the slabs. */
  lemma SlabStep(r: Ram, root: nat, caches: seq<nat>, w: World, r': Ram, d: Depot)
    requires WorldOk(r, root, caches, w) && Depots(r', caches, d)
    requires SlabsGrow(DepotOf(w), d) && ObjectsKept(DepotOf(w), d)
    ensures WorldOk(r', root, caches, WithDepot(w, d))
    ensures SameLeaves(X86, w.mem, w.tree, d.mem, w.tree)
    ensures forall f :: Owned(WithDepot(w, d), f) <==> Owned(w, f)
  {
    var w' := WithDepot(w, d);
    assert Separate(w') && TablesApart(w, w') && PoolOk(r', d.free) && r'.freelist.Some? && d.mem == r'.mem by {
      assert Open(0);
    }
    TablesKept(r, root, StockOf(w), r', StockOf(w'));
    LiveKept(StockOf(w), StockOf(w'), w.pages, w.bits);
  }

  ghost predicate TablesApart(w: World, w': World) {
    forall f :: f in w.tree.nodeOf ==> f !in w'.slabs.info
  }

  /** A client writes a word of its own slab object. */
  lemma WriteStep(r: Ram, root: nat, caches: seq<nat>, w: World, f: nat, x: nat, i: nat, v: nat)
    requires WorldOk(r, root, caches, w) && LiveAt(w.slabs, f, x)
    requires x <= i < x + Units(w.slabs.info[f].place.cls)
    ensures f in r.mem && i < PAGE_WORDS && w.mem == r.mem
    ensures WorldOk(r.(mem := SetWord(r.mem, f, i, v)), root, caches, w.(mem := SetWord(r.mem, f, i, v)))
    ensures SameLeaves(X86, w.mem, w.tree, SetWord(r.mem, f, i, v), w.tree)
    ensures forall g, y :: LiveAt(w.slabs, g, y) && (g != f || y != x) ==>
              SameWords(r.mem, SetWord(r.mem, f, i, v), g, y, Units(w.slabs.info[g].place.cls))
  {
    ClientWrite(r, caches, DepotOf(w), f, x, i, v);
    var mem' := SetWord(r.mem, f, i, v);
    var r', w' := r.(mem := mem'), w.(mem := mem');
    assert PoolOk(r', w'.free) && r'.freelist.Some? by { assert Open(0); }
    TablesKept(r, root, StockOf(w), r', StockOf(w'));
    LiveKept(StockOf(w), StockOf(w'), w.pages, w.bits);
  }

  // ---- a region is mapped ----

  function Join(k: Backing, l: Backing): Backing {
    Backing(k.frameOf + l.frameOf, k.pageOf + l.pageOf)
  }

  lemma JoinOk(k: Backing, l: Backing)
    requires BackingOk(k) && BackingOk(l)
    requires (forall n :: n in k.frameOf ==> n !in l.frameOf) && (forall f :: f in k.pageOf ==> f !in l.pageOf)
    ensures BackingOk(Join(k, l))
  {
    var j := Join(k, l);
    forall f | f in j.pageOf
      ensures Backs(j, f)
    {
      assert f in l.pageOf ==> Backs(l, f);
      assert f in k.pageOf ==> Backs(k, f);
    }
  }

  function AllWith(l: Backing, attr: nat): map<nat, nat> {
    map n | n in l.frameOf :: attr
  }

  function WithMapped(w: World, s: Stock, l: Backing, attr: nat): World {
    World(s.mem, s.tree, w.slabs, s.free, Join(w.pages, l), w.bits + AllWith(l, attr))
  }

  /** Mapping a region of pages that were not backed moves frames from the pool to the tables and the pages. */
  lemma MapStep(r: Ram, root: nat, caches: seq<nat>, w: World, r': Ram, s: Stock,
                lo: nat, hi: nat, attr: nat, l: Backing)
    requires WorldOk(r, root, caches, w) && lo <= hi && forall n :: lo <= n < hi ==> n !in w.pages.frameOf
    requires Tables(X86, r', root, s) && Filled(X86, StockOf(w), s, lo, hi, attr, l) && FlagBits(attr)
    ensures WorldOk(r', root, caches, WithMapped(w, s, l, attr))
    ensures forall f :: Owned(WithMapped(w, s, l, attr), f) <==> Owned(w, f)
  {
    var w' := WithMapped(w, s, l, attr);
    MapFrames(r, root, caches, w, s, lo, hi, attr, l);
    MappedApart(r, root, caches, w, r', s, lo, hi, attr, l);
    assert PoolOk(r', s.free) && r'.freelist.Some? && s.mem == r'.mem by { assert Open(0); }
    JoinOk(w.pages, l);
    DepotKept(r, caches, DepotOf(w), r', DepotOf(w'));
    MappedLive(r, root, w, s, lo, hi, attr, l);
    IsLive(s, w'.pages, w'.bits);
  }

  lemma IsLive(s: Stock, k: Backing, bits: map<nat, nat>)
    requires LiveOutside(s, k, bits, 0, 0)
    ensures Live(s, k, bits, 0, 0)
  {
  }

  lemma MapFrames(r: Ram, root: nat, caches: seq<nat>, w: World, s: Stock,
                  lo: nat, hi: nat, attr: nat, l: Backing)
    requires WorldOk(r, root, caches, w) && lo <= hi && forall n :: lo <= n < hi ==> n !in w.pages.frameOf
    requires Filled(X86, StockOf(w), s, lo, hi, attr, l)
    ensures forall f :: Owned(WithMapped(w, s, l, attr), f) <==> Owned(w, f)
    ensures BackingOk(l) && (forall n :: n in w.pages.frameOf ==> n !in l.frameOf)
    ensures forall f :: f in w.pages.pageOf ==> f !in l.pageOf
  {
    assert Open(0);
  }

  lemma MappedApart(r: Ram, root: nat, caches: seq<nat>, w: World, r': Ram, s: Stock,
                    lo: nat, hi: nat, attr: nat, l: Backing)
    requires WorldOk(r, root, caches, w) && lo <= hi
    requires Filled(X86, StockOf(w), s, lo, hi, attr, l)
    ensures Separate(WithMapped(w, s, l, attr))
    ensures forall f :: f in s.free ==> f !in w.slabs.info
    ensures forall f :: f in w.slabs.info && f in w.mem ==> f in s.mem && s.mem[f] == w.mem[f]
  {
    assert Open(0);
  }

  lemma MappedLive(r: Ram, root: nat, w: World, s: Stock, lo: nat, hi: nat, attr: nat, l: Backing)
    requires Tables(X86, r, root, StockOf(w)) && Live(StockOf(w), w.pages, w.bits, 0, 0) && lo <= hi
    requires Filled(X86, StockOf(w), s, lo, hi, attr, l) && FlagBits(attr)
    requires forall n :: n in w.pages.frameOf ==> n !in l.frameOf
    ensures LiveOutside(s, Join(w.pages, l), w.bits + AllWith(l, attr), 0, 0)
  {
    var k, fs := Join(w.pages, l), w.bits + AllWith(l, attr);
    forall n | n in k.frameOf
      ensures n in fs && FlagBits(fs[n]) && LastTable(X86, n) in s.tree.frameAt
      ensures LeafWord(X86, s.mem, s.tree, n) == LeafPte(X86, k.frameOf[n], fs[n])
    {
      PageStaysLive(w, s, lo, hi, attr, l, n);
    }
    forall f | f in k.pageOf
      ensures Reclaimable(X86, s, f)
    {
      FrameStaysLive(r, root, w, s, lo, hi, attr, l, f);
    }
  }

  lemma PageStaysLive(w: World, s: Stock, lo: nat, hi: nat, attr: nat, l: Backing, n: nat)
    requires Live(StockOf(w), w.pages, w.bits, 0, 0) && lo <= hi
    requires Filled(X86, StockOf(w), s, lo, hi, attr, l) && FlagBits(attr)
    requires n in l.frameOf || n in w.pages.frameOf
    ensures var k, fs := Join(w.pages, l), w.bits + AllWith(l, attr);
            && n in fs && FlagBits(fs[n]) && LastTable(X86, n) in s.tree.frameAt
            && LeafWord(X86, s.mem, s.tree, n) == LeafPte(X86, k.frameOf[n], fs[n])
  {
    if n in l.frameOf {
      NewPageLive(StockOf(w), s, lo, hi, attr, l, n);
    } else {
      OldPageLive(w, s, lo, hi, attr, l, n);
    }
  }

  lemma NewPageLive(a: Stock, s: Stock, lo: nat, hi: nat, attr: nat, l: Backing, n: nat)
    requires lo <= hi && Filled(X86, a, s, lo, hi, attr, l) && n in l.frameOf
    ensures LastTable(X86, n) in s.tree.frameAt
    ensures LeafWord(X86, s.mem, s.tree, n) == LeafPte(X86, l.frameOf[n], attr)
  {
    assert Open(0);
  }

  lemma OldPageLive(w: World, s: Stock, lo: nat, hi: nat, attr: nat, l: Backing, n: nat)
    requires Live(StockOf(w), w.pages, w.bits, 0, 0) && lo <= hi
    requires Filled(X86, StockOf(w), s, lo, hi, attr, l)
    requires n !in l.frameOf && n in w.pages.frameOf
    ensures n in w.bits && FlagBits(w.bits[n]) && LastTable(X86, n) in s.tree.frameAt
    ensures LeafWord(X86, s.mem, s.tree, n) == LeafPte(X86, w.pages.frameOf[n], w.bits[n])
  {
    assert Open(0);
  }

  lemma FrameStaysLive(r: Ram, root: nat, w: World, s: Stock, lo: nat, hi: nat, attr: nat, l: Backing, f: nat)
    requires Tables(X86, r, root, StockOf(w)) && Live(StockOf(w), w.pages, w.bits, 0, 0) && lo <= hi
    requires Filled(X86, StockOf(w), s, lo, hi, attr, l)
    requires f in l.pageOf || f in w.pages.pageOf
    ensures Reclaimable(X86, s, f)
  {
    assert Open(0);
    PoolFrames(r, w.free);
    assert f in w.pages.pageOf ==> Reclaimable(X86, StockOf(w), f);
  }

  // ---- a region is unmapped ----

  function Drop(k: Backing, lo: nat, hi: nat): Backing {
    Backing(map n | n in k.frameOf && !(lo <= n < hi) :: k.frameOf[n],
            map f | f in k.pageOf && !(lo <= k.pageOf[f] < hi) :: k.pageOf[f])
  }

  function WithUnmapped(w: World, s: Stock, lo: nat, hi: nat): World {
    World(s.mem, s.tree, w.slabs, s.free, Drop(w.pages, lo, hi), w.bits)
  }

  /** Unmapping backed pages moves their frames back to the pool. */
  lemma UnmapStep(r: Ram, root: nat, caches: seq<nat>, w: World, r': Ram, s: Stock, lo: nat, hi: nat)
    requires WorldOk(r, root, caches, w) && lo <= hi && Tables(X86, r', root, s)
    requires Released(X86, StockOf(w), s, lo, hi, w.pages) && Live(s, w.pages, w.bits, lo, hi)
    ensures WorldOk(r', root, caches, WithUnmapped(w, s, lo, hi))
    ensures forall f :: Owned(WithUnmapped(w, s, lo, hi), f) <==> Owned(w, f)
  {
    var w' := WithUnmapped(w, s, lo, hi);
    UnmapFrames(r, root, caches, w, r', s, lo, hi);
    assert PoolOk(r', s.free) && r'.freelist.Some? && s.mem == r'.mem by { assert Open(0); }
    DepotKept(r, caches, DepotOf(w), r', DepotOf(w'));
    DropOk(w.pages, lo, hi);
    DroppedLive(s, w.pages, w.bits, lo, hi);
  }

  lemma UnmapFrames(r: Ram, root: nat, caches: seq<nat>, w: World, r': Ram, s: Stock, lo: nat, hi: nat)
    requires WorldOk(r, root, caches, w) && lo <= hi
    requires Released(X86, StockOf(w), s, lo, hi, w.pages)
    ensures Separate(WithUnmapped(w, s, lo, hi))
    ensures forall f :: Owned(WithUnmapped(w, s, lo, hi), f) <==> Owned(w, f)
    ensures forall f :: f in s.free ==> f !in w.slabs.info
    ensures forall f :: f in w.slabs.info && f in w.mem ==> f in s.mem && s.mem[f] == w.mem[f]
  {
    assert Open(0);
  }

  lemma DropOk(k: Backing, lo: nat, hi: nat)
    requires BackingOk(k)
    ensures BackingOk(Drop(k, lo, hi))
  {
    var k' := Drop(k, lo, hi);
    forall f | f in k'.pageOf
      ensures Backs(k', f)
    {
      assert Backs(k, f);
    }
  }

  lemma DroppedLive(s: Stock, k: Backing, bits: map<nat, nat>, lo: nat, hi: nat)
    requires Live(s, k, bits, lo, hi)
    ensures Live(s, Drop(k, lo, hi), bits, 0, 0)
  {
    assert Open(0);
    forall n | n in Drop(k, lo, hi).frameOf
      ensures n in bits && FlagBits(bits[n]) && LastTable(X86, n) in s.tree.frameAt
      ensures LeafWord(X86, s.mem, s.tree, n) == LeafPte(X86, Drop(k, lo, hi).frameOf[n], bits[n])
    {
      assert k.frameOf[n] == Drop(k, lo, hi).frameOf[n];
    }
  }
}
