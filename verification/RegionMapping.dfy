/**
 Mapping and unmapping a run of pages, whatever the entry format: what the loops of
 `arch_map_region_alloc` and `arch_unmap_region` add up to.
 */
module RegionMapping {
  import opened Memory
  import opened TableTree

  /** The leaf word for a frame with the flag bits `attr`. */
  function LeafPte(fmt: Format, frame: nat, attr: nat): nat {
    match fmt
    case X86 => 4096 * frame + attr
    case RiscV(_) => 1024 * frame + attr
  }

  /** Which frame backs a page, and which page a frame backs. */
  datatype Backing = Backing(frameOf: map<nat, nat>, pageOf: map<nat, nat>)

  ghost predicate Backs(k: Backing, f: nat) {
    f in k.pageOf && k.pageOf[f] in k.frameOf && k.frameOf[k.pageOf[f]] == f
  }

  /** No frame backs two pages. */
  ghost predicate BackingOk(k: Backing) {
    && (forall n {:trigger k.frameOf[n]} :: n in k.frameOf ==>
          k.frameOf[n] in k.pageOf && k.pageOf[k.frameOf[n]] == n)
    && (forall f {:trigger Backs(k, f)} :: f in k.pageOf ==> Backs(k, f))
  }

  function AddPage(k: Backing, n: nat, f: nat): Backing {
    Backing(k.frameOf[n := f], k.pageOf[f := n])
  }

  function NoPages(): Backing {
    Backing(map[], map[])
  }

  lemma AddPageOk(k: Backing, n: nat, f: nat)
    requires BackingOk(k) && n !in k.frameOf && f !in k.pageOf
    ensures BackingOk(AddPage(k, n, f))
  {
    var k' := AddPage(k, n, f);
    forall g | g in k'.pageOf
      ensures Backs(k', g)
    {
      assert g != f ==> Backs(k, g);
    }
  }

  // ---- mapping ----

  /** Pages `lo` to `hi` are mapped to their frames; every other leaf is as before. */
  ghost predicate LeavesMapped(fmt: Format, a: Stock, b: Stock, lo: nat, hi: nat, attr: nat, k: Backing)
    requires Levels(fmt) > 0
  {
    && (forall n :: n in k.frameOf <==> lo <= n < hi)
    && (forall n :: LeafWord(fmt, b.mem, b.tree, n) ==
                    if n in k.frameOf then LeafPte(fmt, k.frameOf[n], attr) else LeafWord(fmt, a.mem, a.tree, n))
    && (forall n :: n in k.frameOf ==> LastTable(fmt, n) in b.tree.frameAt)
  }

  /** The frames that left the pool are either tables now or back the pages, never both. */
  ghost predicate FramesMoved(a: Stock, b: Stock, k: Backing) {
    && (forall f :: f in b.free ==> f in a.free)
    && (forall f :: f in a.tree.nodeOf ==> f in b.tree.nodeOf)
    && (forall f :: f in b.tree.nodeOf ==> f in a.tree.nodeOf || (f in a.free && f !in b.free && f !in k.pageOf))
    && (forall f :: f in k.pageOf ==> f in a.free && f !in b.free)
    && (forall f :: f in a.free ==> f in b.free || f in b.tree.nodeOf || f in k.pageOf)
  }

  ghost predicate TreeGrown(a: Stock, b: Stock) {
    forall q :: q in a.tree.frameAt ==> q in b.tree.frameAt && b.tree.frameAt[q] == a.tree.frameAt[q]
  }

  /** Page frames hold zeros, and only they and the tables changed. */
  ghost predicate MemoryKept(a: Stock, b: Stock, k: Backing) {
    && b.mem.Keys == a.mem.Keys
    && (forall f :: f in k.pageOf ==> f in b.mem && b.mem[f] == ZeroPage())
    && (forall f :: f in a.mem && f !in b.tree.nodeOf && f !in k.pageOf ==> b.mem[f] == a.mem[f])
  }

  /** Pages `lo` to `hi` were given a zeroed frame each, and mapped with the flag bits `attr`. */
  ghost predicate RegionMapped(fmt: Format, a: Stock, b: Stock, lo: nat, hi: nat, attr: nat, k: Backing)
    requires Levels(fmt) > 0 && lo <= hi
  {
    && BackingOk(k) && FramesMoved(a, b, k) && TreeGrown(a, b) && MemoryKept(a, b, k)
    && LeavesMapped(fmt, a, b, lo, hi, attr, k)
    && |b.tree.nodes| + |b.free| + (hi - lo) == |a.tree.nodes| + |a.free|
  }

  /** `RegionMapped`, folded. */
  ghost predicate Filled(fmt: Format, a: Stock, b: Stock, lo: nat, hi: nat, attr: nat, k: Backing)
    requires Levels(fmt) > 0 && lo <= hi
  {
    && |b.tree.nodes| + |b.free| + (hi - lo) == |a.tree.nodes| + |a.free|
    && forall o {:trigger Open(o)} :: Open(o) ==> RegionMapped(fmt, a, b, lo, hi, attr, k)
  }

  /** No table lies on a free frame. */
  ghost predicate PoolApart(s: Stock) {
    forall f :: f in s.free ==> f !in s.tree.nodeOf
  }

  /** The state between allocating frame `f` for a page and mapping it. */
  function Allocated(b: Stock, f: nat): Stock {
    Stock(b.mem[f := ZeroPage()], b.tree, b.free - {f})
  }

  /** One iteration of `arch_map_region_alloc`, from `b` to `c`. */
  ghost predicate PageStep(fmt: Format, b: Stock, c: Stock, n: nat, w: nat, f: nat)
    requires Levels(fmt) > 0
  {
    && f in b.free && f in b.mem && f !in b.tree.nodeOf
    && Grown(fmt, Allocated(b, f), c, n, Levels(fmt) - 1)
    && LeafSet(fmt, Allocated(b, f), c, n, w) && LastTable(fmt, n) in c.tree.frameAt
    && SameLeaves(fmt, b.mem, b.tree, b.mem[f := ZeroPage()], b.tree)
  }

  lemma RegionStart(fmt: Format, a: Stock, lo: nat, attr: nat)
    requires Levels(fmt) > 0
    ensures RegionMapped(fmt, a, a, lo, lo, attr, NoPages())
  {
  }

  /** The invariant of `arch_map_region_alloc`'s loop. */
  lemma RegionStep(fmt: Format, a: Stock, b: Stock, c: Stock, lo: nat, n: nat, attr: nat, k: Backing, f: nat)
    requires Levels(fmt) > 0 && lo <= n
    requires RegionMapped(fmt, a, b, lo, n, attr, k)
    requires PoolApart(a)
    requires PageStep(fmt, b, c, n, LeafPte(fmt, f, attr), f)
    ensures RegionMapped(fmt, a, c, lo, n + 1, attr, AddPage(k, n, f))
  {
    AddPageOk(k, n, f);
    assert |b.free - {f}| == |b.free| - 1;
    StepFrames(fmt, a, b, c, k, n, f);
    StepMemory(fmt, a, b, c, k, n, f);
    StepLeaves(fmt, a, b, c, lo, n, attr, k, f);
  }

  lemma StepFrames(fmt: Format, a: Stock, b: Stock, c: Stock, k: Backing, n: nat, f: nat)
    requires Levels(fmt) > 0 && FramesMoved(a, b, k) && TreeGrown(a, b)
    requires f in b.free && f !in b.tree.nodeOf && Grown(fmt, Allocated(b, f), c, n, Levels(fmt) - 1)
    ensures FramesMoved(a, c, AddPage(k, n, f)) && TreeGrown(a, c)
  {
  }

  lemma StepMemory(fmt: Format, a: Stock, b: Stock, c: Stock, k: Backing, n: nat, f: nat)
    requires Levels(fmt) > 0 && MemoryKept(a, b, k) && FramesMoved(a, b, k)
    requires PoolApart(a)
    requires f in b.free && f in b.mem && f !in b.tree.nodeOf && Grown(fmt, Allocated(b, f), c, n, Levels(fmt) - 1)
    ensures MemoryKept(a, c, AddPage(k, n, f))
  {
  }

  lemma StepLeaves(fmt: Format, a: Stock, b: Stock, c: Stock, lo: nat, n: nat, attr: nat, k: Backing, f: nat)
    requires Levels(fmt) > 0 && lo <= n && LeavesMapped(fmt, a, b, lo, n, attr, k)
    requires SameLeaves(fmt, b.mem, b.tree, b.mem[f := ZeroPage()], b.tree)
    requires LeafSet(fmt, Allocated(b, f), c, n, LeafPte(fmt, f, attr)) && LastTable(fmt, n) in c.tree.frameAt
    requires Grown(fmt, Allocated(b, f), c, n, Levels(fmt) - 1)
    ensures LeavesMapped(fmt, a, c, lo, n + 1, attr, AddPage(k, n, f))
  {
  }

  /** `PageStep`, folded. */
  ghost predicate Step(fmt: Format, b: Stock, c: Stock, n: nat, w: nat, f: nat)
    requires Levels(fmt) > 0
  {
    forall o {:trigger Open(o)} :: Open(o) ==> PageStep(fmt, b, c, n, w, f)
  }

  lemma RegionGrows(fmt: Format, a: Stock, b: Stock, c: Stock, lo: nat, n: nat, attr: nat, k: Backing, f: nat,
                    n': nat, k': Backing)
    requires Levels(fmt) > 0 && lo <= n && n' == n + 1 && k' == AddPage(k, n, f)
    requires Filled(fmt, a, b, lo, n, attr, k) && PoolApart(a)
    requires Step(fmt, b, c, n, LeafPte(fmt, f, attr), f)
    ensures Filled(fmt, a, c, lo, n', attr, k')
  {
    assert Open(0);
    RegionStep(fmt, a, b, c, lo, n, attr, k, f);
  }

  // ---- unmapping ----

  /** Pages `lo` to `hi` are unmapped and the frames that backed them free; nothing else changed. */
  ghost predicate RegionFreed(fmt: Format, a: Stock, b: Stock, lo: nat, hi: nat, k: Backing)
    requires Levels(fmt) > 0 && lo <= hi
  {
    && b.tree == a.tree
    && (forall f :: f in b.free <==> f in a.free || (f in k.pageOf && lo <= k.pageOf[f] < hi))
    && |b.free| == |a.free| + (hi - lo)
    && (forall n: nat :: LeafWord(fmt, b.mem, b.tree, n) == if lo <= n < hi then 0 else LeafWord(fmt, a.mem, a.tree, n))
    && b.mem.Keys == a.mem.Keys
    && (forall g :: g in a.mem && g !in a.tree.nodeOf && !(g in k.pageOf && lo <= k.pageOf[g] < hi) ==>
          b.mem[g] == a.mem[g])
  }

  /** `RegionFreed`, folded. */
  ghost predicate Released(fmt: Format, a: Stock, b: Stock, lo: nat, hi: nat, k: Backing)
    requires Levels(fmt) > 0 && lo <= hi
  {
    forall o {:trigger Open(o)} :: Open(o) ==> RegionFreed(fmt, a, b, lo, hi, k)
  }

  lemma FreedStart(fmt: Format, a: Stock, lo: nat, k: Backing)
    requires Levels(fmt) > 0
    ensures Released(fmt, a, a, lo, lo, k)
  {
  }

  /** The invariant of `arch_unmap_region`'s loop. */
  lemma FreedStep(fmt: Format, a: Stock, b: Stock, c: Stock, lo: nat, n: nat, k: Backing)
    requires Levels(fmt) > 0 && lo <= n && BackingOk(k) && n in k.frameOf
    requires RegionFreed(fmt, a, b, lo, n, k) && k.frameOf[n] !in b.free && Freed(fmt, b, c, n, k.frameOf[n])
    ensures RegionFreed(fmt, a, c, lo, n + 1, k)
  {
    forall f
      ensures f in c.free <==> f in a.free || (f in k.pageOf && lo <= k.pageOf[f] < n + 1)
    {
      if f in k.pageOf {
        assert Backs(k, f);
      }
    }
  }
}
