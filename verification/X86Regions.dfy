/** `arch_map_region_alloc` and `arch_unmap_region` on x86-64. */
module X86Regions {
  import opened Memory
  import opened PhysicalMemory
  import opened TableTree
  import opened PageTables
  import opened X86Entries
  import opened X86Paging
  import opened RegionMapping

  const PAGES: nat := 0x10_0000_0000      // page numbers 4-level tables tell apart

  /** The run of addresses stays inside one 2^48-byte window, as canonical addresses do. */
  predicate InWindow(base: nat, length: nat) {
    PageNumber(base) + length / 4096 <= PAGES
  }

  lemma NextPage(i: nat)
    requires PageNumber(i) + 1 < PAGES
    ensures PageNumber(i + 4096) == PageNumber(i) + 1
  {
    var k := i / 4096;
    assert (i + 4096) / 4096 == k + 1;
    DivUnique(k + 1, PAGES, k / PAGES, k % PAGES + 1);
  }

  /** The tables page `n` goes through above depth `d`. */
  ghost function Ancestors(n: nat, d: nat): set<Node>
    requires d <= 4
  {
    if d == 0 then {} else Ancestors(n, d - 1) + {TableOf(X86, n, d - 1)}
  }

  /** The given tables, and those that pages `lo` to `hi` go through. */
  ghost function WithRegion(nodes: set<Node>, lo: nat, hi: nat): set<Node>
    decreases hi
  {
    if hi <= lo then nodes else WithRegion(nodes, lo, hi - 1) + Ancestors(hi - 1, 4)
  }

  /** Free frames suffice for the pages `lo` to `hi` and for the tables they still lack. */
  ghost predicate Fits(s: Stock, lo: nat, hi: nat) {
    lo <= hi && hi - lo + |WithRegion(s.tree.nodes, lo, hi)| <= |s.free| + |s.tree.nodes|
  }

  lemma {:induction false} AncestorsHave(n: nat, d: nat, e: nat)
    requires e < d <= 4
    ensures TableOf(X86, n, e) in Ancestors(n, d)
  {
    if e < d - 1 {
      AncestorsHave(n, d - 1, e);
    }
  }

  lemma {:induction false} WithRegionHas(nodes: set<Node>, lo: nat, hi: nat, n: nat, e: nat)
    requires lo <= n < hi && e < 4
    ensures TableOf(X86, n, e) in WithRegion(nodes, lo, hi)
    decreases hi
  {
    if n < hi - 1 {
      WithRegionHas(nodes, lo, hi - 1, n, e);
    } else {
      AncestorsHave(n, 4, e);
    }
  }

  lemma {:induction false} WithRegionKeeps(nodes: set<Node>, lo: nat, hi: nat, q: Node)
    requires q in nodes
    ensures q in WithRegion(nodes, lo, hi)
    decreases hi
  {
    if hi > lo {
      WithRegionKeeps(nodes, lo, hi - 1, q);
    }
  }

  /** `all` has every table of `s`, and room for those of pages `lo` to `hi`. */
  ghost predicate Covers(all: set<Node>, s: Stock, lo: nat, hi: nat) {
    && (forall q :: q in s.tree.nodes ==> q in all)
    && (forall n, e :: lo <= n < hi && 0 <= e < 4 ==> TableOf(X86, n, e) in all)
  }

  lemma WithRegionCovers(s: Stock, lo: nat, hi: nat)
    ensures Covers(WithRegion(s.tree.nodes, lo, hi), s, lo, hi)
  {
    forall q | q in s.tree.nodes
      ensures q in WithRegion(s.tree.nodes, lo, hi)
    {
      WithRegionKeeps(s.tree.nodes, lo, hi, q);
    }
    forall n, e | lo <= n < hi && 0 <= e < 4
      ensures TableOf(X86, n, e) in WithRegion(s.tree.nodes, lo, hi)
    {
      WithRegionHas(s.tree.nodes, lo, hi, n, e);
    }
  }

  function Attr(flags: VmmFlags): nat {
    BuildPermissions(FromVmmFlags(flags), 1)
  }

  /** `attr` are the flag bits of a leaf with these flags; unfolded in proofs that mention `Spell`. */
  ghost predicate Encodes(attr: nat, flags: VmmFlags) {
    forall k {:trigger Spell(k)} :: Spell(k) ==> attr == Attr(flags)
  }

  ghost predicate FlagBits(attr: nat) {
    exists flags :: Encodes(attr, flags)
  }

  lemma FrameOfAligned(f: nat)
    requires f < FRAMES
    ensures 4096 * f / 4096 % FRAMES == f && ExtractPhys(4096 * f) == 4096 * f
  {
  }

  ghost predicate Covered(all: set<Node>, s: Stock, lo: nat, hi: nat) {
    forall k {:trigger Open(k)} :: Open(k) ==> Covers(all, s, lo, hi)
  }

  /** Backs every page of the region with a fresh zeroed frame of its own. */
  method ArchMapRegionAlloc(r0: Ram, root: nat, base: nat, length: nat, flags: VmmFlags, ghost s0: Stock)
    returns (r: Ram, ghost s: Stock, ghost k: Backing, ghost attr: nat)
    requires Tables(X86, r0, root, s0)
    requires base % 4096 == 0 && length % 4096 == 0 && InWindow(base, length)
    requires Fits(s0, PageNumber(base), PageNumber(base) + length / 4096)
    ensures Tables(X86, r, root, s)
    ensures Filled(X86, s0, s, PageNumber(base), PageNumber(base) + length / 4096, attr, k) && Encodes(attr, flags)
  {
    ghost var lo, hi := PageNumber(base), PageNumber(base) + length / 4096;
    assert PoolApart(s0) by { assert Open(0); }
    WithRegionCovers(s0, lo, hi);
    attr := Attr(flags);
    r, s, k := MapLoop(r0, root, base, length / 4096, flags, s0, lo, hi, WithRegion(s0.tree.nodes, lo, hi), attr);
  }

  method MapLoop(r0: Ram, root: nat, base: nat, count: nat, flags: VmmFlags,
                 ghost s0: Stock, ghost lo: nat, ghost hi: nat, ghost all: set<Node>, ghost attr: nat)
    returns (r: Ram, ghost s: Stock, ghost k: Backing)
    requires Tables(X86, r0, root, s0) && Covered(all, s0, lo, hi) && PoolApart(s0)
    requires count + |all| <= |s0.free| + |s0.tree.nodes|
    requires lo == PageNumber(base) && hi == lo + count <= PAGES && Encodes(attr, flags)
    ensures Tables(X86, r, root, s)
    ensures Filled(X86, s0, s, lo, hi, attr, k)
  {
    var i, j := base, 0;
    ghost var n := lo;
    r, s, k := r0, s0, NoPages();
    RegionStart(X86, s0, lo, attr);
    while j < count
      invariant j <= count && n == lo + j && (j < count ==> PageNumber(i) == n)
      invariant Tables(X86, r, root, s)
      invariant Filled(X86, s0, s, lo, n, attr, k)
      invariant Covered(all, s, lo, hi)
    {
      r, s, k, n := MapFreshPage(r, root, i, flags, s, s0, lo, n, hi, k, all, attr);
      j := j + 1;
      if j < count {
        NextPage(i);
      }
      i := i + 4096;
    }
  }

  /** One iteration: `allocate_page`, then `map4kib` of the frame. */
  method MapFreshPage(r0: Ram, root: nat, i: nat, flags: VmmFlags, ghost s0: Stock, ghost start: Stock,
                      ghost lo: nat, ghost n: nat, ghost hi: nat, ghost k0: Backing, ghost all: set<Node>,
                      ghost attr: nat)
    returns (r: Ram, ghost s: Stock, ghost k: Backing, ghost n': nat)
    requires Tables(X86, r0, root, s0) && PoolApart(start) && Encodes(attr, flags)
    requires lo <= n < hi && n == PageNumber(i) && Filled(X86, start, s0, lo, n, attr, k0)
    requires Covered(all, s0, lo, hi) && 1 + |all| <= |s0.free| + |s0.tree.nodes|
    ensures n' == n + 1 && Tables(X86, r, root, s)
    ensures Filled(X86, start, s, lo, n', attr, k)
    ensures Covered(all, s, lo, hi)
  {
    Room(s0, lo, n, hi, all);
    var f;
    f, r, s := AllocAndMap(r0, root, i, flags, s0, n, attr);
    k, n' := AddPage(k0, n, f), n + 1;
    RegionGrows(X86, start, s0, s, lo, n, attr, k0, f, n', k);
    StillCovered(s0, s, lo, n, hi, all, LeafPte(X86, f, attr), f);
  }

  lemma Room(s: Stock, lo: nat, n: nat, hi: nat, all: set<Node>)
    requires Covered(all, s, lo, hi) && lo <= n < hi && 1 + |all| <= |s.free| + |s.tree.nodes|
    ensures 1 + Missing(X86, s.tree.nodes, n, 0) <= |s.free|
  {
    assert Open(0);
    MissingFits(X86, s.tree.nodes, n, 0, all);
  }

  lemma StillCovered(s: Stock, s': Stock, lo: nat, n: nat, hi: nat, all: set<Node>, w: nat, f: nat)
    requires Covered(all, s, lo, hi) && lo <= n < hi && Step(X86, s, s', n, w, f)
    ensures Covered(all, s', lo, hi)
  {
    assert Open(0);
    forall q | q in s'.tree.nodes
      ensures q in all
    {
    }
  }

  method AllocAndMap(r0: Ram, root: nat, i: nat, flags: VmmFlags, ghost s0: Stock, ghost n: nat, ghost attr: nat)
    returns (f: nat, r: Ram, ghost s: Stock)
    requires Tables(X86, r0, root, s0) && n == PageNumber(i) && Encodes(attr, flags)
    requires 1 + Missing(X86, s0.tree.nodes, n, 0) <= |s0.free|
    ensures Tables(X86, r, root, s)
    ensures Step(X86, s0, s, n, LeafPte(X86, f, attr), f)
  {
    assert Open(0);
    TakePageFacts(r0, s0.free);
    var (r1, page) := TakePage(r0);
    f := page.value;
    ghost var b := Allocated(s0, f);
    TreeFrame(X86, s0.mem, b.mem, root, s0.tree);
    assert attr == Attr(flags) by { assert Spell(0); }
    FrameOfAligned(f);
    var ok;
    ok, r, s := Map4kib(r1, root, i, 4096 * f, FromVmmFlags(flags), b);
  }

  // ---- unmapping ----

  /**
   Pages and frames of `k`, outside pages `lo` to `hi`: a page is mapped to its frame with its flag bits;
   a frame is RAM that is neither free nor a table.
   */
  ghost predicate LiveOutside(s: Stock, k: Backing, bits: map<nat, nat>, lo: nat, hi: nat) {
    && (forall n {:trigger k.frameOf[n]} :: n in k.frameOf && !(lo <= n < hi) ==>
          && n in bits && FlagBits(bits[n]) && LastTable(X86, n) in s.tree.frameAt
          && LeafWord(X86, s.mem, s.tree, n) == LeafPte(X86, k.frameOf[n], bits[n]))
    && (forall f :: f in k.pageOf && !(lo <= k.pageOf[f] < hi) ==> Reclaimable(X86, s, f))
  }

  /** `LiveOutside`, folded. */
  ghost predicate Live(s: Stock, k: Backing, bits: map<nat, nat>, lo: nat, hi: nat) {
    forall o {:trigger Open(o)} :: Open(o) ==> LiveOutside(s, k, bits, lo, hi)
  }

  /** Unmaps the region and gives the frames that backed it back to the pool. */
  method ArchUnmapRegion(r0: Ram, root: nat, base: nat, length: nat,
                         ghost s0: Stock, ghost k: Backing, ghost bits: map<nat, nat>)
    returns (r: Ram, ghost s: Stock)
    requires Tables(X86, r0, root, s0) && BackingOk(k)
    requires base % 4096 == 0 && length % 4096 == 0 && InWindow(base, length)
    requires Live(s0, k, bits, PageNumber(base), PageNumber(base))
    requires forall n :: PageNumber(base) <= n < PageNumber(base) + length / 4096 ==> n in k.frameOf
    ensures Tables(X86, r, root, s)
    ensures Released(X86, s0, s, PageNumber(base), PageNumber(base) + length / 4096, k)
    ensures Live(s, k, bits, PageNumber(base), PageNumber(base) + length / 4096)
  {
    var i, j, count := base, 0, length / 4096;
    ghost var lo := PageNumber(base);
    ghost var n := lo;
    r, s := r0, s0;
    FreedStart(X86, s0, lo, k);
    while j < count
      invariant j <= count && n == lo + j && (j < count ==> PageNumber(i) == n)
      invariant Tables(X86, r, root, s)
      invariant Released(X86, s0, s, lo, n, k)
      invariant Live(s, k, bits, lo, n)
    {
      r, s, n := UnmapPage(r, root, i, s, s0, lo, n, k, bits);
      j := j + 1;
      if j < count {
        NextPage(i);
      }
      i := i + 4096;
    }
  }

  method UnmapPage(r0: Ram, root: nat, i: nat, ghost s0: Stock, ghost start: Stock,
                   ghost lo: nat, ghost n: nat, ghost k: Backing, ghost bits: map<nat, nat>)
    returns (r: Ram, ghost s: Stock, ghost n': nat)
    requires Tables(X86, r0, root, s0) && BackingOk(k)
    requires lo <= n == PageNumber(i) && n in k.frameOf
    requires Released(X86, start, s0, lo, n, k) && Live(s0, k, bits, lo, n)
    ensures n' == n + 1 && Tables(X86, r, root, s)
    ensures Released(X86, start, s, lo, n', k)
    ensures Live(s, k, bits, lo, n')
  {
    n' := n + 1;
    NamesItsFrame(s0, k, bits, lo, n);
    assert TablesOk(X86, r0, root, s0) by { assert Open(0); }
    r, s := Unmap(r0, root, i, s0);
    ReleasedStep(start, s0, s, lo, n, k, n');
    LiveStep(s0, s, lo, n, k, bits, n');
  }

  lemma NamesItsFrame(s: Stock, k: Backing, bits: map<nat, nat>, lo: nat, n: nat)
    requires BackingOk(k) && n in k.frameOf && Live(s, k, bits, lo, n)
    ensures LastTable(X86, n) in s.tree.frameAt
    ensures LeafFrame(s, n) == k.frameOf[n] && Reclaimable(X86, s, k.frameOf[n])
  {
    assert Open(0);
    NamesFrame(k.frameOf[n], bits[n]);
  }

  lemma NamesFrame(f: nat, attr: nat)
    requires f < FRAMES && FlagBits(attr)
    ensures ExtractPhys(LeafPte(X86, f, attr)) / 4096 == f
  {
    var flags :| Encodes(attr, flags);
    var fl := FromVmmFlags(flags);
    assert attr == NX_BIT * fl.nexec + LowBits(fl, fl.pat, fl.global) by { assert Spell(0); }
    HighDigits(4096 * f + attr, LowBits(fl, fl.pat, fl.global), f, fl.nexec);
  }

  lemma ReleasedStep(a: Stock, b: Stock, c: Stock, lo: nat, n: nat, k: Backing, n': nat)
    requires lo <= n && n' == n + 1 && BackingOk(k) && n in k.frameOf
    requires Released(X86, a, b, lo, n, k) && k.frameOf[n] !in b.free && Freed(X86, b, c, n, k.frameOf[n])
    ensures Released(X86, a, c, lo, n', k)
  {
    assert Open(0);
    FreedStep(X86, a, b, c, lo, n, k);
  }

  lemma LiveStep(b: Stock, c: Stock, lo: nat, n: nat, k: Backing, bits: map<nat, nat>, n': nat)
    requires lo <= n && n' == n + 1 && BackingOk(k) && n in k.frameOf
    requires Live(b, k, bits, lo, n) && Freed(X86, b, c, n, k.frameOf[n])
    ensures Live(c, k, bits, lo, n')
  {
    assert Open(0);
    forall f | f in k.pageOf && !(lo <= k.pageOf[f] < n')
      ensures Reclaimable(X86, c, f)
    {
      assert Backs(k, f);
    }
  }
}
