/** The mappings made before the region list exists: the kernel image and the direct map. */
module FixedMaps {
  import opened Memory
  import opened PhysicalMemory
  import opened TableTree
  import opened PageTables
  import opened X86Hardware
  import opened X86Entries
  import opened X86Paging
  import opened RegionMapping
  import opened X86Regions
  import opened RegionList
  import opened Ownership

  // ---- how far the direct map goes ----

  /** The end of the highest entry that the direct map covers. */
  function Highest(entries: seq<MemmapEntry>): nat {
    if entries == [] then 0
    else
      var e, below := entries[|entries| - 1], Highest(entries[..|entries| - 1]);
      if e.kind != Skipped && e.base + e.length > below then e.base + e.length else below
  }

  /** The last framebuffer entry: its base and length. */
  function LastFramebuffer(entries: seq<MemmapEntry>): (nat, nat) {
    if entries == [] then (0, 0)
    else
      var e := entries[|entries| - 1];
      if e.kind == Framebuffer then (e.base, e.length) else LastFramebuffer(entries[..|entries| - 1])
  }

  function DirectSize(entries: seq<MemmapEntry>): nat {
    AlignUp(Highest(entries))
  }

  method ScanMemmap(entries: seq<MemmapEntry>) returns (size: nat, fb: (nat, nat))
    ensures size == DirectSize(entries) && fb == LastFramebuffer(entries)
  {
    var top := 0;
    fb := (0, 0);
    for i := 0 to |entries|
      invariant top == Highest(entries[..i]) && fb == LastFramebuffer(entries[..i])
    {
      var e := entries[i];
      assert entries[..i + 1][..i] == entries[..i];
      if e.kind != Skipped {
        top := if e.base + e.length > top then e.base + e.length else top;
        if e.kind == Framebuffer {
          fb := (e.base, e.length);
        }
      }
    }
    assert entries[..|entries|] == entries;
    size := AlignUp(top);
  }

  predicate InDirectMap(e: MemmapEntry) {
    e.kind != Skipped
  }

  /** The scan's first result: the least bound of the entries that the direct map covers. */
  lemma {:induction false} HighestIs(entries: seq<MemmapEntry>)
    ensures forall i :: 0 <= i < |entries| && InDirectMap(entries[i]) ==>
              entries[i].base + entries[i].length <= Highest(entries)
    ensures Highest(entries) == 0 || exists i :: 0 <= i < |entries| && InDirectMap(entries[i])
                                               && entries[i].base + entries[i].length == Highest(entries)
  {
    if entries != [] {
      var rest := entries[..|entries| - 1];
      HighestIs(rest);
      if Highest(entries) != 0 && Highest(entries) == Highest(rest) {
        var i :| 0 <= i < |rest| && InDirectMap(rest[i]) && rest[i].base + rest[i].length == Highest(rest);
        assert entries[i] == rest[i];
      }
    }
  }

  ghost predicate LastOfKind(entries: seq<MemmapEntry>, i: nat) {
    && i < |entries| && entries[i].kind == Framebuffer
    && forall j :: i < j < |entries| ==> entries[j].kind != Framebuffer
  }

  /** Its second: base and length of the last framebuffer entry, or nothing when there is none. */
  lemma {:induction false} FramebufferIs(entries: seq<MemmapEntry>)
    ensures (exists i: nat ::
               LastOfKind(entries, i) && LastFramebuffer(entries) == (entries[i].base, entries[i].length))
            || ((forall i :: 0 <= i < |entries| ==> entries[i].kind != Framebuffer)
                && LastFramebuffer(entries) == (0, 0))
  {
    if entries != [] {
      var rest := entries[..|entries| - 1];
      if entries[|entries| - 1].kind == Framebuffer {
        assert LastOfKind(entries, |entries| - 1);
      } else {
        FramebufferIs(rest);
        if i: nat :| LastOfKind(rest, i) && LastFramebuffer(rest) == (rest[i].base, rest[i].length) {
          assert LastOfKind(entries, i);
        }
      }
    }
  }

  /** Every frame of the pool is reached through the direct map. */
  lemma PoolInDirectMap(entries: seq<MemmapEntry>, f: nat)
    requires Usable(entries, f)
    ensures 4096 * f < DirectSize(entries)
  {
    var i :| 0 <= i < |entries| && InEntry(entries[i], f);
    HighestIs(entries);
    assert InDirectMap(entries[i]);
  }

  // ---- one page ----

  /** `map4kib` to a frame of the caller's choice. */
  method MapFixed(r0: Ram, root: nat, virt: nat, phys: nat, flags: Flags, ghost caches: seq<nat>, ghost w0: World)
    returns (r: Ram, ghost w: World, ghost word: nat)
    requires WorldOk(r0, root, caches, w0) && PageNumber(virt) !in w0.pages.frameOf
    requires Missing(X86, w0.tree.nodes, PageNumber(virt), 0) <= |w0.free|
    ensures WorldOk(r, root, caches, w) && w.pages == w0.pages && w.bits == w0.bits && w.slabs == w0.slabs
    ensures LeafSet(X86, StockOf(w0), StockOf(w), PageNumber(virt), word)
    ensures Means(word, Seen(phys, flags))
    ensures Grown(X86, StockOf(w0), StockOf(w), PageNumber(virt), 3) && forall f :: Owned(w, f) <==> Owned(w0, f)
  {
    word := LeafEntry(phys, flags);
    assert TablesOk(X86, r0, root, StockOf(w0)) by { assert Open(0); }
    var ok;
    ghost var s;
    ok, r, s := Map4kib(r0, root, virt, phys, flags, StockOf(w0));
    w := World(s.mem, s.tree, w0.slabs, s.free, w0.pages, w0.bits);
    FixedApart(r0, root, caches, w0, s, PageNumber(virt));
    DepotKept(r0, caches, DepotOf(w0), r, DepotOf(w));
    FixedLive(StockOf(w0), s, w0, PageNumber(virt), word);
  }

  lemma FixedApart(r: Ram, root: nat, caches: seq<nat>, w: World, s: Stock, n: nat)
    requires WorldOk(r, root, caches, w) && Grown(X86, StockOf(w), s, n, 3)
    ensures Separate(World(s.mem, s.tree, w.slabs, s.free, w.pages, w.bits))
    ensures forall f :: Owned(World(s.mem, s.tree, w.slabs, s.free, w.pages, w.bits), f) <==> Owned(w, f)
    ensures forall f :: f in s.free ==> f !in w.slabs.info
    ensures forall f :: f in w.slabs.info && f in w.mem ==> f in s.mem && s.mem[f] == w.mem[f]
  {
    assert Open(0);
  }

  lemma FixedLive(a: Stock, b: Stock, w: World, n: nat, word: nat)
    requires Live(a, w.pages, w.bits, 0, 0) && Grown(X86, a, b, n, 3) && LeafSet(X86, a, b, n, word)
    requires n !in w.pages.frameOf
    ensures Live(b, w.pages, w.bits, 0, 0)
  {
    assert Open(0);
    forall f | f in w.pages.pageOf
      ensures Reclaimable(X86, b, f)
    {
      assert Reclaimable(X86, a, f);
    }
  }

  // ---- a run of pages ----

  /** The pages from `lo` have the leaf words `words`, every other leaf and every frame's owner is as before. */
  ghost predicate FixedLeaves(a: World, b: World, lo: nat, words: seq<nat>) {
    && b.pages == a.pages && b.bits == a.bits && b.slabs == a.slabs
    && (forall n: nat :: LeafWord(X86, b.mem, b.tree, n) ==
                    if lo <= n < lo + |words| then words[n - lo] else LeafWord(X86, a.mem, a.tree, n))
    && (forall f :: Owned(b, f) <==> Owned(a, f))
    && |b.free| + |b.tree.nodes| == |a.free| + |a.tree.nodes|
  }

  /** `FixedLeaves`, folded. */
  ghost predicate Fixed(a: World, b: World, lo: nat, words: seq<nat>) {
    forall k {:trigger Open(k)} :: Open(k) ==> FixedLeaves(a, b, lo, words)
  }

  /** Nothing is backed yet, and `all` leaves room for the tables of pages `lo` to `hi`. */
  ghost predicate Roomy(w: World, all: set<Node>, lo: nat, hi: nat) {
    w.pages == NoPages() && Covered(all, StockOf(w), lo, hi) && |all| <= |w.free| + |w.tree.nodes|
  }

  method FixPage(r0: Ram, root: nat, virt: nat, phys: nat, flags: Flags, ghost caches: seq<nat>, ghost w0: World,
                 ghost start: World, ghost lo: nat, ghost hi: nat, ghost words0: seq<nat>, ghost all: set<Node>)
    returns (r: Ram, ghost w: World, ghost words: seq<nat>, ghost word: nat)
    requires WorldOk(r0, root, caches, w0) && Fixed(start, w0, lo, words0) && Roomy(w0, all, lo, hi)
    requires lo + |words0| == PageNumber(virt) < hi
    ensures WorldOk(r, root, caches, w) && Fixed(start, w, lo, words) && Roomy(w, all, lo, hi)
    ensures words == words0 + [word] && Means(word, Seen(phys, flags))
  {
    ghost var n := PageNumber(virt);
    TablesFit(w0, lo, n, hi, all);
    r, w, word := MapFixed(r0, root, virt, phys, flags, caches, w0);
    words := words0 + [word];
    OneMoreLeaf(start, w0, w, lo, n, words0, word, words);
    RoomKept(w0, w, lo, n, hi, all);
  }

  lemma TablesFit(w: World, lo: nat, n: nat, hi: nat, all: set<Node>)
    requires Roomy(w, all, lo, hi) && lo <= n < hi
    ensures Missing(X86, w.tree.nodes, n, 0) <= |w.free|
  {
    assert Open(0);
    MissingFits(X86, w.tree.nodes, n, 0, all);
  }

  lemma OneMoreLeaf(start: World, w0: World, w: World, lo: nat, n: nat, words0: seq<nat>, word: nat, words: seq<nat>)
    requires Fixed(start, w0, lo, words0) && n == lo + |words0| && words == words0 + [word]
    requires w.pages == w0.pages && w.bits == w0.bits && w.slabs == w0.slabs
    requires LeafSet(X86, StockOf(w0), StockOf(w), n, word) && forall f :: Owned(w, f) <==> Owned(w0, f)
    requires |w.free| + |w.tree.nodes| == |w0.free| + |w0.tree.nodes|
    ensures Fixed(start, w, lo, words)
  {
    assert FixedLeaves(start, w0, lo, words0) by { assert Open(0); }
    forall m: nat
      ensures LeafWord(X86, w.mem, w.tree, m) ==
              if lo <= m < lo + |words| then words[m - lo] else LeafWord(X86, start.mem, start.tree, m)
    {
      assert m != n ==> LeafWord(X86, w.mem, w.tree, m) == LeafWord(X86, w0.mem, w0.tree, m);
    }
  }

  lemma RoomKept(w0: World, w: World, lo: nat, n: nat, hi: nat, all: set<Node>)
    requires Roomy(w0, all, lo, hi) && lo <= n < hi && w.pages == w0.pages
    requires Grown(X86, StockOf(w0), StockOf(w), n, 3)
    ensures Roomy(w, all, lo, hi)
  {
    assert Open(0);
    forall q | q in w.tree.nodes
      ensures q in all
    {
    }
  }

  // ---- the two loops of `pt_init` ----

  function KernelFlags(): (p: Flags)
    ensures p.gigapage == 0 && p.megapage == 0
  {
    Flags(1, 1, 0, 0, 1, 0, 0, 0, 0, 0)
  }

  /** The framebuffer is not executable and of another memory type than everything else. */
  function DirectFlags(i: nat, fb: (nat, nat)): (p: Flags)
    ensures p.gigapage == 0 && p.megapage == 0
  {
    if fb.0 <= i < fb.0 + fb.1 then Flags(1, 1, 0, 1, 1, 0, 0, 1, 0, 1) else Flags(1, 1, 0, 0, 1, 0, 0, 0, 0, 0)
  }

  /** Writable, executable, global, not for user mode, write-back: all pages but those of the framebuffer. */
  function Plain(): Access {
    Access(1, 0, 0, 1, 0, 0, 0)
  }

  /** The framebuffer: writable, not executable, global, and of the memory type that PWT and PAT select. */
  function Framed(): Access {
    Access(1, 0, 1, 1, 1, 0, 1)
  }

  /** Page `j` of the kernel image as the processor should see it: `j` pages into its physical memory. */
  function KernelPage(phys: nat, j: nat): Translation {
    Translated((phys + 4096 * j) / 4096 % 0x100_0000_0000, Plain())
  }

  /** Page `j` of the direct map: frame `j`. */
  function DirectPage(fb: (nat, nat), j: nat): Translation {
    Translated(j % 0x100_0000_0000, if fb.0 <= 4096 * j < fb.0 + fb.1 then Framed() else Plain())
  }

  ghost predicate KernelWords(words: seq<nat>, phys: nat) {
    forall j :: 0 <= j < |words| ==> Means(words[j], KernelPage(phys, j))
  }

  ghost predicate DirectWords(words: seq<nat>, fb: (nat, nat)) {
    forall j :: 0 <= j < |words| ==> Means(words[j], DirectPage(fb, j))
  }

  method MapKernelImage(r0: Ram, root: nat, virt: nat, phys: nat, size: nat,
                        ghost caches: seq<nat>, ghost w0: World, ghost all: set<Node>)
    returns (r: Ram, ghost w: World, ghost words: seq<nat>)
    requires WorldOk(r0, root, caches, w0) && size % 4096 == 0 && InWindow(virt, size)
    requires Roomy(w0, all, PageNumber(virt), PageNumber(virt) + size / 4096)
    ensures WorldOk(r, root, caches, w) && Fixed(w0, w, PageNumber(virt), words) && |words| == size / 4096
    ensures Roomy(w, all, PageNumber(virt), PageNumber(virt) + size / 4096) && KernelWords(words, phys)
  {
    ghost var lo, hi := PageNumber(virt), PageNumber(virt) + size / 4096;
    r, w, words := r0, w0, [];
    FixedStart(w0, lo);
    var i, n := 0, size / 4096;
    while i < n
      invariant i <= n && |words| == i && WorldOk(r, root, caches, w)
      invariant Fixed(w0, w, lo, words) && Roomy(w, all, lo, hi) && KernelWords(words, phys)
    {
      PageBehind(virt, i);
      ghost var word;
      r, w, words, word :=
        FixPage(r, root, virt + 4096 * i, phys + 4096 * i, KernelFlags(), caches, w, w0, lo, hi, words, all);
      assert Means(word, KernelPage(phys, i));
      i := i + 1;
    }
  }

  method MapDirectMap(r0: Ram, root: nat, virt: nat, size: nat, fb: (nat, nat),
                      ghost caches: seq<nat>, ghost w0: World, ghost all: set<Node>)
    returns (r: Ram, ghost w: World, ghost words: seq<nat>)
    requires WorldOk(r0, root, caches, w0) && size % 4096 == 0 && InWindow(virt, size)
    requires Roomy(w0, all, PageNumber(virt), PageNumber(virt) + size / 4096)
    ensures WorldOk(r, root, caches, w) && Fixed(w0, w, PageNumber(virt), words) && |words| == size / 4096
    ensures Roomy(w, all, PageNumber(virt), PageNumber(virt) + size / 4096) && DirectWords(words, fb)
  {
    ghost var lo, hi := PageNumber(virt), PageNumber(virt) + size / 4096;
    r, w, words := r0, w0, [];
    FixedStart(w0, lo);
    var i, n := 0, size / 4096;
    while i < n
      invariant i <= n && |words| == i && WorldOk(r, root, caches, w)
      invariant Fixed(w0, w, lo, words) && Roomy(w, all, lo, hi) && DirectWords(words, fb)
    {
      PageBehind(virt, i);
      ghost var word;
      r, w, words, word :=
        FixPage(r, root, virt + 4096 * i, 4096 * i, DirectFlags(4096 * i, fb), caches, w, w0, lo, hi, words, all);
      assert 4096 * i / 4096 == i;
      assert Means(word, DirectPage(fb, i));
      i := i + 1;
    }
  }

  lemma FixedStart(w: World, lo: nat)
    ensures Fixed(w, w, lo, [])
  {
  }

  /** Page `i` of a run inside one window. */
  lemma PageBehind(virt: nat, i: nat)
    requires PageNumber(virt) + i < PAGES
    ensures PageNumber(virt + 4096 * i) == PageNumber(virt) + i
  {
    var k := virt / 4096;
    assert (virt + 4096 * i) / 4096 == k + i;
    DivUnique(k + i, PAGES, k / PAGES, k % PAGES + i);
  }

  /** The root, and the tables on the way to the pages of both runs. */
  ghost function BootTables(klo: nat, khi: nat, hlo: nat, hhi: nat): set<Node> {
    WithRegion(WithRegion({ROOT}, klo, khi), hlo, hhi)
  }

  lemma BootTablesCover(s: Stock, klo: nat, khi: nat, hlo: nat, hhi: nat)
    requires s.tree.nodes == {ROOT}
    ensures Covers(BootTables(klo, khi, hlo, hhi), s, klo, khi) && Covers(BootTables(klo, khi, hlo, hhi), s, hlo, hhi)
  {
    var inner := WithRegion({ROOT}, klo, khi);
    WithRegionCovers(s, klo, khi);
    WithRegionCovers(s.(tree := Tree(inner, map[], map[])), hlo, hhi);
    forall q | q in inner
      ensures q in BootTables(klo, khi, hlo, hhi)
    {
      WithRegionKeeps(inner, hlo, hhi, q);
    }
  }

  lemma OtherRun(w0: World, w: World, all: set<Node>, klo: nat, khi: nat, hlo: nat, hhi: nat)
    requires Roomy(w0, all, hlo, hhi) && Roomy(w, all, klo, khi)
    ensures Roomy(w, all, hlo, hhi)
  {
    assert Open(0);
  }

  lemma RoomLeft(w: World, all: set<Node>, lo: nat, hi: nat)
    requires Roomy(w, all, lo, hi)
    ensures |w.tree.nodes| <= |all|
  {
    assert Open(0);
    SubsetSize(w.tree.nodes, all);
  }

  /** The leaves after both loops: the direct map, the kernel image, and nothing else. */
  ghost predicate BootLeaves(mem: Mem, t: Tree, klo: nat, kernel: seq<nat>, hlo: nat, direct: seq<nat>) {
    forall n: nat :: LeafWord(X86, mem, t, n) ==
                     if hlo <= n < hlo + |direct| then direct[n - hlo]
                     else if klo <= n < klo + |kernel| then kernel[n - klo] else 0
  }

  lemma BothRuns(w0: World, w1: World, w: World, klo: nat, kernel: seq<nat>, hlo: nat, direct: seq<nat>)
    requires (forall n :: LeafWord(X86, w0.mem, w0.tree, n) == 0)
    requires Fixed(w0, w1, klo, kernel) && Fixed(w1, w, hlo, direct)
    ensures BootLeaves(w.mem, w.tree, klo, kernel, hlo, direct) && (forall f :: Owned(w, f) <==> Owned(w0, f))
    ensures |w.free| + |w.tree.nodes| == |w0.free| + |w0.tree.nodes| && w.slabs == w0.slabs
  {
    assert Open(0);
  }

  /** `pt_init` behind the allocation of the root table. */
  method MapBoth(r0: Ram, root: nat, kernelBase: nat, kernelPhys: nat, kernelSize: nat,
                 hhdm: nat, size: nat, fb: (nat, nat), ghost caches: seq<nat>, ghost w0: World)
    returns (r: Ram, ghost w: World, ghost kernel: seq<nat>, ghost direct: seq<nat>)
    requires WorldOk(r0, root, caches, w0) && w0.pages == NoPages() && w0.tree.nodes == {ROOT}
    requires forall n :: LeafWord(X86, w0.mem, w0.tree, n) == 0
    requires kernelSize % 4096 == 0 && size % 4096 == 0 && InWindow(kernelBase, kernelSize) && InWindow(hhdm, size)
    requires |BootTables(PageNumber(kernelBase), PageNumber(kernelBase) + kernelSize / 4096,
                         PageNumber(hhdm), PageNumber(hhdm) + size / 4096)| <= |w0.free| + 1
    ensures WorldOk(r, root, caches, w) && w.pages == NoPages() && (forall f :: Owned(w, f) <==> Owned(w0, f))
    ensures BootLeaves(w.mem, w.tree, PageNumber(kernelBase), kernel, PageNumber(hhdm), direct)
    ensures |kernel| == kernelSize / 4096 && KernelWords(kernel, kernelPhys)
    ensures |direct| == size / 4096 && DirectWords(direct, fb)
    ensures |w0.free| + 1 <= |w.free| + |BootTables(PageNumber(kernelBase), PageNumber(kernelBase) + kernelSize / 4096,
                                                    PageNumber(hhdm), PageNumber(hhdm) + size / 4096)|
  {
    ghost var klo, khi := PageNumber(kernelBase), PageNumber(kernelBase) + kernelSize / 4096;
    ghost var hlo, hhi := PageNumber(hhdm), PageNumber(hhdm) + size / 4096;
    ghost var all := BootTables(klo, khi, hlo, hhi);
    BootTablesCover(StockOf(w0), klo, khi, hlo, hhi);
    r, w, kernel := MapKernelImage(r0, root, kernelBase, kernelPhys, kernelSize, caches, w0, all);
    ghost var w1 := w;
    OtherRun(w0, w1, all, klo, khi, hlo, hhi);
    r, w, direct := MapDirectMap(r, root, hhdm, size, fb, caches, w1, all);
    BothRuns(w0, w1, w, klo, kernel, hlo, direct);
    RoomLeft(w, all, hlo, hhi);
  }

  // ---- what the hardware sees ----

  /** A page whose leaf word means `want`. */
  lemma FixedTranslates(mem: Mem, root: nat, t: Tree, v: nat, want: Translation)
    requires TreeOk(X86, mem, root, t) && Means(LeafWord(X86, mem, t, PageNumber(v)), want)
    ensures Translate(mem, root, v) == want
  {
    TranslateIsLeaf(mem, root, t, v);
    assert Spell(0);
  }

  /**
   The processor sees the kernel image where it lies in memory, and behind the direct map all of physical memory,
   everything writable and executable but the framebuffer, which is not executable and not write-back.
   */
  ghost predicate SeesFixed(mem: Mem, root: nat, klo: nat, kernelPhys: nat, kernelSize: nat,
                            hlo: nat, size: nat, fb: (nat, nat)) {
    && (forall v: nat ::
          klo <= PageNumber(v) < klo + kernelSize / 4096 && !(hlo <= PageNumber(v) < hlo + size / 4096) ==>
          Translate(mem, root, v) == KernelPage(kernelPhys, PageNumber(v) - klo))
    && (forall v: nat :: hlo <= PageNumber(v) < hlo + size / 4096 ==>
          Translate(mem, root, v) == DirectPage(fb, PageNumber(v) - hlo))
  }

  lemma FixedSeen(mem: Mem, root: nat, t: Tree, klo: nat, kernel: seq<nat>, kernelPhys: nat, kernelSize: nat,
                  hlo: nat, direct: seq<nat>, size: nat, fb: (nat, nat))
    requires TreeOk(X86, mem, root, t) && BootLeaves(mem, t, klo, kernel, hlo, direct)
    requires |kernel| == kernelSize / 4096 && KernelWords(kernel, kernelPhys)
    requires |direct| == size / 4096 && DirectWords(direct, fb)
    ensures SeesFixed(mem, root, klo, kernelPhys, kernelSize, hlo, size, fb)
  {
    forall v: nat | klo <= PageNumber(v) < klo + kernelSize / 4096 && !(hlo <= PageNumber(v) < hlo + size / 4096)
      ensures Translate(mem, root, v) == KernelPage(kernelPhys, PageNumber(v) - klo)
    {
      assert Means(kernel[PageNumber(v) - klo], KernelPage(kernelPhys, PageNumber(v) - klo));
      FixedTranslates(mem, root, t, v, KernelPage(kernelPhys, PageNumber(v) - klo));
    }
    forall v: nat | hlo <= PageNumber(v) < hlo + size / 4096
      ensures Translate(mem, root, v) == DirectPage(fb, PageNumber(v) - hlo)
    {
      assert Means(direct[PageNumber(v) - hlo], DirectPage(fb, PageNumber(v) - hlo));
      FixedTranslates(mem, root, t, v, DirectPage(fb, PageNumber(v) - hlo));
    }
  }
}
