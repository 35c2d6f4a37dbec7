/**
 The kernel's list of virtual regions: singly linked `VMMRegion` nodes, each in a slab object of
 the 64-byte class, and the first-fit search over it.
 */
module RegionList {
  import opened Memory
  import opened X86Entries

  /** A region and the address of its node. */
  datatype Region = Region(node: nat, base: nat, length: nat, flags: VmmFlags)

  function End(g: Region): nat {
    g.base + g.length
  }

  const NODE_BYTES: nat := 40      // a tagged pointer, base, length and flags

  /** Word `i` of the node at address `a`. */
  function Field(mem: Mem, a: nat, i: nat): nat {
    if a / 4096 in mem && a % 4096 / 8 + i < PAGE_WORDS then mem[a / 4096][a % 4096 / 8 + i] else 0
  }

  function FlagWord(f: VmmFlags): nat {
    f.write + 2 * f.executable + 4 * f.global + 8 * f.user + 16 * f.nocache
  }

  /** The five flags are bits 0 to 4 of the word, so the node loses none. */
  lemma FlagWordBits(f: VmmFlags)
    ensures var w := FlagWord(f);
            && Bit(w, 1) == f.write && Bit(w, 2) == f.executable && Bit(w, 4) == f.global
            && Bit(w, 8) == f.user && Bit(w, 16) == f.nocache
  {
    var w := FlagWord(f);
    OneDigit(w, 16, 0, f.nocache, 8 * f.user + 4 * f.global + 2 * f.executable + f.write);
    OneDigit(w, 8, f.nocache, f.user, 4 * f.global + 2 * f.executable + f.write);
    OneDigit(w, 4, 2 * f.nocache + f.user, f.global, 2 * f.executable + f.write);
    OneDigit(w, 2, 4 * f.nocache + 2 * f.user + f.global, f.executable, f.write);
    OneDigit(w, 1, 8 * f.nocache + 4 * f.user + 2 * f.global + f.executable, f.write, 0);
  }

  /** The `next` field of the node at `a`: a tag, and a pointer when the tag says so. */
  function NextOf(mem: Mem, a: nat): Option<nat> {
    if Field(mem, a, 0) == 0 then None else Some(Field(mem, a, 1))
  }

  ghost function NodeFrom(rs: seq<Region>, i: nat): Option<nat> {
    if i < |rs| then Some(rs[i].node) else None
  }

  /** The node of region `i` says what the region says, and points at the next one. */
  ghost predicate NodeAt(mem: Mem, rs: seq<Region>, i: nat)
    requires i < |rs|
  {
    var a := rs[i].node;
    && NextOf(mem, a) == NodeFrom(rs, i + 1)
    && Field(mem, a, 2) == rs[i].base && Field(mem, a, 3) == rs[i].length
    && Field(mem, a, 4) == FlagWord(rs[i].flags)
  }

  /** The list from `head` is `rs`. */
  ghost predicate ListAt(mem: Mem, head: Option<nat>, rs: seq<Region>) {
    && head == NodeFrom(rs, 0)
    && (forall i {:trigger NodeAt(mem, rs, i)} :: 0 <= i < |rs| ==> NodeAt(mem, rs, i))
  }

  // ---- first fit ----

  function AlignUp(value: nat): (r: nat)
    ensures r % 4096 == 0 && value <= r < value + 4096
  {
    (value + 4095) / 4096 * 4096
  }

  function SaturatingSub(a: nat, b: nat): nat {
    if a < b then 0 else a - b
  }

  /** The gap behind region `i` holds `amount` rounded up to pages, and one page more. */
  ghost predicate Qualifies(rs: seq<Region>, i: nat, amount: nat)
    requires i + 1 < |rs|
  {
    End(rs[i]) + AlignUp(amount) + 4096 <= rs[i + 1].base
  }

  datatype Location = Location(base: nat, prev: nat, cur: nat)

  /** Reads the node at `a`, which is that of region `n`. */
  method ReadNode(mem: Mem, a: nat, ghost rs: seq<Region>, ghost n: nat)
    returns (base: nat, length: nat, next: Option<nat>)
    requires ListAt(mem, NodeFrom(rs, 0), rs) && n < |rs| && a == rs[n].node
    ensures base == rs[n].base && length == rs[n].length && next == NodeFrom(rs, n + 1)
  {
    assert NodeAt(mem, rs, n);
    base, length, next := Field(mem, a, 2), Field(mem, a, 3), NextOf(mem, a);
  }

  /** `calculate_region_location`: the lowest gap that qualifies, or none when no gap does. */
  method CalculateRegionLocation(mem: Mem, khead: Option<nat>, amount: nat, ghost rs: seq<Region>)
    returns (res: Option<Location>, ghost at: nat)
    requires ListAt(mem, khead, rs)
    ensures res.None? ==> forall i :: 0 <= i < |rs| - 1 ==> !Qualifies(rs, i, amount)
    ensures res.Some? ==> at + 1 < |rs| && Qualifies(rs, at, amount)
                          && res.value == Location(End(rs[at]), rs[at].node, rs[at + 1].node)
    ensures res.Some? ==> forall i :: 0 <= i < at ==> !Qualifies(rs, i, amount)
  {
    var cur, prev := khead, None;
    ghost var n := 0;
    at := 0;
    while cur.Some?
      invariant n <= |rs| && cur == NodeFrom(rs, n)
      invariant prev == if n == 0 then None else NodeFrom(rs, n - 1)
      invariant forall i :: 0 <= i < n - 1 ==> !Qualifies(rs, i, amount)
      decreases |rs| - n
    {
      var base, _, next := ReadNode(mem, cur.value, rs, n);
      if prev.Some? {
        var wbase, wlength, _ := ReadNode(mem, prev.value, rs, n - 1);
        var calculation := SaturatingSub(base, wbase + wlength);
        if calculation >= AlignUp(amount) + 4096 {
          return Some(Location(wbase + wlength, prev.value, cur.value)), n - 1;
        }
      }
      prev, cur, n := cur, next, n + 1;
    }
    res := None;
  }

  // ---- what the list says about the address space ----

  predicate Aligned(g: Region) {
    g.base % 4096 == 0 && g.length % 4096 == 0
  }

  predicate Whole(g: Region) {
    Aligned(g) && g.length > 0
  }

  ghost predicate Before(rs: seq<Region>, i: nat)
    requires i + 1 < |rs|
  {
    End(rs[i]) <= rs[i + 1].base
  }

  /** Page-aligned regions that do not overlap, in the order of the list, and a free page just below the last. */
  ghost predicate Sorted(rs: seq<Region>) {
    && |rs| >= 2
    && (forall i {:trigger Aligned(rs[i])} :: 0 <= i < |rs| ==> Aligned(rs[i]))
    && (forall i {:trigger Before(rs, i)} :: 0 <= i < |rs| - 1 ==> Before(rs, i))
    && End(rs[|rs| - 2]) + 4096 <= rs[|rs| - 1].base
  }

  /** Every base is above the one before it, so a base names one region. */
  ghost predicate Rising(rs: seq<Region>) {
    forall i, j :: 0 <= i < j < |rs| ==> rs[i].base < rs[j].base
  }

  /**
   The list of a running kernel: page-aligned regions in order, none empty, the direct map first and
   the kernel image last, and a free page just below the kernel image.
   */
  ghost predicate Ordered(rs: seq<Region>) {
    && |rs| >= 2
    && (forall i {:trigger Whole(rs[i])} :: 0 <= i < |rs| ==> Whole(rs[i]))
    && (forall i {:trigger Before(rs, i)} :: 0 <= i < |rs| - 1 ==> Before(rs, i))
    && End(rs[|rs| - 2]) + 4096 <= rs[|rs| - 1].base
  }

  /** Regions do not overlap, and come in increasing order of base. */
  lemma {:induction false} InOrder(rs: seq<Region>, i: nat, j: nat)
    requires Ordered(rs) && i < j < |rs|
    ensures End(rs[i]) <= rs[j].base && rs[i].base < rs[j].base
    decreases j
  {
    if i + 1 < j {
      InOrder(rs, i, j - 1);
    }
    assert Before(rs, j - 1) && Whole(rs[j - 1]);
  }

  function Insert(rs: seq<Region>, i: nat, g: Region): seq<Region>
    requires i < |rs|
  {
    rs[..i + 1] + [g] + rs[i + 1..]
  }

  function Remove(rs: seq<Region>, i: nat): seq<Region>
    requires i < |rs|
  {
    rs[..i] + rs[i + 1..]
  }

  /** The region `vmm_alloc` puts behind region `at`. */
  function RegionBehind(rs: seq<Region>, at: nat, node: nat, amount: nat, flags: VmmFlags): Region
    requires at < |rs|
  {
    Region(node, End(rs[at]), AlignUp(amount), flags)
  }

  /** Inserting in a qualifying gap keeps the regions apart, whatever the amount, also an amount of 0. */
  lemma InsertKeepsSorted(rs: seq<Region>, at: nat, node: nat, amount: nat, flags: VmmFlags)
    requires Sorted(rs) && at + 1 < |rs| && Qualifies(rs, at, amount)
    ensures Sorted(Insert(rs, at, RegionBehind(rs, at, node, amount, flags)))
  {
    var g := RegionBehind(rs, at, node, amount, flags);
    assert Aligned(rs[at]);
    SumAligned(rs[at].base, rs[at].length);
    var rs' := Insert(rs, at, g);
    forall i | 0 <= i < |rs'|
      ensures Aligned(rs'[i]) && (i + 1 < |rs'| ==> Before(rs', i))
    {
      if i <= at {
        assert rs'[i] == rs[i] && Aligned(rs[i]);
        assert i < at ==> Before(rs, i) && rs'[i + 1] == rs[i + 1];
      } else if i == at + 1 {
        assert rs'[i] == g && rs'[i + 1] == rs[i];
      } else {
        assert rs'[i] == rs[i - 1] && Aligned(rs[i - 1]);
        if i + 1 < |rs'| {
          assert Before(rs, i - 1) && rs'[i + 1] == rs[i];
        }
      }
    }
  }

  lemma SumAligned(a: nat, b: nat)
    requires a % 4096 == 0 && b % 4096 == 0
    ensures (a + b) % 4096 == 0
  {
  }

  /** An insertion keeps bases in rising order exactly when the region in front of the gap is not empty. */
  lemma InsertRisesIff(rs: seq<Region>, at: nat, node: nat, amount: nat, flags: VmmFlags)
    requires Rising(rs) && at + 1 < |rs| && Qualifies(rs, at, amount)
    ensures Rising(Insert(rs, at, RegionBehind(rs, at, node, amount, flags))) <==> rs[at].length > 0
  {
    var g := RegionBehind(rs, at, node, amount, flags);
    var rs' := Insert(rs, at, g);
    assert rs'[at] == rs[at] && rs'[at + 1] == g;
    if rs[at].length > 0 {
      forall i, j | 0 <= i < j < |rs'|
        ensures rs'[i].base < rs'[j].base
      {
        assert forall k :: 0 <= k < |rs'| ==>
                             rs'[k] == if k <= at then rs[k] else if k == at + 1 then g else rs[k - 1];
      }
    }
  }

  ghost predicate Lowest(rs: seq<Region>, at: nat, amount: nat) {
    at + 1 < |rs| && Qualifies(rs, at, amount) && forall i :: 0 <= i < at ==> !Qualifies(rs, i, amount)
  }

  /** The first region at `base` is region `i`: the one `vmm_dealloc` finds. */
  ghost predicate FoundAt(rs: seq<Region>, base: nat, i: nat) {
    i < |rs| && rs[i].base == base && forall j :: 0 <= j < i ==> rs[j].base != base
  }

  /** Behind an empty region the next allocation of the same gap finds its place. */
  lemma NextBehindEmpty(rs: seq<Region>, at: nat, n: nat, amount: nat, flags: VmmFlags)
    requires Lowest(rs, at, 0) && Qualifies(rs, at, amount)
    ensures Lowest(Insert(rs, at, RegionBehind(rs, at, n, 0, flags)), at + 1, amount)
  {
    var once := Insert(rs, at, RegionBehind(rs, at, n, 0, flags));
    assert once[at] == rs[at] && once[at + 1] == RegionBehind(rs, at, n, 0, flags) && once[at + 2] == rs[at + 1];
    assert Qualifies(once, at + 1, amount) && !Qualifies(once, at, amount);
    forall i | 0 <= i < at
      ensures !Qualifies(once, i, amount)
    {
      assert once[i] == rs[i] && once[i + 1] == rs[i + 1] && !Qualifies(rs, i, 0);
    }
  }

  /** A region inserted behind an empty one repeats its base, and `vmm_dealloc` of that base finds the empty one. */
  lemma BehindEmpty(rs: seq<Region>, at: nat, m: nat, amount: nat, flags: VmmFlags)
    requires Rising(rs) && at + 1 < |rs| && Qualifies(rs, at, amount) && rs[at].length == 0
    ensures var g := RegionBehind(rs, at, m, amount, flags);
            var rs' := Insert(rs, at, g);
            !Rising(rs') && rs'[at + 1] == g && FoundAt(rs', g.base, at)
  {
    InsertRisesIff(rs, at, m, amount, flags);
    var rs' := Insert(rs, at, RegionBehind(rs, at, m, amount, flags));
    assert forall j :: 0 <= j <= at ==> rs'[j] == rs[j];
  }

  /**
   The failing case: `vmm_alloc(0, _)`, then any allocation the same gap can hold.  The second region gets the base
   of the first, and `vmm_dealloc` of that base finds the empty one.
   */
  lemma EmptyRegionSharesBase(rs: seq<Region>, at: nat, n: nat, m: nat, amount: nat, flags: VmmFlags)
    requires Ordered(rs) && Lowest(rs, at, 0) && Qualifies(rs, at, amount)
    ensures var once := Insert(rs, at, RegionBehind(rs, at, n, 0, flags));
            && Sorted(once) && Rising(once) && Lowest(once, at + 1, amount)
            && var g := RegionBehind(once, at + 1, m, amount, flags);
               var twice := Insert(once, at + 1, g);
               Sorted(twice) && !Rising(twice) && twice[at + 2] == g && FoundAt(twice, g.base, at + 1)
  {
    OrderedMeans(rs);
    assert Whole(rs[at]);
    InsertKeepsSorted(rs, at, n, 0, flags);
    InsertRisesIff(rs, at, n, 0, flags);
    NextBehindEmpty(rs, at, n, amount, flags);
    var once := Insert(rs, at, RegionBehind(rs, at, n, 0, flags));
    assert once[at + 1].length == 0;
    InsertKeepsSorted(once, at + 1, m, amount, flags);
    BehindEmpty(once, at + 1, m, amount, flags);
  }

  lemma OrderedMeans(rs: seq<Region>)
    requires Ordered(rs)
    ensures Sorted(rs) && Rising(rs)
  {
    forall i | 0 <= i < |rs|
      ensures Aligned(rs[i])
    {
      assert Whole(rs[i]);
    }
    forall i, j | 0 <= i < j < |rs|
      ensures rs[i].base < rs[j].base
    {
      InOrder(rs, i, j);
    }
  }

  /** Non-empty allocations only: all of it is kept, and no region is empty. */
  lemma InsertKeepsOrder(rs: seq<Region>, at: nat, node: nat, amount: nat, flags: VmmFlags)
    requires Ordered(rs) && at + 1 < |rs| && Qualifies(rs, at, amount) && amount > 0
    ensures Ordered(Insert(rs, at, RegionBehind(rs, at, node, amount, flags)))
  {
    OrderedMeans(rs);
    InsertKeepsSorted(rs, at, node, amount, flags);
    var rs' := Insert(rs, at, RegionBehind(rs, at, node, amount, flags));
    forall i | 0 <= i < |rs'|
      ensures Whole(rs'[i])
    {
      assert Aligned(rs'[i]);
      assert i <= at ==> rs'[i] == rs[i] && Whole(rs[i]);
      assert i > at + 1 ==> rs'[i] == rs[i - 1] && Whole(rs[i - 1]);
    }
  }

  /** Removing any region between the first and the last keeps the list in order. */
  lemma RemoveKeepsOrder(rs: seq<Region>, k: nat)
    requires Ordered(rs) && 0 < k < |rs| - 1
    ensures Ordered(Remove(rs, k))
  {
    var rs' := Remove(rs, k);
    InOrder(rs, k - 1, k);
    InOrder(rs, k - 1, k + 1);
    assert Whole(rs[k]);
    forall i | 0 <= i < |rs'|
      ensures Whole(rs'[i]) && (i + 1 < |rs'| ==> Before(rs', i))
    {
      if i < k {
        assert rs'[i] == rs[i] && Whole(rs[i]);
        assert i < k - 1 ==> Before(rs, i) && rs'[i + 1] == rs[i + 1];
      } else {
        assert rs'[i] == rs[i + 1] && Whole(rs[i + 1]);
        assert i + 1 < |rs'| ==> Before(rs, i + 1) && rs'[i + 1] == rs[i + 2];
      }
    }
  }
}
