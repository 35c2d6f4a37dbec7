/**
 The x86-64 page-table code: `get_table`, `map4kib` and `unmap`, and what they mean to the
 hardware's own 4-level walk.
 */
module X86Paging {
  import opened Memory
  import opened PhysicalMemory
  import opened TableTree
  import opened PageTables
  import opened X86Hardware
  import opened X86Entries

  /** The table index of `virt` at a level; level 4 is the root. */
  function Index(virt: nat, lvl: nat): (i: nat)
    requires 1 <= lvl <= 4
    ensures i < 512
  {
    (match lvl
     case 4 => virt / 0x80_0000_0000
     case 3 => virt / 0x4000_0000
     case 2 => virt / 0x20_0000
     case _ => virt / 0x1000) % 512
  }

  /** Bits 12 to 47 of an address: the page it lies in, as far as 4-level tables can tell. */
  function PageNumber(virt: nat): nat {
    virt / 4096 % 0x10_0000_0000
  }

  /** The indices the code computes from an address are the digits of its page number. */
  lemma IndexIsDigit(virt: nat, lvl: nat)
    requires 1 <= lvl <= 4
    ensures Index(virt, lvl) == Digit(X86, PageNumber(virt), 4 - lvl)
    ensures IsLeaf(X86, PageNumber(virt))
  {
    var n := PageNumber(virt);
    AboveTwo(n);
    PageDigits(virt / 4096);
    assert virt / 0x20_0000 == virt / 4096 / 512;
    assert virt / 0x4000_0000 == virt / 4096 / 0x4_0000;
    assert virt / 0x80_0000_0000 == virt / 4096 / 0x800_0000;
  }

  lemma AboveTwo(n: nat)
    ensures Above(n, 0) == n && Above(n, 1) == n / 512 && Above(n, 2) == n / 0x4_0000
    ensures Above(n, 3) == n / 0x800_0000 && Above(n, 4) == n / 0x10_0000_0000
  {
    assert Above(n, 1) == n / 512;
    assert Above(n, 2) == n / 512 / 512;
    assert Above(n, 3) == n / 512 / 512 / 512;
    assert n / 0x4_0000 == n / 512 / 512;
    assert n / 0x800_0000 == n / 512 / 512 / 512;
    assert n / 0x10_0000_0000 == n / 512 / 512 / 512 / 512;
  }

  lemma PageDigits(k: nat)
    ensures var n := k % 0x10_0000_0000;
            && n % 512 == k % 512 && n / 512 % 512 == k / 512 % 512
            && n / 0x4_0000 % 512 == k / 0x4_0000 % 512 && n / 0x800_0000 % 512 == k / 0x800_0000 % 512
  {
    var n, h := k % 0x10_0000_0000, k / 0x10_0000_0000;
    DigitAbove(k, n, h, 1, 0x800_0000);
    DigitAbove(k, n, h, 512, 0x4_0000);
    DigitAbove(k, n, h, 0x4_0000, 512);
    DigitAbove(k, n, h, 0x800_0000, 1);
  }

  /** A base-512 digit does not depend on what is added above it. */
  lemma DigitAbove(k: nat, n: nat, h: nat, unit: nat, rest: nat)
    requires unit > 0 && k == unit * (512 * (rest * h)) + n
    ensures k / unit % 512 == n / unit % 512
  {
    var q := n / unit;
    DivUnique(k, unit, 512 * (rest * h) + q, n % unit);
  }

  // ---- the hardware's walk ----

  lemma {:induction false} WalkFromTable(mem: Mem, root: nat, t: Tree, virt: nat, lvl: nat)
    requires TreeOk(X86, mem, root, t) && 1 <= lvl <= 4
    requires TableOf(X86, PageNumber(virt), 4 - lvl) in t.frameAt
    ensures Walk(mem, t.frameAt[TableOf(X86, PageNumber(virt), 4 - lvl)], virt, lvl, 1, 1, 0)
            == LeafMeaning(LeafWord(X86, mem, t, PageNumber(virt)))
    decreases lvl
  {
    SlotFacts(mem, root, t, virt, 4 - lvl);
    if lvl > 1 {
      var child := TableOf(X86, PageNumber(virt), 5 - lvl);
      if child in t.frameAt {
        TablePointer(t.frameAt[child], lvl);
        WalkFromTable(mem, root, t, virt, lvl - 1);
      } else {
        assert !Present(0);
      }
    }
  }

  /** The hardware sees exactly the leaf word of the tree: nothing on the way restricts it. */
  lemma TranslateIsLeaf(mem: Mem, root: nat, t: Tree, virt: nat)
    requires TreeOk(X86, mem, root, t)
    ensures Translate(mem, root, virt) == LeafMeaning(LeafWord(X86, mem, t, PageNumber(virt)))
  {
    IndexIsDigit(virt, 4);
    WalkFromTable(mem, root, t, virt, 4);
  }

  // ---- get_table, map4kib, unmap ----

  /** A table entry: its table's frame and its index there. */
  datatype Slot = Slot(table: nat, index: nat)

  /** `next` with the flag bits and bit 63 masked off, as a frame. */
  function NextTable(next: nat): nat {
    next % NX_BIT / 4096
  }

  datatype Outcome = Found | NotThere | Below(table: nat)

  /**
   The slot of the leaf entry of `virt`.  With `alloc`, missing tables are added on the way, each
   on a zeroed frame from the free list; without, a missing table is an error and nothing changes.
   */
  method GetTable(r0: Ram, root: nat, virt: nat, alloc: bool, ghost s0: Stock)
    returns (slot: Option<Slot>, r: Ram, ghost s: Stock)
    requires TablesOk(X86, r0, root, s0)
    requires alloc ==> Missing(X86, s0.tree.nodes, PageNumber(virt), 0) <= |s0.free|
    ensures Tables(X86, r, root, s)
    ensures slot.Some? <==> alloc || LastTable(X86, PageNumber(virt)) in s0.tree.frameAt
    ensures slot.Some? ==> slot.value.index == Index(virt, 1)
    ensures slot.Some? ==> At(X86, s0, s, PageNumber(virt), 3, slot.value.table)
    ensures !alloc ==> s == s0 && r == r0
  {
    var table := root;
    var j := 4;
    r, s := r0, s0;
    IndexIsDigit(virt, 4);
    LastTableIsOnTheWay(X86, PageNumber(virt));
    WalkStart(X86, s0, PageNumber(virt));
    while true
      invariant 1 <= j <= 4
      invariant Tables(X86, r, root, s) && At(X86, s0, s, PageNumber(virt), 4 - j, table)
      invariant !alloc ==> s == s0 && r == r0
      decreases j
    {
      var o;
      o, r, s := LevelStep(r, virt, j, table, alloc, root, s, s0);
      match o {
        case Found => return Some(Slot(table, Index(virt, j))), r, s;
        case NotThere => return None, r, s;
        case Below(t) =>
          table := t;
          j := j - 1;
      }
    }
  }

  /** One iteration of `get_table`: stop at a leaf, give up, or go down, allocating if need be. */
  method LevelStep(r0: Ram, virt: nat, j: nat, table: nat, alloc: bool,
                   ghost root: nat, ghost s0: Stock, ghost start: Stock)
    returns (o: Outcome, r: Ram, ghost s: Stock)
    requires Tables(X86, r0, root, s0) && 1 <= j <= 4
    requires At(X86, start, s0, PageNumber(virt), 4 - j, table)
    requires alloc ==> Missing(X86, start.tree.nodes, PageNumber(virt), 0) <= |start.free|
    ensures Tables(X86, r, root, s)
    ensures o.Found? <==> j == 1
    ensures o.Found? ==> s == s0 && r == r0 && LastTable(X86, PageNumber(virt)) in s0.tree.frameAt
    ensures o.NotThere? ==> !alloc && LastTable(X86, PageNumber(virt)) !in s0.tree.frameAt
    ensures o.Below? ==> At(X86, start, s, PageNumber(virt), 5 - j, o.table)
    ensures !alloc ==> s == s0 && r == r0
  {
    SlotAt(r0, root, s0, start, virt, j, table);
    var next := r0.mem[table][Index(virt, j)];
    var perm := Decode(next, j);
    r, s := r0, s0;
    if perm.megapage == 1 || perm.gigapage == 1 || j == 1 {
      return Found, r, s;
    }
    if next == 0 && !alloc {
      return NotThere, r, s;
    }
    ghost var n, d, t := PageNumber(virt), 4 - j, 0;
    r, s, t := FillIn(X86, r, table, Index(virt, j), next == 0, root, s, n, d, start);
    next := r.mem[table][Index(virt, j)];
    TablePointer(t, j);
    o := Below(NextTable(next));
  }

  lemma SlotAt(r: Ram, root: nat, s: Stock, start: Stock, virt: nat, j: nat, table: nat)
    requires Tables(X86, r, root, s) && 1 <= j <= 4
    requires At(X86, start, s, PageNumber(virt), 4 - j, table)
    ensures table in r.mem && Index(virt, j) == Digit(X86, PageNumber(virt), 4 - j)
    ensures j == 1 ==> LastTable(X86, PageNumber(virt)) in s.tree.frameAt
    ensures var e := r.mem[table][Index(virt, j)];
            j > 1 ==>
              && Decode(e, j).megapage == 0 && Decode(e, j).gigapage == 0
              && (e == 0 <==> TableOf(X86, PageNumber(virt), 5 - j) !in s.tree.frameAt)
              && (e == 0 ==> LastTable(X86, PageNumber(virt)) !in s.tree.frameAt)
  {
    assert Open(0);
    SlotFacts(s.mem, root, s.tree, virt, 4 - j);
  }

  /** `map4kib` as a whole: tables added on the way to the page, and one leaf written. */
  ghost predicate Mapped(a: Stock, b: Stock, virt: nat, w: nat) {
    && Grown(X86, a, b, PageNumber(virt), 3)
    && |a.free| == |b.free| + Missing(X86, a.tree.nodes, PageNumber(virt), 0)
    && LastTable(X86, PageNumber(virt)) in b.tree.frameAt
    && LeafSet(X86, a, b, PageNumber(virt), w)
  }

  /**
   Afterwards the hardware translates the page of `virt` to the frame of `phys` with the flags
   asked for, and every page that differs in bits 12 to 47 as before: see `MapChangesOnePage`.
   */
  method Map4kib(r0: Ram, root: nat, virt: nat, phys: nat, flags: Flags, ghost s0: Stock)
    returns (ok: bool, r: Ram, ghost s: Stock)
    requires TablesOk(X86, r0, root, s0)
    requires Missing(X86, s0.tree.nodes, PageNumber(virt), 0) <= |s0.free|
    ensures ok && TablesOk(X86, r, root, s)
    ensures Mapped(s0, s, virt, LeafEntry(phys, flags))
  {
    var answer;
    answer, r, s := GetTable(r0, root, virt, true, s0);
    assert Open(0);
    if answer.None? {
      return false, r, s;
    }
    var slot, w := answer.value, LeafEntry(phys, flags);
    ghost var b := s;
    SlotFacts(s.mem, root, s.tree, virt, 3);
    WriteKeeps(X86, r, root, s, PageNumber(virt), w);
    r := r.(mem := SetWord(r.mem, slot.table, slot.index, w));
    s := s.(mem := r.mem);
    MappedByWrite(s0, b, s, virt, w, slot.table);
    ok := true;
  }

  lemma MappedByWrite(a: Stock, b: Stock, c: Stock, virt: nat, w: nat, table: nat)
    requires Reached(X86, a, b, PageNumber(virt), 3, table) && NoSharing(b.tree)
    requires table in b.mem && c == b.(mem := SetWord(b.mem, table, Index(virt, 1), w))
    requires LeafSet(X86, b, c, PageNumber(virt), w)
    ensures Mapped(a, c, virt, w)
  {
    LastTableIsOnTheWay(X86, PageNumber(virt));
  }

  /** The promise of `map4kib` and `unmap` in terms of the hardware walk. */
  lemma MapChangesOnePage(a: Stock, b: Stock, root: nat, virt: nat, w: nat, v: nat)
    requires TreeOk(X86, a.mem, root, a.tree) && TreeOk(X86, b.mem, root, b.tree)
    requires LeafSet(X86, a, b, PageNumber(virt), w)
    ensures Translate(b.mem, root, v) ==
            if PageNumber(v) == PageNumber(virt) then LeafMeaning(w) else Translate(a.mem, root, v)
  {
    TranslateIsLeaf(a.mem, root, a.tree, v);
    TranslateIsLeaf(b.mem, root, b.tree, v);
  }

  /** To the hardware a present leaf word is its frame with its flags, an empty word a fault. */
  lemma MeaningOfLeaf(phys: nat, f: Flags)
    ensures LeafMeaning(LeafEntry(phys, f)) == Seen(phys, f) && LeafMeaning(0) == Fault
  {
    assert Spell(0);
  }

  /** The frame `unmap` frees: whatever the leaf word names, 0 for a word that maps nothing. */
  ghost function LeafFrame(s: Stock, n: nat): nat {
    ExtractPhys(LeafWord(X86, s.mem, s.tree, n)) / 4096
  }

  /**
   Clears the leaf entry and frees the frame it names, without looking whether it is present; a page without a last
   table is left alone.  Tables and pool stay sound exactly when the leaf names a frame that can be freed.
   */
  method Unmap(r0: Ram, root: nat, virt: nat, ghost s0: Stock) returns (r: Ram, ghost s: Stock)
    requires TablesOk(X86, r0, root, s0)
    ensures LastTable(X86, PageNumber(virt)) !in s0.tree.frameAt ==> r == r0 && s == s0
    ensures LastTable(X86, PageNumber(virt)) in s0.tree.frameAt ==>
              var f := LeafFrame(s0, PageNumber(virt));
              && r == Unmapped(X86, r0, s0, PageNumber(virt), f)
              && s == Stock(r.mem, s0.tree, s0.free + {f})
              && (f in s0.mem ==> (TablesOk(X86, r, root, s) <==> Reclaimable(X86, s0, f)))
              && (Reclaimable(X86, s0, f) ==> Freed(X86, s0, s, PageNumber(virt), f))
  {
    var bro;
    bro, r, s := GetTable(r0, root, virt, false, s0);
    assert Open(0);
    if bro.None? {
      return;
    }
    SlotFacts(s.mem, root, s.tree, virt, 3);
    var slot := bro.value;
    var page := ExtractPhys(r.mem[slot.table][slot.index]) / 4096;
    r := GivePage(r, page);
    r := r.(mem := SetWord(r.mem, slot.table, slot.index, 0));
    s := Stock(r.mem, s0.tree, s0.free + {page});
    UnmapFacts(r0, root, s0, PageNumber(virt), page);
  }

  lemma UnmapFacts(r0: Ram, root: nat, s0: Stock, n: nat, f: nat)
    requires TablesOk(X86, r0, root, s0) && LastTable(X86, n) in s0.tree.frameAt && f < MaxFrame(X86)
    ensures var r := Unmapped(X86, r0, s0, n, f);
            var s := Stock(r.mem, s0.tree, s0.free + {f});
            && (f in s0.mem ==> (TablesOk(X86, r, root, s) <==> Reclaimable(X86, s0, f)))
            && (Reclaimable(X86, s0, f) ==> Freed(X86, s0, s, n, f))
  {
    if f in s0.mem {
      UnmapSoundIff(X86, r0, root, s0, n, f);
    }
    if Reclaimable(X86, s0, f) {
      FreedByWrite(X86, r0, root, s0, GivePage(r0, f), n, f);
    }
  }

  /** A page that is not mapped, under an existing table: `unmap` frees frame 0 and the pool is lost. */
  lemma UnmapOfUnmapped(r0: Ram, root: nat, s0: Stock, n: nat)
    requires TablesOk(X86, r0, root, s0) && LastTable(X86, n) in s0.tree.frameAt
    requires LeafWord(X86, s0.mem, s0.tree, n) == 0
    ensures var r := Unmapped(X86, r0, s0, n, LeafFrame(s0, n));
            TakePage(r).1 == Some(0) && forall free :: PoolOk(r, free) ==> free == {}
  {
    UnmapEmptyLeaf(X86, r0, root, s0, n);
  }

  /** What `get_table` reads at depth `d`: null, or a pointer at the next table on the way. */
  lemma SlotFacts(mem: Mem, root: nat, t: Tree, virt: nat, d: nat)
    requires TreeOk(X86, mem, root, t) && d < 4
    requires TableOf(X86, PageNumber(virt), d) in t.frameAt
    ensures Index(virt, 4 - d) == Digit(X86, PageNumber(virt), d)
    ensures d == 3 ==> TableOf(X86, PageNumber(virt), d) == LastTable(X86, PageNumber(virt))
                       && Index(virt, 1) == PageNumber(virt) % 512
    ensures var child := TableOf(X86, PageNumber(virt), d + 1);
            var e := mem[t.frameAt[TableOf(X86, PageNumber(virt), d)]][Index(virt, 4 - d)];
            d < 3 ==>
              && e == (if child in t.frameAt then TableEntry(X86, t.frameAt[child]) else 0)
              && Decode(e, 4 - d).megapage == 0 && Decode(e, 4 - d).gigapage == 0
              && (child in t.frameAt ==> NextTable(e) == t.frameAt[child])
              && (child !in t.frameAt ==> LastTable(X86, PageNumber(virt)) !in t.frameAt)
  {
    var n := PageNumber(virt);
    IndexIsDigit(virt, 4 - d);
    LastTableIsOnTheWay(X86, n);
    if d < 3 {
      WayDown(X86, n, d);
      assert EntryOk(X86, mem, t, TableOf(X86, n, d), Index(virt, 4 - d));
      var child := TableOf(X86, n, d + 1);
      if child in t.frameAt {
        TablePointer(t.frameAt[child], 4 - d);
      } else if LastTable(X86, n) in t.frameAt {
        UpwardClosed(X86, mem, root, t, n, d + 1, 3);
      }
    }
  }
}
