/**
 The RISC-V page-table code for Sv39, Sv48 and Sv57, for any number of levels, and what it means
 to the address translation of section 4.3.2 of the RISC-V Privileged Architecture.
 */
module RiscvPaging {
  import opened Memory
  import opened PhysicalMemory
  import opened TableTree
  import opened PageTables
  import opened RiscvHardware
  import X86Entries

  const FRAMES: nat := 0x1000_0000_0000                // the PPN field holds 2^44 frames
  const WORDS: nat := 0x1_0000_0000_0000_0000

  // ---- entries ----

  /** The `PT` flag set. */
  datatype Flags = Flags(valid: bit, read: bit, write: bit, execute: bit, user: bit, global: bit)

  function FromVmmFlags(f: X86Entries.VmmFlags): Flags {
    Flags(1, 1, f.write, f.executable, f.user, f.global)
  }

  /** `PT::new` */
  function Decode(w: nat): Flags {
    Flags(X86Entries.Bit(w, 1), X86Entries.Bit(w, 2), X86Entries.Bit(w, 4),
          X86Entries.Bit(w, 8), X86Entries.Bit(w, 16), X86Entries.Bit(w, 32))
  }

  /** `build_permissions` */
  function BuildPermissions(f: Flags): nat {
    f.valid + 2 * f.read + 4 * f.write + 8 * f.execute + 16 * f.user + 32 * f.global
  }

  function ExtractPhys(pte: nat): nat {
    pte / 1024 % FRAMES * 4096
  }

  /** The word `map4kib` writes; the shift drops what does not fit 64 bits. */
  function LeafEntry(phys: nat, f: Flags): nat {
    phys / 4096 * 1024 % WORDS + BuildPermissions(f)
  }

  /** Flags read back from any entry that carries them below bit 10. */
  lemma FlagsRoundTrip(hi: nat, f: Flags)
    ensures Decode(1024 * hi + BuildPermissions(f)) == f && BuildPermissions(f) < 64
    ensures (1024 * hi + BuildPermissions(f)) / 1024 == hi
  {
    var w := 1024 * hi + BuildPermissions(f);
    var h := 16 * hi;
    X86Entries.OneDigit(w, 32, h, f.global, 16 * f.user + 8 * f.execute + 4 * f.write + 2 * f.read + f.valid);
    X86Entries.OneDigit(w, 16, 2 * h + f.global, f.user, 8 * f.execute + 4 * f.write + 2 * f.read + f.valid);
    X86Entries.OneDigit(w, 8, 4 * h + 2 * f.global + f.user, f.execute, 4 * f.write + 2 * f.read + f.valid);
    X86Entries.OneDigit(w, 4, 8 * h + 4 * f.global + 2 * f.user + f.execute, f.write, 2 * f.read + f.valid);
    X86Entries.OneDigit(w, 2, 16 * h + 8 * f.global + 4 * f.user + 2 * f.execute + f.write, f.read, f.valid);
    X86Entries.OneDigit(w, 1, 32 * h + 16 * f.global + 8 * f.user + 4 * f.execute + 2 * f.write + f.read, f.valid, 0);
    DivUnique(w, 1024, hi, BuildPermissions(f));
  }

  /** A leaf names the frame it was built from and carries its flags. */
  lemma LeafRoundTrip(phys: nat, f: Flags)
    ensures Decode(LeafEntry(phys, f)) == f
    ensures LeafEntry(phys, f) / 1024 % FRAMES == phys / 4096 % FRAMES
  {
    var ppn := phys / 4096;
    var hi := ppn % 0x40_0000_0000_0000;
    assert ppn * 1024 % WORDS == 1024 * hi by {
      DivUnique(ppn * 1024, WORDS, ppn / 0x40_0000_0000_0000, 1024 * hi);
    }
    FlagsRoundTrip(hi, f);
    var q := ppn / 0x40_0000_0000_0000;
    assert ppn == FRAMES * (0x400 * q) + hi;
    DivUnique(ppn, FRAMES, 0x400 * q + hi / FRAMES, hi % FRAMES);
  }

  /** `extract_phys_from_pte` gives back what was mapped exactly for page-aligned addresses below 2^56. */
  lemma ExtractInvertsIff(phys: nat, f: Flags)
    ensures ExtractPhys(LeafEntry(phys, f)) == phys <==> phys % 4096 == 0 && phys < 0x100_0000_0000_0000
  {
    LeafRoundTrip(phys, f);
    MaskedIff(phys);
  }

  lemma MaskedIff(phys: nat)
    ensures phys / 4096 % FRAMES * 4096 == phys <==> phys % 4096 == 0 && phys < 0x100_0000_0000_0000
  {
    var p := phys / 4096;
    assert phys == 4096 * p + phys % 4096;
    assert p % FRAMES == p <==> p < FRAMES;
  }

  /** A pointer at a table is valid and nothing else, so it never looks like a leaf. */
  lemma TablePointer(frame: nat)
    requires frame < FRAMES
    ensures Decode(1024 * frame + 1) == Flags(1, 0, 0, 0, 0, 0)
    ensures ExtractPhys(1024 * frame + 1) / 4096 == frame && (1024 * frame + 1) / 1024 % FRAMES == frame
  {
    FlagsRoundTrip(frame, Flags(1, 0, 0, 0, 0, 0));
  }

  // ---- addresses ----

  function Pow2(k: nat): (p: nat)
    ensures p > 0
  {
    if k == 0 then 1 else 2 * Pow2(k - 1)
  }

  /** The table index of `virt` at a level; level 0 holds the leaves. */
  function Index(virt: nat, level: nat): (i: nat)
    ensures i < 512
  {
    virt / Pow2(12 + 9 * level) % 512
  }

  /** The lowest `k` base-512 digits of `x`. */
  ghost function Low(x: nat, k: nat): nat {
    if k == 0 then 0 else 512 * Low(x / 512, k - 1) + x % 512
  }

  /** The digits of an address that a tree of `levels` levels looks at. */
  ghost function PageNumber(virt: nat, levels: nat): nat {
    Low(virt / 4096, levels)
  }

  lemma DivDiv(x: nat, a: nat, b: nat)
    requires a > 0 && b > 0
    ensures a * b > 0 && x / (a * b) == x / a / b
  {
    var q, r := x / a, x % a;
    var q', r' := q / b, q % b;
    assert x == a * q + r;
    assert q == b * q' + r';
    Expand(a, b, q', r');
    Grow(a, r', b - 1);
    Expand(a, b, 1, 0);
    Positive(a, b);
    DivUnique(x, a * b, q', a * r' + r);
  }

  lemma Expand(a: nat, b: nat, q: nat, r: nat)
    ensures a * (b * q + r) == a * b * q + a * r
    ensures b > 0 ==> a * (b - 1) == a * b - a
  {
  }

  lemma Positive(a: nat, b: nat)
    requires a > 0 && b > 0
    ensures a * b > 0
  {
  }

  lemma Grow(a: nat, r: nat, s: nat)
    requires r <= s
    ensures a * r <= a * s
  {
  }

  lemma {:induction false} Pow2Nine(k: nat)
    ensures Pow2(k + 9) == Pow2(k) * 512
  {
    assert Pow2(k + 9) == 2 * Pow2(k + 8);
    assert Pow2(k + 8) == 2 * Pow2(k + 7);
    assert Pow2(k + 7) == 2 * Pow2(k + 6);
    assert Pow2(k + 6) == 2 * Pow2(k + 5);
    assert Pow2(k + 5) == 2 * Pow2(k + 4);
    assert Pow2(k + 4) == 2 * Pow2(k + 3);
    assert Pow2(k + 3) == 2 * Pow2(k + 2);
    assert Pow2(k + 2) == 2 * Pow2(k + 1);
  }

  /** Shifting an address is taking digits off its page number. */
  lemma {:induction false} ShiftIsAbove(virt: nat, level: nat)
    ensures virt / Pow2(12 + 9 * level) == Above(virt / 4096, level)
  {
    if level == 0 {
      assert Pow2(12) == 4096 by {
        Pow2Nine(3);
        assert Pow2(3) == 2 * Pow2(2) && Pow2(2) == 2 * Pow2(1) && Pow2(1) == 2 * Pow2(0);
      }
    } else {
      var k := 12 + 9 * (level - 1);
      ShiftIsAbove(virt, level - 1);
      Pow2Nine(k);
      DivDiv(virt, Pow2(k), 512);
    }
  }

  lemma {:induction false} AboveShift(x: nat, k: nat)
    requires k > 0
    ensures Above(x, k) == Above(x / 512, k - 1)
  {
    if k > 1 {
      AboveShift(x, k - 1);
    }
  }

  lemma {:induction false} LowDigits(x: nat, levels: nat, k: nat)
    requires k <= levels
    ensures k < levels ==> Above(Low(x, levels), k) % 512 == Above(x, k) % 512
    ensures Above(Low(x, levels), levels) == 0
    decreases levels
  {
    if levels > 0 {
      var n := Low(x, levels);
      assert n / 512 == Low(x / 512, levels - 1) && n % 512 == x % 512;
      LowDigits(x / 512, levels - 1, if k == 0 then 0 else k - 1);
      AboveShift(n, levels);
      if k > 0 {
        AboveShift(n, k);
        AboveShift(x, k);
      }
    }
  }

  /** The indices the code computes are the digits of the page number. */
  lemma IndexIsDigit(virt: nat, levels: nat, level: nat)
    requires level < levels
    ensures Index(virt, level) == Digit(RiscV(levels), PageNumber(virt, levels), levels - 1 - level)
    ensures IsLeaf(RiscV(levels), PageNumber(virt, levels))
  {
    ShiftIsAbove(virt, level);
    LowDigits(virt / 4096, levels, level);
  }

  /** So are those the hart takes. */
  lemma {:induction false} VpnIsAbove(x: nat, level: nat)
    ensures Vpn(x, level) == Above(x, level) % 512
  {
    if level > 0 {
      VpnIsAbove(x / 512, level - 1);
      AboveShift(x, level);
    }
  }

  lemma SameIndex(virt: nat, level: nat)
    ensures Index(virt, level) == Vpn(virt / 4096, level)
  {
    ShiftIsAbove(virt, level);
    VpnIsAbove(virt / 4096, level);
  }

  // ---- the hardware's walk ----

  /** `PT::new` reads the bits where the hart does. */
  lemma DecodeIsHardware(w: nat)
    ensures var f := Decode(w);
            (f.valid == 1 <==> Valid(w)) && Access(f.read, f.write, f.execute, f.user, f.global) == Rights(w)
  {
  }

  /** What the walk reads at a level above the leaves: null, or a pointer at the next table on the way. */
  lemma SlotFacts(mem: Mem, root: nat, t: Tree, virt: nat, levels: nat, level: nat)
    requires TreeOk(RiscV(levels), mem, root, t) && level < levels
    requires TableOf(RiscV(levels), PageNumber(virt, levels), levels - 1 - level) in t.frameAt
    ensures var n, d := PageNumber(virt, levels), levels - 1 - level;
            && Index(virt, level) == Digit(RiscV(levels), n, d)
            && (level == 0 ==> TableOf(RiscV(levels), n, d) == LastTable(RiscV(levels), n) && Index(virt, 0) == n % 512)
            && (level > 0 ==>
                 var child := TableOf(RiscV(levels), n, d + 1);
                 var e := mem[t.frameAt[TableOf(RiscV(levels), n, d)]][Index(virt, level)];
                 && e == (if child in t.frameAt then TableEntry(RiscV(levels), t.frameAt[child]) else 0)
                 && (child in t.frameAt ==>
                       Decode(e) == Flags(1, 0, 0, 0, 0, 0) && e / 1024 % FRAMES == t.frameAt[child])
                 && (child !in t.frameAt ==>
                       Decode(e) == Flags(0, 0, 0, 0, 0, 0) && LastTable(RiscV(levels), n) !in t.frameAt))
  {
    var fmt, n, d := RiscV(levels), PageNumber(virt, levels), levels - 1 - level;
    IndexIsDigit(virt, levels, level);
    LastTableIsOnTheWay(fmt, n);
    if level > 0 {
      WayDown(fmt, n, d);
      assert EntryOk(fmt, mem, t, TableOf(fmt, n, d), Index(virt, level));
      var child := TableOf(fmt, n, d + 1);
      if child in t.frameAt {
        TablePointer(t.frameAt[child]);
      } else if LastTable(fmt, n) in t.frameAt {
        UpwardClosed(fmt, mem, root, t, n, d + 1, levels - 1);
      }
    }
  }

  /** The hardware sees exactly the leaf word of the tree. */
  lemma {:induction false} WalkIsLeaf(mem: Mem, root: nat, t: Tree, virt: nat, levels: nat, level: nat)
    requires TreeOk(RiscV(levels), mem, root, t) && level < levels
    requires TableOf(RiscV(levels), PageNumber(virt, levels), levels - 1 - level) in t.frameAt
    ensures Walk(mem, t.frameAt[TableOf(RiscV(levels), PageNumber(virt, levels), levels - 1 - level)], virt, level)
            == LeafMeaning(LeafWord(RiscV(levels), mem, t, PageNumber(virt, levels)))
    decreases level
  {
    SlotFacts(mem, root, t, virt, levels, level);
    SameIndex(virt, level);
    if level > 0 {
      var table := t.frameAt[TableOf(RiscV(levels), PageNumber(virt, levels), levels - 1 - level)];
      DecodeIsHardware(mem[table][Index(virt, level)]);
      var child := TableOf(RiscV(levels), PageNumber(virt, levels), levels - level);
      if child in t.frameAt {
        WalkIsLeaf(mem, root, t, virt, levels, level - 1);
      }
    }
  }

  lemma TranslateIsLeaf(mem: Mem, root: nat, t: Tree, virt: nat, levels: nat)
    requires TreeOk(RiscV(levels), mem, root, t) && levels > 0
    ensures Walk(mem, root, virt, levels - 1) == LeafMeaning(LeafWord(RiscV(levels), mem, t, PageNumber(virt, levels)))
  {
    IndexIsDigit(virt, levels, levels - 1);
    WalkIsLeaf(mem, root, t, virt, levels, levels - 1);
  }

  // ---- get_table ----

  datatype Slot = Slot(table: nat, index: nat)

  datatype Outcome = Found | NotThere | Below(table: nat)

  /** The slot of the leaf entry of `virt`; with `alloc`, missing tables are added on the way. */
  method GetTable(r0: Ram, root: nat, virt: nat, levels: nat, alloc: bool, ghost s0: Stock)
    returns (slot: Option<Slot>, r: Ram, ghost s: Stock)
    requires TablesOk(RiscV(levels), r0, root, s0)
    requires alloc ==> Missing(RiscV(levels), s0.tree.nodes, PageNumber(virt, levels), 0) <= |s0.free|
    ensures Tables(RiscV(levels), r, root, s)
    ensures slot.Some? <==> alloc || LastTable(RiscV(levels), PageNumber(virt, levels)) in s0.tree.frameAt
    ensures slot.Some? ==> slot.value.index == Index(virt, 0)
    ensures slot.Some? ==> At(RiscV(levels), s0, s, PageNumber(virt, levels), levels - 1, slot.value.table)
    ensures !alloc || LastTable(RiscV(levels), PageNumber(virt, levels)) in s0.tree.frameAt ==> s == s0 && r == r0
  {
    ghost var fmt, n := RiscV(levels), PageNumber(virt, levels);
    var table, level := root, levels - 1;
    r, s := r0, s0;
    IndexIsDigit(virt, levels, levels - 1);
    WalkStart(fmt, s0, n);
    ghost var d := 0;
    while true
      invariant 0 <= level < levels && d == levels - 1 - level
      invariant Tables(fmt, r, root, s) && At(fmt, s0, s, n, d, table)
      invariant !alloc || LastTable(fmt, n) in s0.tree.frameAt ==> s == s0 && r == r0
      decreases level
    {
      var o;
      o, r, s, d := LevelStep(r, virt, levels, level, table, alloc, root, s, s0, d);
      match o {
        case Found => return Some(Slot(table, Index(virt, level))), r, s;
        case NotThere => return None, r, s;
        case Below(t) =>
          table := t;
          level := level - 1;
      }
    }
  }

  /** One iteration of `get_table`. */
  method LevelStep(r0: Ram, virt: nat, levels: nat, level: nat, table: nat, alloc: bool,
                   ghost root: nat, ghost s0: Stock, ghost start: Stock, ghost d: nat)
    returns (o: Outcome, r: Ram, ghost s: Stock, ghost d': nat)
    requires level < levels && d == levels - 1 - level && Tables(RiscV(levels), r0, root, s0)
    requires At(RiscV(levels), start, s0, PageNumber(virt, levels), d, table)
    requires alloc ==> Missing(RiscV(levels), start.tree.nodes, PageNumber(virt, levels), 0) <= |start.free|
    ensures Tables(RiscV(levels), r, root, s)
    ensures o.Found? <==> level == 0
    ensures o.Found? ==> s == s0 && r == r0 && LastTable(RiscV(levels), PageNumber(virt, levels)) in s0.tree.frameAt
    ensures o.NotThere? ==> !alloc && LastTable(RiscV(levels), PageNumber(virt, levels)) !in s0.tree.frameAt
    ensures o.Below? ==> d' == d + 1 && At(RiscV(levels), start, s, PageNumber(virt, levels), d', o.table)
    ensures !o.Below? ==> d' == d
    ensures !alloc || LastTable(RiscV(levels), PageNumber(virt, levels)) in s0.tree.frameAt ==> s == s0 && r == r0
  {
    var fmt := RiscV(levels);
    ghost var n := PageNumber(virt, levels);
    d' := d;
    SlotAt(r0, root, s0, start, virt, levels, level, table);
    var i := Index(virt, level);
    var data := r0.mem[table][i];
    var perm := Decode(data);
    r, s := r0, s0;
    if level == 0 || ((perm.read == 1 || perm.write == 1 || perm.execute == 1) && perm.valid == 1) {
      return Found, r, s, d';
    }
    if perm.valid == 0 && !alloc {
      return NotThere, r, s, d';
    }
    ghost var t;
    r, s, t := FillIn(fmt, r, table, i, perm.valid == 0, root, s, n, d, start);
    TablePointer(t);
    o := Below(ExtractPhys(r.mem[table][i]) / 4096);
    d' := d + 1;
  }

  lemma SlotAt(r: Ram, root: nat, s: Stock, start: Stock, virt: nat, levels: nat, level: nat, table: nat)
    requires level < levels && Tables(RiscV(levels), r, root, s)
    requires At(RiscV(levels), start, s, PageNumber(virt, levels), levels - 1 - level, table)
    ensures table in r.mem && Index(virt, level) == Digit(RiscV(levels), PageNumber(virt, levels), levels - 1 - level)
    ensures levels > 1
    ensures level == 0 ==> LastTable(RiscV(levels), PageNumber(virt, levels)) in s.tree.frameAt
    ensures level > 0 ==>
              var f := Decode(r.mem[table][Index(virt, level)]);
              && f.read == 0 && f.write == 0 && f.execute == 0
              && (f.valid == 0 <==> TableOf(RiscV(levels), PageNumber(virt, levels), levels - level) !in s.tree.frameAt)
              && (f.valid == 0 ==> LastTable(RiscV(levels), PageNumber(virt, levels)) !in s.tree.frameAt)
  {
    assert Open(0);
    SlotFacts(s.mem, root, s.tree, virt, levels, level);
  }

  // ---- map4kib, unmap4kib ----

  /** `map4kib` as a whole: tables added on the way to the page, and one leaf written. */
  ghost predicate Mapped(fmt: Format, a: Stock, b: Stock, n: nat, w: nat)
    requires Levels(fmt) > 0
  {
    && Grown(fmt, a, b, n, Levels(fmt) - 1)
    && |a.free| == |b.free| + Missing(fmt, a.tree.nodes, n, 0)
    && LastTable(fmt, n) in b.tree.frameAt && LeafSet(fmt, a, b, n, w)
  }

  method Map4kib(r0: Ram, root: nat, levels: nat, virt: nat, phys: nat, flags: Flags, ghost s0: Stock)
    returns (ok: bool, r: Ram, ghost s: Stock)
    requires TablesOk(RiscV(levels), r0, root, s0)
    requires Missing(RiscV(levels), s0.tree.nodes, PageNumber(virt, levels), 0) <= |s0.free|
    ensures ok && TablesOk(RiscV(levels), r, root, s)
    ensures Mapped(RiscV(levels), s0, s, PageNumber(virt, levels), LeafEntry(phys, flags))
  {
    var answer;
    answer, r, s := GetTable(r0, root, virt, levels, true, s0);
    assert Open(0);
    if answer.None? {
      return false, r, s;
    }
    var slot, w := answer.value, LeafEntry(phys, flags);
    ghost var b := s;
    SlotFacts(s.mem, root, s.tree, virt, levels, 0);
    WriteKeeps(RiscV(levels), r, root, s, PageNumber(virt, levels), w);
    r := r.(mem := SetWord(r.mem, slot.table, slot.index, w));
    s := s.(mem := r.mem);
    MappedByWrite(RiscV(levels), s0, b, s, PageNumber(virt, levels), w, slot.table);
    ok := true;
  }

  lemma MappedByWrite(fmt: Format, a: Stock, b: Stock, c: Stock, n: nat, w: nat, table: nat)
    requires Levels(fmt) > 0 && Reached(fmt, a, b, n, Levels(fmt) - 1, table) && NoSharing(b.tree)
    requires table in b.mem && c == b.(mem := SetWord(b.mem, table, n % 512, w))
    requires LeafSet(fmt, b, c, n, w)
    ensures Mapped(fmt, a, c, n, w)
  {
    LastTableIsOnTheWay(fmt, n);
  }

  /** The promise of `map4kib` and `unmap4kib` in terms of the hardware walk. */
  lemma MapChangesOnePage(a: Stock, b: Stock, root: nat, levels: nat, virt: nat, w: nat, v: nat)
    requires levels > 0 && TreeOk(RiscV(levels), a.mem, root, a.tree) && TreeOk(RiscV(levels), b.mem, root, b.tree)
    requires LeafSet(RiscV(levels), a, b, PageNumber(virt, levels), w)
    ensures Walk(b.mem, root, v, levels - 1) ==
            if PageNumber(v, levels) == PageNumber(virt, levels) then LeafMeaning(w)
            else Walk(a.mem, root, v, levels - 1)
  {
    TranslateIsLeaf(a.mem, root, a.tree, v, levels);
    TranslateIsLeaf(b.mem, root, b.tree, v, levels);
  }

  /** A page mapped with flags from the VMM translates to its frame with exactly those flags. */
  lemma MeaningOfLeafEntry(phys: nat, f: X86Entries.VmmFlags)
    ensures LeafMeaning(LeafEntry(phys, FromVmmFlags(f))) ==
            Translated(phys / 4096 % 0x1000_0000_0000, Access(1, f.write, f.executable, f.user, f.global))
    ensures LeafMeaning(0) == Fault
  {
    LeafRoundTrip(phys, FromVmmFlags(f));
    DecodeIsHardware(LeafEntry(phys, FromVmmFlags(f)));
  }

  ghost function LeafFrame(levels: nat, s: Stock, n: nat): nat
    requires levels > 0
  {
    ExtractPhys(LeafWord(RiscV(levels), s.mem, s.tree, n)) / 4096
  }

  /**
   Clears the leaf and frees the frame it names.  The walk allocates: missing tables are built first (`b`), and then
   frame 0 is freed.  Tables and pool stay sound exactly when the leaf names a frame that can be freed.
   */
  method Unmap4kib(r0: Ram, root: nat, levels: nat, virt: nat, ghost s0: Stock)
    returns (r: Ram, ghost s: Stock, ghost b: Stock)
    requires TablesOk(RiscV(levels), r0, root, s0)
    requires Missing(RiscV(levels), s0.tree.nodes, PageNumber(virt, levels), 0) <= |s0.free|
    ensures var fmt, n := RiscV(levels), PageNumber(virt, levels);
            && LastTable(fmt, n) in b.tree.frameAt && Grown(fmt, s0, b, n, levels - 1)
            && SameLeaves(fmt, s0.mem, s0.tree, b.mem, b.tree)
            && |s0.free| == |b.free| + Missing(fmt, s0.tree.nodes, n, 0)
            && (LastTable(fmt, n) in s0.tree.frameAt ==> b == s0)
    ensures var fmt, n := RiscV(levels), PageNumber(virt, levels);
            var f := LeafFrame(levels, s0, n);
            && r.freelist == Some(4096 * f) && s == Stock(r.mem, b.tree, b.free + {f})
            && (f in s0.mem ==> (TablesOk(fmt, r, root, s) <==> Reclaimable(fmt, s0, f)))
            && (Reclaimable(fmt, s0, f) ==> b == s0 && Freed(fmt, s0, s, n, f))
  {
    ghost var n := PageNumber(virt, levels);
    var bro;
    bro, r, s := GetTable(r0, root, virt, levels, true, s0);
    b := s;
    ghost var r1 := r;
    assert Open(0);
    SlotFacts(s.mem, root, s.tree, virt, levels, 0);
    LastTableIsOnTheWay(RiscV(levels), n);
    var slot := bro.value;
    var page := ExtractPhys(r.mem[slot.table][slot.index]) / 4096;
    r := GivePage(r, page);
    r := r.(mem := SetWord(r.mem, slot.table, slot.index, 0));
    s := Stock(r.mem, b.tree, b.free + {page});
    UnmapFacts(r1, root, s0, b, levels, n, page);
  }

  lemma UnmapFacts(r1: Ram, root: nat, s0: Stock, b: Stock, levels: nat, n: nat, f: nat)
    requires levels > 0 && TablesOk(RiscV(levels), r1, root, b) && LastTable(RiscV(levels), n) in b.tree.frameAt
    requires b.mem.Keys == s0.mem.Keys && f == LeafFrame(levels, s0, n)
    requires LastTable(RiscV(levels), n) in s0.tree.frameAt ==> b == s0
    ensures var r := Unmapped(RiscV(levels), r1, b, n, f);
            var s := Stock(r.mem, b.tree, b.free + {f});
            && (f in s0.mem ==> (TablesOk(RiscV(levels), r, root, s) <==> Reclaimable(RiscV(levels), s0, f)))
            && (Reclaimable(RiscV(levels), s0, f) ==> b == s0 && Freed(RiscV(levels), s0, s, n, f))
  {
    if f in s0.mem {
      UnmapSoundIff(RiscV(levels), r1, root, b, n, f);
    }
    if LastTable(RiscV(levels), n) !in s0.tree.frameAt {
      assert f == 0;
    } else if Reclaimable(RiscV(levels), s0, f) {
      FreedByWrite(RiscV(levels), r1, root, b, GivePage(r1, f), n, f);
    }
  }

  /** A page that is not mapped: `unmap4kib` frees frame 0 and the pool is lost. */
  lemma UnmapOfUnmapped(r1: Ram, root: nat, b: Stock, levels: nat, n: nat)
    requires TablesOk(RiscV(levels), r1, root, b) && LastTable(RiscV(levels), n) in b.tree.frameAt
    requires LeafWord(RiscV(levels), b.mem, b.tree, n) == 0
    ensures var r := Unmapped(RiscV(levels), r1, b, n, LeafFrame(levels, b, n));
            TakePage(r).1 == Some(0) && forall free :: PoolOk(r, free) ==> free == {}
  {
    UnmapEmptyLeaf(RiscV(levels), r1, root, b, n);
  }
}
