/**
 A root table together with the pool its tables come from: what the x86-64 and the RISC-V
 walkers share.
 */
module PageTables {
  import opened Memory
  import opened PhysicalMemory
  import opened TableTree

  /** `s` is the abstract value of the tables under `root` and of the pool. */
  ghost predicate TablesOk(fmt: Format, r: Ram, root: nat, s: Stock) {
    && s.mem == r.mem && PoolOk(r, s.free) && r.freelist.Some? && Levels(fmt) > 1
    && TreeOk(fmt, s.mem, root, s.tree)
    && (forall f :: f in s.free ==> f !in s.tree.nodeOf && f < MaxFrame(fmt))
  }

  /** `TablesOk`, folded. */
  ghost predicate Tables(fmt: Format, r: Ram, root: nat, s: Stock) {
    forall k {:trigger Open(k)} :: Open(k) ==> TablesOk(fmt, r, root, s)
  }

  /** `Reached`, folded. */
  ghost predicate At(fmt: Format, start: Stock, now: Stock, n: nat, d: nat, table: nat)
    requires d < Levels(fmt)
  {
    forall k {:trigger Open(k)} :: Open(k) ==> Reached(fmt, start, now, n, d, table)
  }

  /** Takes a root from the pool, zeroed: nothing is mapped. */
  lemma NewRoot(fmt: Format, r: Ram, free: set<nat>)
    requires PoolOk(r, free) && free != {} && r.freelist.Some? && Levels(fmt) > 1
    requires forall f :: f in free ==> f < MaxFrame(fmt)
    ensures TakePage(r).1.Some?
    ensures var root := TakePage(r).1.value;
            var s := Stock(TakePage(r).0.mem, Tree({ROOT}, map[ROOT := root], map[root := ROOT]), free - {root});
            && TablesOk(fmt, TakePage(r).0, root, s)
            && (forall n :: LeafWord(fmt, s.mem, s.tree, n) == 0)
  {
    TakePageFacts(r, free);
    FreshRoot(fmt, TakePage(r).0.mem, TakePage(r).1.value);
  }

  /** `allocate_page` followed by the write of the entry that points at the new table. */
  method NewTable(fmt: Format, r0: Ram, table: nat, i: nat, ghost root: nat, ghost s0: Stock, ghost p: Node)
    returns (f: nat, r: Ram, ghost s: Stock)
    requires TablesOk(fmt, r0, root, s0) && s0.free != {} && i < 512
    requires p in s0.tree.frameAt && table == s0.tree.frameAt[p]
    requires p.depth + 1 < Levels(fmt) && Child(p, i) !in s0.tree.frameAt
    ensures TablesOk(fmt, r, root, s) && f in s0.free && f in s0.mem
    ensures s == Stock(SetWord(s0.mem[f := ZeroPage()], table, i, TableEntry(fmt, f)),
                       AddAt(s0.tree, Child(p, i), f), s0.free - {f})
    ensures SameLeaves(fmt, s0.mem, s0.tree, s.mem, s.tree)
  {
    TakePageFacts(r0, s0.free);
    var (r1, page) := TakePage(r0);
    f := page.value;
    r := Ram(SetWord(r1.mem, table, i, TableEntry(fmt, f)), r1.freelist);
    s := Stock(r.mem, AddAt(s0.tree, Child(p, i), f), s0.free - {f});
    TreeFrame(fmt, s0.mem, r1.mem, root, s0.tree);
    AddTable(fmt, r1.mem, root, s0.tree, p, i, f);
    PoolFrames(r1, s.free);
    PoolFrame(r1, r.mem, s.free);
  }

  /** The step of a walk that finds a null entry and allocates the next table. */
  method AddMissing(fmt: Format, r0: Ram, table: nat, i: nat,
                    ghost root: nat, ghost s0: Stock, ghost n: nat, ghost d: nat, ghost start: Stock)
    returns (r: Ram, ghost s: Stock)
    requires TablesOk(fmt, r0, root, s0) && d + 1 < Levels(fmt) && i == Digit(fmt, n, d)
    requires Reached(fmt, start, s0, n, d, table)
    requires TableOf(fmt, n, d + 1) !in s0.tree.frameAt
    requires Missing(fmt, start.tree.nodes, n, 0) <= |start.free|
    ensures TablesOk(fmt, r, root, s)
    ensures TableOf(fmt, n, d) in s.tree.frameAt && table == s.tree.frameAt[TableOf(fmt, n, d)]
    ensures TableOf(fmt, n, d + 1) in s.tree.frameAt
    ensures Reached(fmt, start, s, n, d + 1, s.tree.frameAt[TableOf(fmt, n, d + 1)])
  {
    WayDown(fmt, n, d);
    assert TableOf(fmt, n, d + 1) !in s0.tree.nodes;
    EnoughLeft(fmt, start, s0, n, d, table);
    var f;
    f, r, s := NewTable(fmt, r0, table, i, root, s0, TableOf(fmt, n, d));
    StepDown(fmt, start, s0, s, n, d, f, table);
  }

  /** Makes sure the next table `t` on the way is there. */
  method FillIn(fmt: Format, r0: Ram, table: nat, i: nat, missing: bool,
                ghost root: nat, ghost s0: Stock, ghost n: nat, ghost d: nat, ghost start: Stock)
    returns (r: Ram, ghost s: Stock, ghost t: nat)
    requires Tables(fmt, r0, root, s0) && d + 1 < Levels(fmt) && i == Digit(fmt, n, d)
    requires At(fmt, start, s0, n, d, table)
    requires missing <==> TableOf(fmt, n, d + 1) !in s0.tree.frameAt
    requires missing ==> Missing(fmt, start.tree.nodes, n, 0) <= |start.free|
    ensures Tables(fmt, r, root, s) && At(fmt, start, s, n, d + 1, t)
    ensures table in r.mem && r.mem[table][i] == TableEntry(fmt, t) && 0 < t < MaxFrame(fmt)
    ensures !missing ==> r == r0 && s == s0
  {
    assert Open(0);
    if missing {
      r, s := AddMissing(fmt, r0, table, i, root, s0, n, d, start);
    } else {
      r, s := r0, s0;
      assert TableOf(fmt, n, d + 1) in s.tree.nodes;
      KeepExisting(fmt, start, s, n, d, table);
    }
    t := s.tree.frameAt[TableOf(fmt, n, d + 1)];
    WayDown(fmt, n, d);
    assert EntryOk(fmt, s.mem, s.tree, TableOf(fmt, n, d), i);
  }

  /** Writing a leaf entry changes that leaf alone, and leaves the pool alone. */
  lemma WriteKeeps(fmt: Format, r: Ram, root: nat, s: Stock, n: nat, w: nat)
    requires TablesOk(fmt, r, root, s) && LastTable(fmt, n) in s.tree.frameAt
    ensures var mem' := SetWord(s.mem, s.tree.frameAt[LastTable(fmt, n)], n % 512, w);
            && TablesOk(fmt, r.(mem := mem'), root, s.(mem := mem'))
            && LeafSet(fmt, s, s.(mem := mem'), n, w)
  {
    var mem' := SetWord(s.mem, s.tree.frameAt[LastTable(fmt, n)], n % 512, w);
    SetLeaf(fmt, s.mem, root, s.tree, n, w);
    PoolFrames(r, s.free);
    PoolFrame(r, mem', s.free);
  }

  /** A frame that can go back to the pool: RAM, not null, not free, not one of the tables. */
  ghost predicate Reclaimable(fmt: Format, s: Stock, f: nat) {
    f in s.mem && 0 < f < MaxFrame(fmt) && f !in s.free && f !in s.tree.nodeOf
  }

  /** Freeing the frame of a page and clearing its leaf. */
  lemma FreedByWrite(fmt: Format, r0: Ram, root: nat, a: Stock, r1: Ram, n: nat, f: nat)
    requires TablesOk(fmt, r0, root, a) && LastTable(fmt, n) in a.tree.frameAt
    requires Reclaimable(fmt, a, f) && r1 == GivePage(r0, f)
    ensures var mem' := SetWord(r1.mem, a.tree.frameAt[LastTable(fmt, n)], n % 512, 0);
            var b := Stock(mem', a.tree, a.free + {f});
            TablesOk(fmt, r1.(mem := mem'), root, b) && Freed(fmt, a, b, n, f)
  {
    GivePageFacts(r0, a.free, f);
    TreeFrame(fmt, a.mem, r1.mem, root, a.tree);
    var b1 := Stock(r1.mem, a.tree, a.free + {f});
    assert TablesOk(fmt, r1, root, b1);
    WriteKeeps(fmt, r1, root, b1, n, 0);
  }

  /** What `unmap` leaves behind: frame `f` freed, and leaf `n` cleared. */
  ghost function Unmapped(fmt: Format, r: Ram, a: Stock, n: nat, f: nat): Ram
    requires Levels(fmt) > 0 && LastTable(fmt, n) in a.tree.frameAt && a.tree.frameAt[LastTable(fmt, n)] in r.mem
  {
    var r1 := GivePage(r, f);
    r1.(mem := SetWord(r1.mem, a.tree.frameAt[LastTable(fmt, n)], n % 512, 0))
  }

  /**
   Unmapping keeps the tables and the pool sound exactly when the leaf names a frame that can be freed: not null, not
   free already, and not one of the tables.
   */
  lemma UnmapSoundIff(fmt: Format, r0: Ram, root: nat, a: Stock, n: nat, f: nat)
    requires TablesOk(fmt, r0, root, a) && LastTable(fmt, n) in a.tree.frameAt && f in a.mem && f < MaxFrame(fmt)
    ensures var r := Unmapped(fmt, r0, a, n, f);
            TablesOk(fmt, r, root, Stock(r.mem, a.tree, a.free + {f})) <==> Reclaimable(fmt, a, f)
  {
    var r := Unmapped(fmt, r0, a, n, f);
    if Reclaimable(fmt, a, f) {
      FreedByWrite(fmt, r0, root, a, GivePage(r0, f), n, f);
    }
    if TablesOk(fmt, r, root, Stock(r.mem, a.tree, a.free + {f})) {
      assert f in a.free + {f};
      PoolFrames(r, a.free + {f});
      PoolFrame(r, GivePage(r0, f).mem, a.free + {f});
      PoolFreedIff(r0, a.free, f);
    }
  }

  /** `FreeingKeepsListIff` for a pool. */
  lemma PoolFreedIff(r: Ram, free: set<nat>, f: nat)
    requires PoolOk(r, free) && r.freelist.Some? && f in r.mem
    ensures PoolOk(GivePage(r, f), free + {f}) <==> f != 0 && f !in free
  {
    var s :| ListOf(s, free) && FreeListOk(r.mem, r.freelist, s);
    FreeingKeepsListIff(r, s, f);
    if f != 0 && f !in free {
      GivePageFacts(r, free, f);
    }
    if PoolOk(GivePage(r, f), free + {f}) {
      var u :| ListOf(u, free + {f}) && FreeListOk(GivePage(r, f).mem, GivePage(r, f).freelist, u);
      assert f in u;
    }
  }

  /**
   The failing case: an empty leaf under an existing table.  Frame 0 goes to the head of the free list; its address
   reads as the end of the list, so the pool is lost to the invariant, and the next allocation gets frame 0.
   */
  lemma UnmapEmptyLeaf(fmt: Format, r0: Ram, root: nat, a: Stock, n: nat)
    requires TablesOk(fmt, r0, root, a) && LastTable(fmt, n) in a.tree.frameAt
    ensures var r := Unmapped(fmt, r0, a, n, 0);
            && (forall free :: PoolOk(r, free) ==> free == {})
            && TakePage(r).1 == Some(0)
            && !TablesOk(fmt, r, root, Stock(r.mem, a.tree, a.free + {0}))
  {
    var r := Unmapped(fmt, r0, a, n, 0);
    PoolFrames(r0, a.free);
    UnmapSoundIff(fmt, r0, root, a, n, 0);
    forall free | PoolOk(r, free)
      ensures free == {}
    {
      var s :| ListOf(s, free) && FreeListOk(r.mem, r.freelist, s);
      assert s == [];
      assert forall f :: f in free ==> f in s;
    }
  }
}
