/** Writing the nodes of the region list, each a slab object of its own. */
module RegionNodes {
  import opened Memory
  import opened PhysicalMemory
  import opened TableTree
  import opened X86Entries
  import opened SlabPages
  import opened Slabs
  import opened SlabAlloc
  import opened RegionList
  import opened Ownership

  const NODE_CLASS: nat := 2      // 40-byte nodes come from the 64-byte class

  /** `a` is the address of a live object of class `c`. */
  ghost predicate ObjectOf(s: Slabs, a: nat, c: nat) {
    a % 8 == 0 && LiveAt(s, a / 4096, a % 4096 / 8) && s.info[a / 4096].place.cls == c
  }

  /** `a` is the address of a live object of the nodes' class. */
  ghost predicate NodeObj(s: Slabs, a: nat) {
    ObjectOf(s, a, NODE_CLASS)
  }

  /** Only the objects at `touched` changed: no table, no other object, no other frame. */
  ghost predicate QuietStep(a: World, b: World, touched: set<nat>) {
    && b == a.(mem := b.mem) && b.mem.Keys == a.mem.Keys
    && SameLeaves(X86, a.mem, a.tree, b.mem, b.tree)
    && (forall f :: f in a.mem && f !in a.slabs.info ==> b.mem[f] == a.mem[f])
    && (forall f, x {:trigger LiveAt(a.slabs, f, x)} :: LiveAt(a.slabs, f, x) && Address(f, x) !in touched ==>
          SameWords(a.mem, b.mem, f, x, Units(a.slabs.info[f].place.cls)))
  }

  /** `QuietStep`, folded. */
  ghost predicate Quiet(a: World, b: World, touched: set<nat>) {
    && b == a.(mem := b.mem)
    && forall k {:trigger Open(k)} :: Open(k) ==> QuietStep(a, b, touched)
  }

  /** Field `i` of the node at `a` was set to `v`, and no other field of any node. */
  ghost predicate FieldSet(s: Slabs, mem: Mem, mem': Mem, a: nat, i: nat, v: nat) {
    forall b: nat, j: nat {:trigger Field(mem', b, j)} :: NodeObj(s, b) && j < 8 ==>
      Field(mem', b, j) == if b == a && j == i then v else Field(mem, b, j)
  }

  method WriteField(r0: Ram, a: nat, i: nat, v: nat, ghost root: nat, ghost caches: seq<nat>, ghost w0: World,
                    ghost start: World, ghost touched: set<nat>)
    returns (r: Ram, ghost w: World)
    requires WorldOk(r0, root, caches, w0) && NodeObj(w0.slabs, a) && i < 8 && a / 4096 in r0.mem
    requires Quiet(start, w0, touched) && a in touched
    ensures WorldOk(r, root, caches, w) && r.mem.Keys == r0.mem.Keys
    ensures Quiet(start, w, touched) && FieldSet(w0.slabs, r0.mem, r.mem, a, i, v)
  {
    var f, x := a / 4096, a % 4096 / 8;
    r := r0.(mem := SetWord(r0.mem, f, x + i, v));
    w := w0.(mem := r.mem);
    WriteStep(r0, root, caches, w0, f, x, x + i, v);
    Parts(a);
    WroteField(w0.slabs, r0.mem, a, i, v);
    QuietTrans(start, w0, w, touched);
  }

  lemma WroteField(s: Slabs, mem: Mem, a: nat, i: nat, v: nat)
    requires NodeObj(s, a) && i < 8 && a / 4096 in mem
    ensures FieldSet(s, mem, SetWord(mem, a / 4096, a % 4096 / 8 + i, v), a, i, v)
  {
    var f, x := a / 4096, a % 4096 / 8;
    var mem' := SetWord(mem, f, x + i, v);
    forall b: nat, j: nat | NodeObj(s, b) && j < 8
      ensures Field(mem', b, j) == if b == a && j == i then v else Field(mem, b, j)
    {
      Parts(a);
      Parts(b);
      if b / 4096 == f && b != a {
        SlotsDisjoint(8);
      }
    }
  }

  lemma QuietTrans(a: World, b: World, c: World, touched: set<nat>)
    requires Quiet(a, b, touched) && QuietStep(b, c, touched)
    ensures Quiet(a, c, touched)
  {
    assert Open(0);
    forall f, x | LiveAt(a.slabs, f, x) && Address(f, x) !in touched
      ensures SameWords(a.mem, c.mem, f, x, Units(a.slabs.info[f].place.cls))
    {
      assert LiveAt(b.slabs, f, x);
    }
  }

  // ---- whole nodes ----

  predicate SameNode(mem: Mem, mem': Mem, a: nat) {
    NextOf(mem', a) == NextOf(mem, a) && SameBody(mem, mem', a)
  }

  predicate SameBody(mem: Mem, mem': Mem, a: nat) {
    && Field(mem', a, 2) == Field(mem, a, 2) && Field(mem', a, 3) == Field(mem, a, 3)
    && Field(mem', a, 4) == Field(mem, a, 4)
  }

  /** No node but the one at `a` changed. */
  ghost predicate OthersSame(s: Slabs, mem: Mem, mem': Mem, a: nat) {
    forall b: nat {:trigger SameNode(mem, mem', b)} :: NodeObj(s, b) && b != a ==> SameNode(mem, mem', b)
  }

  /** The struct write of `VMMRegion::new`. */
  method WriteNode(r0: Ram, a: nat, base: nat, length: nat, flags: VmmFlags,
                   ghost root: nat, ghost caches: seq<nat>, ghost w0: World, ghost start: World,
                   ghost touched: set<nat>)
    returns (r: Ram, ghost w: World)
    requires WorldOk(r0, root, caches, w0) && NodeObj(w0.slabs, a) && a / 4096 in r0.mem
    requires Quiet(start, w0, touched) && a in touched
    ensures WorldOk(r, root, caches, w) && r.mem.Keys == r0.mem.Keys && Quiet(start, w, touched)
    ensures OthersSame(w0.slabs, r0.mem, r.mem, a)
    ensures NextOf(r.mem, a) == None && Field(r.mem, a, 2) == base && Field(r.mem, a, 3) == length
    ensures Field(r.mem, a, 4) == FlagWord(flags)
  {
    r, w := WriteField(r0, a, 0, 0, root, caches, w0, start, touched);
    r, w := WriteField(r, a, 2, base, root, caches, w, start, touched);
    r, w := WriteField(r, a, 3, length, root, caches, w, start, touched);
    r, w := WriteField(r, a, 4, FlagWord(flags), root, caches, w, start, touched);
  }

  /** `(*a).next = Some(next)` */
  method SetNext(r0: Ram, a: nat, next: nat,
                 ghost root: nat, ghost caches: seq<nat>, ghost w0: World, ghost start: World, ghost touched: set<nat>)
    returns (r: Ram, ghost w: World)
    requires WorldOk(r0, root, caches, w0) && NodeObj(w0.slabs, a) && a / 4096 in r0.mem
    requires Quiet(start, w0, touched) && a in touched
    ensures WorldOk(r, root, caches, w) && r.mem.Keys == r0.mem.Keys && Quiet(start, w, touched)
    ensures OthersSame(w0.slabs, r0.mem, r.mem, a)
    ensures NextOf(r.mem, a) == Some(next) && Field(r.mem, a, 0) == 1 && SameBody(r0.mem, r.mem, a)
  {
    r, w := WriteField(r0, a, 0, 1, root, caches, w0, start, touched);
    r, w := WriteField(r, a, 1, next, root, caches, w, start, touched);
  }

  /** The nodes of the list are live objects, no two the same. */
  ghost predicate NodesHeld(s: Slabs, rs: seq<Region>) {
    && (forall i {:trigger NodeObj(s, rs[i].node)} :: 0 <= i < |rs| ==> NodeObj(s, rs[i].node))
    && (forall i, j :: 0 <= i < j < |rs| ==> rs[i].node != rs[j].node)
  }

  ghost predicate NotANode(rs: seq<Region>, a: nat) {
    forall i :: 0 <= i < |rs| ==> rs[i].node != a
  }

  /** Writes the node of a new region and links it behind region `at`. */
  method LinkNode(r0: Ram, g: Region, prev: nat, cur: nat, ghost root: nat, ghost caches: seq<nat>, ghost w0: World,
                  ghost khead: Option<nat>, ghost rs: seq<Region>, ghost at: nat)
    returns (r: Ram, ghost w: World)
    requires WorldOk(r0, root, caches, w0) && ListAt(r0.mem, khead, rs) && at + 1 < |rs|
    requires prev == rs[at].node && cur == rs[at + 1].node && g.node / 4096 in r0.mem && prev / 4096 in r0.mem
    requires NodesHeld(w0.slabs, rs) && NodeObj(w0.slabs, g.node) && NotANode(rs, g.node)
    ensures WorldOk(r, root, caches, w) && Quiet(w0, w, {g.node, prev})
    ensures ListAt(r.mem, khead, Insert(rs, at, g))
  {
    ghost var touched := {g.node, prev};
    QuietSelf(r0, root, caches, w0, touched);
    assert NodeObj(w0.slabs, rs[at].node);
    r, w := WriteNode(r0, g.node, g.base, g.length, g.flags, root, caches, w0, w0, touched);
    ghost var r1 := r;
    r, w := SetNext(r, prev, g.node, root, caches, w, w0, touched);
    ghost var r2 := r;
    r, w := SetNext(r, g.node, cur, root, caches, w, w0, touched);
    Linked3(w0.slabs, r0.mem, r1.mem, r2.mem, r.mem, khead, rs, at, g);
  }

  lemma QuietSelf(r: Ram, root: nat, caches: seq<nat>, w: World, touched: set<nat>)
    requires WorldOk(r, root, caches, w)
    ensures Quiet(w, w, touched)
  {
    forall f, x | LiveAt(w.slabs, f, x)
      ensures SameWords(w.mem, w.mem, f, x, Units(w.slabs.info[f].place.cls))
    {
      SlabAt(r, caches, DepotOf(w), f);
    }
  }

  lemma Linked3(s: Slabs, m0: Mem, m1: Mem, m2: Mem, m3: Mem, khead: Option<nat>, rs: seq<Region>, at: nat, g: Region)
    requires ListAt(m0, khead, rs) && at + 1 < |rs|
    requires NodesHeld(s, rs) && NodeObj(s, g.node) && NotANode(rs, g.node)
    requires OthersSame(s, m0, m1, g.node) && OthersSame(s, m1, m2, rs[at].node) && OthersSame(s, m2, m3, g.node)
    requires Field(m1, g.node, 2) == g.base && Field(m1, g.node, 3) == g.length
    requires Field(m1, g.node, 4) == FlagWord(g.flags)
    requires NextOf(m2, rs[at].node) == Some(g.node) && SameBody(m1, m2, rs[at].node)
    requires NextOf(m3, g.node) == Some(rs[at + 1].node) && SameBody(m2, m3, g.node)
    ensures ListAt(m3, khead, Insert(rs, at, g))
  {
    var rs' := Insert(rs, at, g);
    forall i | 0 <= i < |rs'|
      ensures NodeAt(m3, rs', i)
    {
      if i == at + 1 {
        NewNodeAt(s, m1, m2, m3, rs, at, g);
      } else {
        var j := if i <= at then i else i - 1;
        assert NodeAt(m0, rs, j);
        OldNode(s, m0, m1, m2, m3, rs, at, g, j);
        OldNodeAt(m0, m3, rs, at, g, i, j);
      }
    }
  }

  lemma NewNodeAt(s: Slabs, m1: Mem, m2: Mem, m3: Mem, rs: seq<Region>, at: nat, g: Region)
    requires at + 1 < |rs| && NodeObj(s, g.node) && NotANode(rs, g.node) && OthersSame(s, m1, m2, rs[at].node)
    requires Field(m1, g.node, 2) == g.base && Field(m1, g.node, 3) == g.length
    requires Field(m1, g.node, 4) == FlagWord(g.flags)
    requires NextOf(m3, g.node) == Some(rs[at + 1].node) && SameBody(m2, m3, g.node)
    ensures NodeAt(m3, Insert(rs, at, g), at + 1)
  {
    var rs' := Insert(rs, at, g);
    assert rs'[at + 1] == g && rs'[at + 2] == rs[at + 1];
    assert rs[at].node != g.node && SameNode(m1, m2, g.node);
  }

  lemma OldNodeAt(m0: Mem, m3: Mem, rs: seq<Region>, at: nat, g: Region, i: nat, j: nat)
    requires at + 1 < |rs| && i <= |rs| && i != at + 1 && j == (if i <= at then i else i - 1) && NodeAt(m0, rs, j)
    requires SameBody(m0, m3, rs[j].node)
    requires NextOf(m3, rs[j].node) == if j == at then Some(g.node) else NodeFrom(rs, j + 1)
    ensures NodeAt(m3, Insert(rs, at, g), i)
  {
    var rs' := Insert(rs, at, g);
    assert rs'[i] == rs[j];
    assert NodeFrom(rs', i + 1) == if j == at then Some(g.node) else NodeFrom(rs, j + 1);
  }

  lemma OldNode(s: Slabs, m0: Mem, m1: Mem, m2: Mem, m3: Mem, rs: seq<Region>, at: nat, g: Region, j: nat)
    requires at + 1 < |rs| && j < |rs| && NodesHeld(s, rs) && NotANode(rs, g.node) && NodeAt(m0, rs, j)
    requires OthersSame(s, m0, m1, g.node) && OthersSame(s, m1, m2, rs[at].node) && OthersSame(s, m2, m3, g.node)
    requires NextOf(m2, rs[at].node) == Some(g.node) && SameBody(m1, m2, rs[at].node)
    ensures SameBody(m0, m3, rs[j].node)
    ensures NextOf(m3, rs[j].node) == if j == at then Some(g.node) else NodeFrom(rs, j + 1)
  {
    assert NodeObj(s, rs[j].node) && rs[j].node != g.node;
    assert SameNode(m0, m1, rs[j].node) && SameNode(m2, m3, rs[j].node);
    if j != at {
      assert rs[j].node != rs[at].node;
      assert SameNode(m1, m2, rs[j].node);
    }
  }

  /** `(*prev).next = (*current).next`: region `k` leaves the list. */
  method UnlinkNode(r0: Ram, prev: nat, current: nat, ghost root: nat, ghost caches: seq<nat>, ghost w0: World,
                    ghost khead: Option<nat>, ghost rs: seq<Region>, ghost k: nat)
    returns (r: Ram, ghost w: World)
    requires WorldOk(r0, root, caches, w0) && ListAt(r0.mem, khead, rs) && 0 < k < |rs|
    requires prev == rs[k - 1].node && current == rs[k].node && prev / 4096 in r0.mem
    requires NodesHeld(w0.slabs, rs)
    ensures WorldOk(r, root, caches, w) && Quiet(w0, w, {prev})
    ensures ListAt(r.mem, khead, Remove(rs, k))
  {
    QuietSelf(r0, root, caches, w0, {prev});
    assert NodeObj(w0.slabs, rs[k - 1].node) && NodeObj(w0.slabs, rs[k].node);
    r, w := WriteField(r0, prev, 0, Field(r0.mem, current, 0), root, caches, w0, w0, {prev});
    r, w := WriteField(r, prev, 1, Field(r0.mem, current, 1), root, caches, w, w0, {prev});
    assert OthersSame(w0.slabs, r0.mem, r.mem, prev);
    assert NodeAt(r0.mem, rs, k);
    Unlinked(w0.slabs, r0.mem, r.mem, khead, rs, k);
  }

  lemma Unlinked(s: Slabs, mem: Mem, mem': Mem, khead: Option<nat>, rs: seq<Region>, k: nat)
    requires ListAt(mem, khead, rs) && 0 < k < |rs| && NodesHeld(s, rs)
    requires OthersSame(s, mem, mem', rs[k - 1].node)
    requires NextOf(mem', rs[k - 1].node) == NodeFrom(rs, k + 1) && SameBody(mem, mem', rs[k - 1].node)
    ensures ListAt(mem', khead, Remove(rs, k))
  {
    var rs' := Remove(rs, k);
    forall i | 0 <= i < |rs'|
      ensures NodeAt(mem', rs', i)
    {
      var j := if i < k then i else i + 1;
      assert NodeAt(mem, rs, j) && NodeObj(s, rs[j].node);
      if j != k - 1 {
        assert rs[j].node != rs[k - 1].node;
        assert SameNode(mem, mem', rs[j].node);
      }
      assert rs'[i] == rs[j];
      assert NodeFrom(rs', i + 1) == if j == k - 1 then NodeFrom(rs, k + 1) else NodeFrom(rs, j + 1);
      NodeMoves(mem, mem', rs, j, rs', i);
    }
  }

  lemma NodeMoves(mem: Mem, mem': Mem, rs: seq<Region>, j: nat, rs': seq<Region>, i: nat)
    requires j < |rs| && i < |rs'| && rs'[i] == rs[j] && NodeAt(mem, rs, j)
    requires SameBody(mem, mem', rs[j].node) && NextOf(mem', rs[j].node) == NodeFrom(rs', i + 1)
    ensures NodeAt(mem', rs', i)
  {
  }

  /** The list only depends on its nodes. */
  lemma ListKept(s: Slabs, mem: Mem, mem': Mem, khead: Option<nat>, rs: seq<Region>)
    requires ListAt(mem, khead, rs) && NodesHeld(s, rs)
    requires forall i :: 0 <= i < |rs| ==> SameWords(mem, mem', rs[i].node / 4096, rs[i].node % 4096 / 8, 8)
    ensures ListAt(mem', khead, rs)
  {
    forall i | 0 <= i < |rs|
      ensures NodeAt(mem', rs, i)
    {
      assert NodeAt(mem, rs, i) && NodeObj(s, rs[i].node);
      var f, x := rs[i].node / 4096, rs[i].node % 4096 / 8;
      assert SameWords(mem, mem', f, x, 8);
      assert forall j :: 0 <= j < 8 ==> Field(mem', rs[i].node, j) == Field(mem, rs[i].node, j);
    }
  }
}
