/** `slab_alloc` and `slab_dealloc`, on the slab pages and the pool together. */
module SlabAlloc {
  import opened Memory
  import opened PhysicalMemory
  import opened SlabPages
  import opened Slabs

  /** Memory, the slabs in it, and the frames no one owns. */
  datatype Depot = Depot(mem: Mem, slabs: Slabs, free: set<nat>)

  ghost predicate DepotOk(r: Ram, caches: seq<nat>, d: Depot) {
    && d.mem == r.mem && PoolOk(r, d.free) && r.freelist.Some?
    && SlabsOk(r.mem, caches, d.slabs)
    && (forall f :: f in d.free ==> f !in d.slabs.info)
  }

  /** `DepotOk`, folded. */
  ghost predicate Depots(r: Ram, caches: seq<nat>, d: Depot) {
    forall k {:trigger Open(k)} :: Open(k) ==> DepotOk(r, caches, d)
  }

  /** The object at word `w` of frame `f` belongs to a client. */
  ghost predicate LiveAt(s: Slabs, f: nat, w: nat) {
    f in s.info && LiveSlot(Units(s.info[f].place.cls), s.info[f].free, w)
  }

  /** Slabs stay where they are, and only frames from the pool become slabs. */
  ghost predicate SlabsGrow(a: Depot, b: Depot) {
    && (forall f :: f in b.free ==> f in a.free)
    && (forall f :: f in b.slabs.info <==> f in a.slabs.info || (f in a.free && f !in b.free))
    && (forall f :: f in a.slabs.info ==> b.slabs.info[f].place == a.slabs.info[f].place)
    && |b.free| + |b.slabs.info| == |a.free| + |a.slabs.info|
  }

  ghost predicate SameWords(a: Mem, b: Mem, f: nat, w: nat, u: nat) {
    f in a && f in b && forall i :: w <= i < w + u && i < PAGE_WORDS ==> b[f][i] == a[f][i]
  }

  /** Outside the slabs nothing changed; in a slab, no object that is live before and after. */
  ghost predicate ObjectsKept(a: Depot, b: Depot) {
    && b.mem.Keys == a.mem.Keys
    && (forall f :: f in a.mem && f !in b.slabs.info ==> b.mem[f] == a.mem[f])
    && (forall f, w {:trigger LiveAt(b.slabs, f, w)} :: LiveAt(a.slabs, f, w) && LiveAt(b.slabs, f, w) ==>
          SameWords(a.mem, b.mem, f, w, Units(a.slabs.info[f].place.cls)))
  }

  ghost predicate SameLive(a: Depot, b: Depot) {
    forall f, w :: LiveAt(b.slabs, f, w) <==> LiveAt(a.slabs, f, w)
  }

  /** The step from `a` to `b` handed out a zeroed object of class `c` that was not live, and only that. */
  ghost predicate Handed(a: Depot, b: Depot, c: nat, f: nat, w: nat) {
    && f in b.slabs.info && f in b.mem && b.slabs.info[f].place.cls == c
    && LiveAt(b.slabs, f, w) && !LiveAt(a.slabs, f, w) && IsZero(b.mem[f], w, Units(c))
    && (forall g, x :: LiveAt(b.slabs, g, x) <==> LiveAt(a.slabs, g, x) || (g == f && x == w))
  }

  /** Some slab of the class has a free object. */
  ghost predicate HasRoom(s: Slabs, c: nat) {
    exists p :: p in s.frameOf && p.cls == c && s.frameOf[p] in s.info && s.info[s.frameOf[p]].free != []
  }

  // ---- the free list of one slab changes ----

  function Changed(a: Depot, f: nat, pg: Page, free: seq<nat>): Depot
    requires f in a.slabs.info
  {
    Depot(a.mem[f := pg], WithFree(a.slabs, f, free), a.free)
  }

  lemma ChangeKeeps(a: Depot, caches: seq<nat>, f: nat, pg: Page, free: seq<nat>, kept: seq<nat>)
    requires SlabsOk(a.mem, caches, a.slabs) && f in a.slabs.info && f in a.mem
    requires SlabPage(pg, f, Units(a.slabs.info[f].place.cls), free) && pg[3] == a.mem[f][3]
    requires KeepsObjects(a.mem[f], pg, Units(a.slabs.info[f].place.cls), kept)
    requires forall w :: w in kept ==> w in free || w in a.slabs.info[f].free
    ensures var b := Changed(a, f, pg, free);
            SlabsGrow(a, b) && ObjectsKept(a, b)
  {
    var b := Changed(a, f, pg, free);
    forall g, w | LiveAt(a.slabs, g, w) && LiveAt(b.slabs, g, w)
      ensures SameWords(a.mem, b.mem, g, w, Units(a.slabs.info[g].place.cls))
    {
      assert PageOk(a.mem, a.slabs, g);
      if g == f {
        assert LiveSlot(Units(a.slabs.info[f].place.cls), kept, w);
      }
    }
  }

  lemma TakeHands(a: Depot, f: nat, pg: Page)
    requires f in a.slabs.info && a.slabs.info[f].free != [] && f in a.mem && PageOk(a.mem, a.slabs, f)
    requires IsZero(pg, Pick(a.slabs.info[f].free), Units(a.slabs.info[f].place.cls))
    ensures Handed(a, Changed(a, f, pg, Rest(a.slabs.info[f].free)), a.slabs.info[f].place.cls,
                   f, Pick(a.slabs.info[f].free))
  {
    RestIs(a.slabs.info[f].free);
  }

  // ---- a slab is added ----

  /** Frame `f` left the pool and is the new last slab of class `c`. */
  function Added(a: Depot, c: nat, f: nat, pg: Page, last: nat, free: seq<nat>): Depot
    requires c < |a.slabs.len| && last in a.mem
  {
    Depot(SetWord(a.mem[f := pg], last, 3, 4096 * f), AddSlab(a.slabs, c, f, free), a.free - {f})
  }

  lemma AddKeeps(a: Depot, caches: seq<nat>, c: nat, f: nat, pg: Page, last: nat, free: seq<nat>)
    requires SlabsOk(a.mem, caches, a.slabs) && c < CLASSES && f in a.free && f !in a.slabs.info && f in a.mem
    requires last == a.slabs.frameOf[Place(c, a.slabs.len[c] - 1)] && last in a.mem && last != f
    requires forall w :: IsSlot(Units(c), w) ==> w in free
    ensures var b := Added(a, c, f, pg, last, free);
            SlabsGrow(a, b) && ObjectsKept(a, b) && SameLive(a, b)
  {
    var b := Added(a, c, f, pg, last, free);
    assert |a.free - {f}| == |a.free| - 1;
    assert b.slabs.info.Keys == a.slabs.info.Keys + {f};
    forall g, w | LiveAt(a.slabs, g, w) && LiveAt(b.slabs, g, w)
      ensures SameWords(a.mem, b.mem, g, w, Units(a.slabs.info[g].place.cls))
    {
      assert PageOk(a.mem, a.slabs, g);
    }
  }

  /** `last` is the last slab of class `c`. */
  ghost predicate IsLast(s: Slabs, c: nat, last: nat) {
    && c < |s.len| && s.len[c] > 0
    && Place(c, s.len[c] - 1) in s.frameOf && s.frameOf[Place(c, s.len[c] - 1)] == last
  }

  /** `slab_header::init` for the next slab of a chain, and the link from the one before. */
  method NewSlab(r0: Ram, last: nat, size: nat, ghost caches: seq<nat>, ghost d0: Depot, ghost c: nat)
    returns (f: nat, r: Ram, ghost d: Depot)
    requires Depots(r0, caches, d0) && c < CLASSES && d0.free != {}
    requires IsLast(d0.slabs, c, last) && size == 8 * Units(c)
    ensures Depots(r, caches, d) && f in d0.free && d.free == d0.free - {f}
    ensures d.slabs == AddSlab(d0.slabs, c, f, Slots(Units(c), Capacity(size)))
    ensures SlabsGrow(d0, d) && ObjectsKept(d0, d) && SameLive(d0, d)
  {
    assert Open(0);
    ghost var u := Units(c);
    TakePageFacts(r0, d0.free);
    var (r1, page) := TakePage(r0);
    f := page.value;
    var pg := InitPage(f, size, u);
    ghost var free := Slots(u, Capacity(size));
    SlabAdded(d0.mem, caches, d0.slabs, c, f, free, pg, last);
    assert r1.mem[f := pg] == d0.mem[f := pg];
    r := r1.(mem := SetWord(r1.mem[f := pg], last, 3, 4096 * f));
    d := Added(d0, c, f, pg, last, free);
    forall w: nat | IsSlot(u, w)
      ensures w in free
    {
      SlotsComplete(u, w);
    }
    AddKeeps(d0, caches, c, f, pg, last, free);
    PoolFrames(r1, d.free);
    PoolFrame(r1, r.mem, d.free);
  }

  // ---- slab_header::alloc ----

  /** Where a walk along the chain of class `c` is: at slab `cur`, all before it full. */
  ghost predicate Walking(s: Slabs, c: nat, pos: nat, cur: nat) {
    && Place(c, pos) in s.frameOf && s.frameOf[Place(c, pos)] == cur && cur in s.info
    && (forall q: nat :: q < pos && Place(c, q) in s.frameOf && s.frameOf[Place(c, q)] in s.info ==>
          s.info[s.frameOf[Place(c, q)]].free == [])
  }

  /** What the walk reads in the header of slab `cur`. */
  lemma HeaderFacts(r: Ram, caches: seq<nat>, d: Depot, c: nat, pos: nat, cur: nat)
    requires Depots(r, caches, d) && c < CLASSES && Walking(d.slabs, c, pos, cur)
    ensures cur in r.mem && c < |d.slabs.len| && pos < d.slabs.len[c] && d.slabs.info[cur].place == Place(c, pos)
    ensures r.mem[cur][1] == 8 * Units(c)
    ensures r.mem[cur][2] == 0 <==> d.slabs.info[cur].free == []
    ensures d.slabs.info[cur].free == [] && r.mem[cur][3] != 0 ==> Walking(d.slabs, c, pos + 1, r.mem[cur][3] / 4096)
    ensures r.mem[cur][3] == 0 ==> IsLast(d.slabs, c, cur) && d.slabs.len[c] == pos + 1
    ensures d.slabs.info[cur].free == [] && r.mem[cur][3] == 0 ==> !HasRoom(d.slabs, c)
  {
    assert Open(0);
    var s := d.slabs;
    assert PageOk(r.mem, s, cur);
    var next := Place(c, pos + 1);
    if next in s.frameOf {
      assert AtPlace(s, s.frameOf[next]) && PageOk(r.mem, s, s.frameOf[next]);
    } else {
      forall p | p in s.frameOf && p.cls == c
        ensures s.frameOf[p] in s.info && (s.info[cur].free == [] ==> s.info[s.frameOf[p]].free == [])
      {
        assert p == Place(c, p.pos);
      }
    }
  }

  /** From `a` to `b` at most a slab was added; no object changed hands.  Folded. */
  ghost predicate Extended(a: Depot, b: Depot) {
    forall k {:trigger Open(k)} :: Open(k) ==> SlabsGrow(a, b) && ObjectsKept(a, b) && SameLive(a, b)
  }

  /** From `a` to `b` the object at `obj` was handed out, and nothing else happened to any object.  Folded. */
  ghost predicate Allotted(a: Depot, b: Depot, c: nat, obj: nat) {
    forall k {:trigger Open(k)} :: Open(k) ==>
      && obj == Address(obj / 4096, obj % 4096 / 8)
      && SlabsGrow(a, b) && ObjectsKept(a, b) && Handed(a, b, c, obj / 4096, obj % 4096 / 8)
  }

  lemma ExtendedSelf(a: Depot)
    requires forall f :: f in a.slabs.info ==> f in a.mem
    ensures Extended(a, a)
  {
  }

  lemma ExtendThenHand(a: Depot, b: Depot, e: Depot, c: nat, obj: nat)
    requires Extended(a, b) && Allotted(b, e, c, obj)
    ensures Allotted(a, e, c, obj)
  {
    assert Open(0);
    forall f, w | LiveAt(a.slabs, f, w) && LiveAt(e.slabs, f, w)
      ensures SameWords(a.mem, e.mem, f, w, Units(a.slabs.info[f].place.cls))
    {
      assert LiveAt(b.slabs, f, w);
    }
  }

  lemma SlabAt(r: Ram, caches: seq<nat>, d: Depot, f: nat)
    requires Depots(r, caches, d) && f in d.slabs.info
    ensures f in r.mem && d.mem == r.mem
    ensures SlabPage(r.mem[f], f, Units(d.slabs.info[f].place.cls), d.slabs.info[f].free)
  {
    assert Open(0);
    assert PageOk(r.mem, d.slabs, f);
  }

  /** Replacing the page of a slab by one with another free list. */
  lemma DepotChanges(r: Ram, caches: seq<nat>, d: Depot, f: nat, pg: Page, free: seq<nat>, kept: seq<nat>,
                     r': Ram, d': Depot)
    requires Depots(r, caches, d) && f in d.slabs.info && f in r.mem
    requires SlabPage(pg, f, Units(d.slabs.info[f].place.cls), free) && pg[3] == r.mem[f][3]
    requires KeepsObjects(r.mem[f], pg, Units(d.slabs.info[f].place.cls), kept)
    requires forall w :: w in kept ==> w in free || w in d.slabs.info[f].free
    requires r' == r.(mem := r.mem[f := pg]) && d' == Changed(d, f, pg, free)
    ensures Depots(r', caches, d') && SlabsGrow(d, d') && ObjectsKept(d, d')
  {
    DepotChanged(r, caches, d, f, pg, free, r', d');
    assert Open(0);
    ChangeKeeps(d, caches, f, pg, free, kept);
  }

  lemma DepotChanged(r: Ram, caches: seq<nat>, d: Depot, f: nat, pg: Page, free: seq<nat>, r': Ram, d': Depot)
    requires Depots(r, caches, d) && f in d.slabs.info && f in r.mem
    requires SlabPage(pg, f, Units(d.slabs.info[f].place.cls), free) && pg[3] == r.mem[f][3]
    requires r' == r.(mem := r.mem[f := pg]) && d' == Changed(d, f, pg, free)
    ensures Depots(r', caches, d')
  {
    assert Open(0);
    PageChanges(d.mem, caches, d.slabs, f, pg, free);
    PoolFrames(r, d.free);
    PoolFrame(r, r'.mem, d.free);
  }

  /** Takes an object from slab `cur`, which has one. */
  method TakeFrom(r0: Ram, cur: nat, ghost caches: seq<nat>, ghost d0: Depot)
    returns (obj: nat, r: Ram, ghost d: Depot)
    requires Depots(r0, caches, d0) && cur in d0.slabs.info && d0.slabs.info[cur].free != [] && cur in r0.mem
    ensures Depots(r, caches, d) && d.free == d0.free
    ensures Allotted(d0, d, d0.slabs.info[cur].place.cls, obj)
  {
    SlabAt(r0, caches, d0, cur);
    ghost var slab := d0.slabs.info[cur];
    var pg;
    obj, pg := TakeObject(r0.mem[cur], cur, Units(slab.place.cls), slab.free);
    r := r0.(mem := r0.mem[cur := pg]);
    d := Changed(d0, cur, pg, Rest(slab.free));
    DepotChanges(r0, caches, d0, cur, pg, Rest(slab.free), slab.free, r, d);
    assert Allotted(d0, d, slab.place.cls, obj) by {
      assert PageOk(r0.mem, d0.slabs, cur) by { assert Open(0); }
      TakeHands(d0, cur, pg);
      assert obj / 4096 == cur && obj % 4096 / 8 == Pick(slab.free);
    }
  }

  /**
   `slab_header::alloc`: an object of the first slab of the chain that has one; when all are full,
   of a new slab at the end of the chain.
   */
  method ChainAlloc(r0: Ram, head: nat, ghost caches: seq<nat>, ghost d0: Depot, ghost c: nat)
    returns (obj: nat, r: Ram, ghost d: Depot)
    requires Depots(r0, caches, d0) && c < CLASSES && Walking(d0.slabs, c, 0, head)
    requires HasRoom(d0.slabs, c) || d0.free != {}
    ensures Depots(r, caches, d) && Allotted(d0, d, c, obj)
    ensures |d.free| == |d0.free| - (if HasRoom(d0.slabs, c) then 0 else 1)
  {
    var cur := head;
    ghost var pos, grew := 0, false;
    r, d := r0, d0;
    ExtendedSelf(d0) by {
      assert Open(0);
      assert forall f :: f in d0.slabs.info ==> PageOk(d0.mem, d0.slabs, f);
    }
    HeaderFacts(r, caches, d, c, pos, cur);
    while true
      invariant Depots(r, caches, d) && Extended(d0, d) && Walking(d.slabs, c, pos, cur)
      invariant c < |d.slabs.len| && pos < d.slabs.len[c]
      invariant !grew ==> d == d0
      invariant grew ==> cur in d.slabs.info && d.slabs.info[cur].free != [] && |d.free| == |d0.free| - 1
      invariant grew ==> !HasRoom(d0.slabs, c)
      decreases !grew, d.slabs.len[c] - pos
    {
      HeaderFacts(r, caches, d, c, pos, cur);
      if r.mem[cur][2] != 0 {
        ghost var b := d;
        RoomAt(d.slabs, c, pos, cur);
        obj, r, d := TakeFrom(r, cur, caches, b);
        ExtendThenHand(d0, b, d, c, obj);
        return;
      }
      if r.mem[cur][3] != 0 {
        cur := r.mem[cur][3] / 4096;
        pos := pos + 1;
        HeaderFacts(r, caches, d, c, pos, cur);
      } else {
        cur, r, d := AppendSlab(r, cur, caches, d, c, pos);
        grew, pos := true, pos + 1;
      }
    }
  }

  lemma RoomAt(s: Slabs, c: nat, pos: nat, cur: nat)
    requires Walking(s, c, pos, cur) && s.info[cur].free != []
    ensures HasRoom(s, c)
  {
    assert Place(c, pos) in s.frameOf;
  }

  /** The chain is walked to its end and every slab is full: add one. */
  method AppendSlab(r0: Ram, last: nat, ghost caches: seq<nat>, ghost d0: Depot, ghost c: nat, ghost pos: nat)
    returns (f: nat, r: Ram, ghost d: Depot)
    requires Depots(r0, caches, d0) && c < CLASSES && Walking(d0.slabs, c, pos, last) && d0.free != {}
    requires last in r0.mem && r0.mem[last][1] == 8 * Units(c) && IsLast(d0.slabs, c, last)
    requires d0.slabs.info[last].free == [] && d0.slabs.info[last].place == Place(c, pos) && d0.slabs.len[c] == pos + 1
    ensures Depots(r, caches, d) && Extended(d0, d) && Walking(d.slabs, c, pos + 1, f)
    ensures d.slabs.info[f].free != [] && |d.free| == |d0.free| - 1
    ensures c < |d.slabs.len| && d.slabs.len[c] == pos + 2
  {
    var size := r0.mem[last][1];
    f, r, d := NewSlab(r0, last, size, caches, d0, c);
    WalkedTo(r0, caches, d0, c, pos, last, f, d.slabs.info[f].free);
    SlotsAre(Units(c), Capacity(size), 0);
  }

  lemma WalkedTo(r: Ram, caches: seq<nat>, d: Depot, c: nat, pos: nat, last: nat, f: nat, free: seq<nat>)
    requires Depots(r, caches, d) && c < CLASSES && Walking(d.slabs, c, pos, last) && f in d.free
    requires c < |d.slabs.len| && d.slabs.info[last].free == [] && d.slabs.len[c] == pos + 1
    ensures Walking(AddSlab(d.slabs, c, f, free), c, pos + 1, f)
  {
    assert Open(0);
    var s, s' := d.slabs, AddSlab(d.slabs, c, f, free);
    forall q: nat | q < pos + 1
      ensures Place(c, q) in s'.frameOf && s'.frameOf[Place(c, q)] in s'.info
      ensures s'.info[s'.frameOf[Place(c, q)]].free == []
    {
      assert Place(c, q) in s.frameOf;
    }
  }

  // ---- slab_alloc, slab_dealloc ----

  /** The smallest class whose objects hold `size` bytes. */
  function ClassFor(size: nat): (c: nat)
    ensures c < CLASSES
    ensures size <= 1024 ==> size <= 8 * Units(c)
    ensures forall b: nat :: b < c ==> 8 * Units(b) < size
  {
    if size <= 16 then 0
    else if size <= 32 then 1
    else if size <= 64 then 2
    else if size <= 128 then 3
    else if size <= 256 then 4
    else if size <= 512 then 5
    else 6
  }

  method Alloc(r0: Ram, caches: seq<nat>, size: nat, ghost d0: Depot)
    returns (res: Option<nat>, r: Ram, ghost d: Depot)
    requires Depots(r0, caches, d0) && |caches| == CLASSES
    requires size <= 1024 ==> HasRoom(d0.slabs, ClassFor(size)) || d0.free != {}
    ensures Depots(r, caches, d)
    ensures res.None? <==> size > 1024
    ensures res.None? ==> r == r0 && d == d0
    ensures res.Some? ==> Allotted(d0, d, ClassFor(size), res.value)
    ensures res.Some? ==> |d.free| == |d0.free| - (if HasRoom(d0.slabs, ClassFor(size)) then 0 else 1)
  {
    r, d := r0, d0;
    for i := 0 to CLASSES
      invariant r == r0 && d == d0
      invariant forall b :: 0 <= b < i ==> 8 * Units(b) < size
    {
      if 8 * Units(i) < size {
        continue;
      }
      assert i == ClassFor(size);
      FirstOfChain(r0, caches, d0, i);
      var obj;
      obj, r, d := ChainAlloc(r, caches[i] / 4096, caches, d, i);
      return Some(obj), r, d;
    }
    assert 8 * Units(6) < size;
    res := None;
  }

  lemma FirstOfChain(r: Ram, caches: seq<nat>, d: Depot, c: nat)
    requires Depots(r, caches, d) && c < CLASSES && |caches| == CLASSES
    ensures Walking(d.slabs, c, 0, caches[c] / 4096)
  {
    assert Open(0);
    assert Place(c, 0) in d.slabs.frameOf;
  }

  /** The client's object at `obj` went back to its slab, and nothing else happened to any object.  Folded. */
  ghost predicate Returned(a: Depot, b: Depot, obj: nat) {
    forall k {:trigger Open(k)} :: Open(k) ==>
      && b.free == a.free && SlabsGrow(a, b) && ObjectsKept(a, b)
      && (forall f, w :: LiveAt(b.slabs, f, w) <==> LiveAt(a.slabs, f, w) && Address(f, w) != obj)
  }

  /** `slab_dealloc`: null is ignored; otherwise the header is found by masking the address. */
  method Dealloc(r0: Ram, addr: nat, ghost caches: seq<nat>, ghost d0: Depot)
    returns (r: Ram, ghost d: Depot)
    requires Depots(r0, caches, d0)
    requires addr == 0 || (addr % 8 == 0 && LiveAt(d0.slabs, addr / 4096, addr % 4096 / 8))
    ensures Depots(r, caches, d)
    ensures addr == 0 ==> r == r0 && d == d0
    ensures addr != 0 ==> Returned(d0, d, addr)
  {
    if addr == 0 {
      return r0, d0;
    }
    var f := (addr - addr % 4096) / 4096;
    ghost var w := addr % 4096 / 8;
    Parts(addr);
    r, d := GiveTo(r0, f, addr, caches, d0, w);
  }

  lemma Parts(addr: nat)
    requires addr % 8 == 0
    ensures (addr - addr % 4096) / 4096 == addr / 4096 && addr == Address(addr / 4096, addr % 4096 / 8)
  {
  }

  /** Puts the object back on the free list of slab `f`. */
  method GiveTo(r0: Ram, f: nat, addr: nat, ghost caches: seq<nat>, ghost d0: Depot, ghost w: nat)
    returns (r: Ram, ghost d: Depot)
    requires Depots(r0, caches, d0) && LiveAt(d0.slabs, f, w) && addr == Address(f, w)
    ensures Depots(r, caches, d) && Returned(d0, d, addr)
  {
    SlabAt(r0, caches, d0, f);
    ghost var slab := d0.slabs.info[f];
    ghost var free := [w] + slab.free;
    var pg := GiveObject(r0.mem[f], addr, f, Units(slab.place.cls), slab.free, w);
    r := r0.(mem := r0.mem[f := pg]);
    d := Changed(d0, f, pg, free);
    DepotChanges(r0, caches, d0, f, pg, free, free, r, d);
    GivesBack(d0, f, pg, w);
  }

  lemma GivesBack(a: Depot, f: nat, pg: Page, w: nat)
    requires LiveAt(a.slabs, f, w)
    ensures var b := Changed(a, f, pg, [w] + a.slabs.info[f].free);
            forall g, x :: LiveAt(b.slabs, g, x) <==> LiveAt(a.slabs, g, x) && Address(g, x) != Address(f, w)
  {
    var free := a.slabs.info[f].free;
    var b := Changed(a, f, pg, [w] + free);
    forall g, x
      ensures LiveAt(b.slabs, g, x) <==> LiveAt(a.slabs, g, x) && Address(g, x) != Address(f, w)
    {
      assert x in [w] + free <==> x == w || x in free;
    }
  }

  // ---- what clients can rely on ----

  /** Two live objects never overlap, and none overlaps a header or leaves its page. */
  lemma LiveObjectsDisjoint(s: Slabs, f: nat, w: nat, g: nat, x: nat)
    requires LiveAt(s, f, w) && LiveAt(s, g, x)
    ensures var size := 8 * Units(s.info[f].place.cls);
            && 4096 * f + 32 <= Address(f, w) && Address(f, w) + size <= 4096 * f + 4096
            && (Address(f, w) == Address(g, x) || Address(f, w) + size <= Address(g, x)
                || Address(g, x) + 8 * Units(s.info[g].place.cls) <= Address(f, w))
  {
    if f == g {
      SlotsDisjoint(Units(s.info[f].place.cls));
    }
    ObjectInPage(f, w, Units(s.info[f].place.cls));
    ObjectInPage(g, x, Units(s.info[g].place.cls));
  }

  lemma ObjectInPage(f: nat, w: nat, u: nat)
    requires IsSlot(u, w)
    ensures 4096 * f + 32 <= Address(f, w) && Address(f, w) + 8 * u <= 4096 * (f + 1)
  {
  }

  /** Objects are aligned to 32 bytes or their own size, whichever is smaller; to their size only up to 32. */
  lemma Alignment(s: Slabs, f: nat, w: nat)
    requires LiveAt(s, f, w)
    ensures var size := 8 * Units(s.info[f].place.cls);
            && Address(f, w) % (if size < 32 then size else 32) == 0
            && (Address(f, w) % size == 0 <==> size <= 32)
  {
    var u := Units(s.info[f].place.cls);
    var i := (w - HEADER_WORDS) / u;
    assert w == HEADER_WORDS + u * i by { assert Open(0); }
    AddressForm(f, u, i, 512 / u);
    var q := 512 / u * f + i;
    Remainder(8 * u, q, 32);
    if u > 4 {
      Regroup(u / 4, q);
      Remainder(32, u / 4 * q, 32);
    }
  }

  lemma AddressForm(f: nat, u: nat, i: nat, perPage: nat)
    requires u * perPage == 512
    ensures Address(f, HEADER_WORDS + u * i) == 8 * u * (perPage * f + i) + 32
  {
    assert u * (perPage * f) == 512 * f;
    assert u * (perPage * f + i) == u * (perPage * f) + u * i;
    ByteOffset(u, i);
  }

  lemma Regroup(k: nat, q: nat)
    ensures 8 * (4 * k) * q == 32 * (k * q)
  {
  }

  lemma Remainder(n: nat, q: nat, r: nat)
    requires n > 0
    ensures (n * q + r) % n == r % n
  {
    var m := r % n;
    DivUnique(n * q + r, n, q + r / n, m);
  }

  /** A client that writes inside its own object disturbs neither the slabs nor any other object. */
  lemma ClientWrite(r: Ram, caches: seq<nat>, d: Depot, f: nat, w: nat, i: nat, v: nat)
    requires Depots(r, caches, d) && LiveAt(d.slabs, f, w)
    requires w <= i < w + Units(d.slabs.info[f].place.cls)
    ensures f in r.mem && d.mem == r.mem && i < PAGE_WORDS
    ensures Depots(r.(mem := SetWord(r.mem, f, i, v)), caches, d.(mem := SetWord(r.mem, f, i, v)))
    ensures forall g, x :: LiveAt(d.slabs, g, x) && (g != f || x != w) ==>
              SameWords(r.mem, SetWord(r.mem, f, i, v), g, x, Units(d.slabs.info[g].place.cls))
  {
    SlabAt(r, caches, d, f);
    var slab := d.slabs.info[f];
    var u := Units(slab.place.cls);
    var pg := r.mem[f][i := v];
    ObjectWrite(r.mem[f], f, u, slab.free, w, i, v);
    var r', d' := r.(mem := r.mem[f := pg]), Changed(d, f, pg, slab.free);
    DepotChanged(r, caches, d, f, pg, slab.free, r', d');
    assert d'.slabs == d.slabs;
    forall g, x | LiveAt(d.slabs, g, x) && (g != f || x != w)
      ensures SameWords(r.mem, SetWord(r.mem, f, i, v), g, x, Units(d.slabs.info[g].place.cls))
    {
      SlabAt(r, caches, d, g);
      assert g == f ==> LiveSlot(u, [w], x);
    }
  }

  lemma ObjectWrite(pg: Page, f: nat, u: nat, free: seq<nat>, w: nat, i: nat, v: nat)
    requires SlabPage(pg, f, u, free) && LiveSlot(u, free, w) && w <= i < w + u
    ensures SlabPage(pg[i := v], f, u, free) && KeepsObjects(pg, pg[i := v], u, [w])
  {
    SlotsDisjoint(u);
    assert w in [w];
  }
}
