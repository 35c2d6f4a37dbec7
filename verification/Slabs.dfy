/** The seven slab caches: chains of slab pages drawn from the pool of free frames. */
module Slabs {
  import opened Memory
  import opened SlabPages

  const CLASSES: nat := 7

  /** Words per object of a size class: 16 to 1024 bytes. */
  function Units(c: nat): (u: nat)
    ensures 2 <= u <= 128
  {
    match c
    case 0 => 2
    case 1 => 4
    case 2 => 8
    case 3 => 16
    case 4 => 32
    case 5 => 64
    case _ => 128
  }

  /** Position `pos` in the chain of class `cls`. */
  datatype Place = Place(cls: nat, pos: nat)

  datatype Slab = Slab(place: Place, free: seq<nat>)

  /** Where the slabs are, what is free in them, and how long each chain is. */
  datatype Slabs = Slabs(frameOf: map<Place, nat>, info: map<nat, Slab>, len: seq<nat>)

  function Next(p: Place): Place {
    Place(p.cls, p.pos + 1)
  }

  /** A slab page is well formed, and its header points at the next slab of its chain. */
  ghost predicate PageOk(mem: Mem, s: Slabs, f: nat)
    requires f in s.info
  {
    && f in mem && SlabPage(mem[f], f, Units(s.info[f].place.cls), s.info[f].free)
    && mem[f][3] == Follow(s, s.info[f].place)
  }

  /** The `other_slabs` pointer of the slab at `p`. */
  ghost function Follow(s: Slabs, p: Place): nat {
    if Next(p) in s.frameOf then 4096 * s.frameOf[Next(p)] else 0
  }

  ghost predicate AtPlace(s: Slabs, f: nat) {
    f in s.info && s.info[f].place in s.frameOf && s.frameOf[s.info[f].place] == f
  }

  /** Every class has a slab. */
  ghost predicate Chains(s: Slabs) {
    Placed(s) && forall c :: 0 <= c < CLASSES ==> s.len[c] > 0
  }

  /** Every slab is in one place of one chain, and the chains have no gaps. */
  ghost predicate Placed(s: Slabs) {
    && |s.len| == CLASSES
    && (forall p :: p in s.frameOf <==> p.cls < CLASSES && p.pos < s.len[p.cls])
    && (forall p {:trigger s.frameOf[p]} :: p in s.frameOf ==>
          s.frameOf[p] in s.info && s.info[s.frameOf[p]].place == p)
    && (forall f {:trigger AtPlace(s, f)} :: f in s.info ==> AtPlace(s, f))
  }

  /** `caches` are the first slabs of the chains. */
  ghost predicate SlabsOk(mem: Mem, caches: seq<nat>, s: Slabs) {
    && Chains(s) && |caches| == CLASSES
    && (forall c :: 0 <= c < CLASSES ==> caches[c] == 4096 * s.frameOf[Place(c, 0)])
    && PagesOk(mem, s)
  }

  ghost predicate PagesOk(mem: Mem, s: Slabs) {
    forall f {:trigger PageOk(mem, s, f)} :: f in s.info ==> PageOk(mem, s, f)
  }

  // ---- one page changes ----

  function WithFree(s: Slabs, f: nat, free: seq<nat>): Slabs
    requires f in s.info
  {
    s.(info := s.info[f := Slab(s.info[f].place, free)])
  }

  lemma PageChanges(mem: Mem, caches: seq<nat>, s: Slabs, f: nat, pg: Page, free: seq<nat>)
    requires SlabsOk(mem, caches, s) && f in s.info
    requires SlabPage(pg, f, Units(s.info[f].place.cls), free) && f in mem && pg[3] == mem[f][3]
    ensures SlabsOk(mem[f := pg], caches, WithFree(s, f, free))
  {
    var s' := WithFree(s, f, free);
    assert PageOk(mem, s, f);
    forall g | g in s'.info
      ensures AtPlace(s', g) && PageOk(mem[f := pg], s', g)
    {
      assert AtPlace(s, g) && PageOk(mem, s, g);
    }
  }

  // ---- a slab is added ----

  function AddSlab(s: Slabs, c: nat, f: nat, free: seq<nat>): Slabs
    requires c < |s.len|
  {
    var p := Place(c, s.len[c]);
    Slabs(s.frameOf[p := f], s.info[f := Slab(p, free)], s.len[c := s.len[c] + 1])
  }

  lemma ChainGrows(s: Slabs, c: nat, f: nat, free: seq<nat>)
    requires Placed(s) && c < CLASSES && f !in s.info
    ensures Placed(AddSlab(s, c, f, free))
  {
    var s' := AddSlab(s, c, f, free);
    forall g | g in s'.info
      ensures AtPlace(s', g)
    {
      assert g != f ==> AtPlace(s, g);
    }
  }

  /** Linking a fresh page `pg` on frame `f` behind the last slab of class `c`. */
  lemma SlabAdded(mem: Mem, caches: seq<nat>, s: Slabs, c: nat, f: nat, free: seq<nat>, pg: Page, last: nat)
    requires SlabsOk(mem, caches, s) && c < CLASSES && f !in s.info
    requires last == s.frameOf[Place(c, s.len[c] - 1)]
    requires SlabPage(pg, f, Units(c), free) && pg[3] == 0
    ensures last in mem && last != f
    ensures SlabsOk(SetWord(mem[f := pg], last, 3, 4096 * f), caches, AddSlab(s, c, f, free))
  {
    assert AtPlace(s, last) && PageOk(mem, s, last);
    ChainGrows(s, c, f, free);
    PagesAfterAdding(mem, s, c, f, free, pg, last);
  }

  lemma PagesAfterAdding(mem: Mem, s: Slabs, c: nat, f: nat, free: seq<nat>, pg: Page, last: nat)
    requires Chains(s) && PagesOk(mem, s) && c < CLASSES && f !in s.info && last in mem && last != f
    requires last == s.frameOf[Place(c, s.len[c] - 1)]
    requires SlabPage(pg, f, Units(c), free) && pg[3] == 0
    ensures PagesOk(SetWord(mem[f := pg], last, 3, 4096 * f), AddSlab(s, c, f, free))
  {
    var s' := AddSlab(s, c, f, free);
    forall g | g in s'.info
      ensures PageOk(SetWord(mem[f := pg], last, 3, 4096 * f), s', g)
    {
      if g != f {
        assert AtPlace(s, g) && PageOk(mem, s, g);
        OldSlabKept(mem, s, c, f, free, pg, last, g);
      } else {
        assert Next(s'.info[f].place) !in s'.frameOf;
      }
    }
  }

  lemma OldSlabKept(mem: Mem, s: Slabs, c: nat, f: nat, free: seq<nat>, pg: Page, last: nat, g: nat)
    requires Chains(s) && c < CLASSES && f !in s.info && last in mem && last != f
    requires last == s.frameOf[Place(c, s.len[c] - 1)]
    requires AtPlace(s, g) && PageOk(mem, s, g)
    ensures PageOk(SetWord(mem[f := pg], last, 3, 4096 * f), AddSlab(s, c, f, free), g)
  {
    var mem' := SetWord(mem[f := pg], last, 3, 4096 * f);
    var p := s.info[g].place;
    if g == last {
      assert mem'[g] == mem[g][3 := 4096 * f];
      NextLink(mem[g], g, Units(p.cls), s.info[g].free, 4096 * f);
    } else {
      assert p != Place(c, s.len[c] - 1);
      assert mem'[g] == mem[g];
    }
  }

  /** The pointer to the next slab is no part of a page's own list. */
  lemma NextLink(pg: Page, f: nat, u: nat, free: seq<nat>, next: nat)
    requires SlabPage(pg, f, u, free)
    ensures SlabPage(pg[3 := next], f, u, free)
  {
  }

  /** The first slab of a class: no other slab points at it. */
  lemma FirstSlab(mem: Mem, s: Slabs, c: nat, f: nat, free: seq<nat>, pg: Page)
    requires Placed(s) && PagesOk(mem, s) && c < CLASSES && s.len[c] == 0 && f !in s.info
    requires SlabPage(pg, f, Units(c), free) && pg[3] == 0
    ensures PagesOk(mem[f := pg], AddSlab(s, c, f, free))
  {
    var s' := AddSlab(s, c, f, free);
    forall g | g in s'.info
      ensures PageOk(mem[f := pg], s', g)
    {
      if g != f {
        assert AtPlace(s, g) && PageOk(mem, s, g);
      } else {
        assert Next(s'.info[f].place) !in s'.frameOf;
      }
    }
  }
}
