/**
 One slab page: a header of four words and objects of `u` words each, the free ones linked
 through their first words.  An object is named by its word offset in the page.
 */
module SlabPages {
  import opened Memory

  const HEADER_WORDS: nat := 4

  /** `w` is a whole number of `u`-word objects behind the header; folded. */
  ghost predicate OnGrid(u: nat, w: nat) {
    forall k {:trigger Open(k)} :: Open(k) ==> u > 0 && w >= HEADER_WORDS && (w - HEADER_WORDS) % u == 0
  }

  /** An object place of a page of `u`-word objects: whole, clear of the header, inside the page. */
  ghost predicate IsSlot(u: nat, w: nat) {
    u > 0 && HEADER_WORDS <= w && w + u <= PAGE_WORDS && OnGrid(u, w)
  }

  /** The objects an initialised page holds. */
  function Capacity(size: nat): nat
    requires size > 0
  {
    (4096 - 32) / size
  }

  lemma MultiplesApart(u: nat, a: nat, b: nat)
    requires u > 0 && a % u == 0 && b % u == 0 && a < b
    ensures a + u <= b
  {
    var i, j := a / u, b / u;
    assert a == u * i;
    assert b == u * j;
    Grows(u, j, i);
    Grows(u, i + 1, j);
  }

  lemma Grows(u: nat, i: nat, j: nat)
    ensures i <= j ==> u * i <= u * j
  {
  }

  lemma SlotsDisjoint(u: nat)
    ensures forall a: nat, b: nat :: IsSlot(u, a) && IsSlot(u, b) && a < b ==> a + u <= b
  {
    forall a: nat, b: nat | IsSlot(u, a) && IsSlot(u, b) && a < b
      ensures a + u <= b
    {
      assert Open(0);
      MultiplesApart(u, a - HEADER_WORDS, b - HEADER_WORDS);
    }
  }

  function Address(f: nat, w: nat): nat {
    4096 * f + 8 * w
  }

  /** Masking an object's address finds its page, and the rest its place there. */
  lemma AddressParts(f: nat, w: nat)
    requires w < PAGE_WORDS
    ensures Address(f, w) / 4096 == f && Address(f, w) % 4096 / 8 == w
    ensures Address(f, w) - Address(f, w) % 4096 == 4096 * f
  {
    assert Address(f, w) % 4096 == 8 * w;
  }

  /** The pointer to element `j` of a free list, null past its end. */
  function Link(f: nat, free: seq<nat>, j: nat): nat {
    if j < |free| then Address(f, free[j]) else 0
  }

  /** The elements of `free` are object places, linked in order. */
  ghost predicate Linked(pg: Page, f: nat, u: nat, free: seq<nat>) {
    && NoDup(free)
    && (forall j :: 0 <= j < |free| ==> IsSlot(u, free[j]))
    && (forall j {:trigger pg[free[j]]} :: 0 <= j < |free| ==> pg[free[j]] == Link(f, free, j + 1))
  }

  /** Frame `f` holds a slab of `u`-word objects whose free list is `free`. */
  ghost predicate SlabPage(pg: Page, f: nat, u: nat, free: seq<nat>) {
    && f > 0 && u > 0 && pg[0] == |free| && pg[1] == 8 * u && pg[2] == Link(f, free, 0)
    && Linked(pg, f, u, free)
  }

  /** An object a client holds. */
  ghost predicate LiveSlot(u: nat, free: seq<nat>, w: nat) {
    IsSlot(u, w) && w !in free
  }

  /** No word of an object outside `free` changed. */
  ghost predicate KeepsObjects(a: Page, b: Page, u: nat, free: seq<nat>) {
    forall w: nat, i: nat :: LiveSlot(u, free, w) && w <= i < w + u ==> b[i] == a[i]
  }

  /** `write_bytes(0, obj_size)` */
  function Cleared(pg: Page, w: nat, u: nat): Page {
    seq(PAGE_WORDS, i requires 0 <= i < PAGE_WORDS => if w <= i < w + u then 0 else pg[i])
  }

  ghost predicate IsZero(pg: Page, w: nat, u: nat) {
    forall i :: w <= i < w + u && i < PAGE_WORDS ==> pg[i] == 0
  }

  // ---- allocating from a page ----

  /** The object handed out: the second of the list, or its only one. */
  function Pick(free: seq<nat>): nat
    requires free != []
  {
    if |free| == 1 then free[0] else free[1]
  }

  function Rest(free: seq<nat>): seq<nat>
    requires free != []
  {
    if |free| == 1 then [] else [free[0]] + free[2..]
  }

  /** The part of `slab_header::alloc` that takes an object from a slab with free ones. */
  method TakeObject(pg0: Page, ghost f: nat, ghost u: nat, ghost free: seq<nat>)
    returns (obj: nat, pg: Page)
    requires SlabPage(pg0, f, u, free) && free != []
    ensures obj == Address(f, Pick(free))
    ensures SlabPage(pg, f, u, Rest(free)) && pg[3] == pg0[3]
    ensures IsZero(pg, Pick(free), u) && KeepsObjects(pg0, pg, u, free)
  {
    var head := pg0[2] % 4096 / 8;
    AddressParts(f, free[0]);
    var bro := pg0[head];
    if bro != 0 {
      AddressParts(f, free[1]);
      pg := pg0[head := pg0[bro % 4096 / 8]];
      pg := Cleared(pg, bro % 4096 / 8, pg[1] / 8);
      pg := pg[0 := pg[0] - 1];
      TookSecond(pg0, pg, f, u, free);
      return bro, pg;
    } else {
      pg := Cleared(pg0, head, pg0[1] / 8);
      pg := pg[0 := pg[0] - 1];
      obj := pg[2];
      pg := pg[2 := 0];
      TookLast(pg0, pg, u, free);
    }
  }

  lemma TookSecond(a: Page, b: Page, f: nat, u: nat, free: seq<nat>)
    requires SlabPage(a, f, u, free) && |free| >= 2
    requires b[0] == a[0] - 1 && b[1] == a[1] && b[2] == a[2]
    requires forall i :: HEADER_WORDS <= i < PAGE_WORDS ==>
               b[i] == if free[1] <= i < free[1] + u then 0 else if i == free[0] then a[free[1]] else a[i]
    ensures SlabPage(b, f, u, Rest(free)) && KeepsObjects(a, b, u, free)
  {
    RestIs(free);
    var rest := Rest(free);
    forall j | 0 <= j < |rest|
      ensures IsSlot(u, rest[j]) && b[rest[j]] == Link(f, rest, j + 1)
    {
      SecondUnlinked(a, b, f, u, free, j);
    }
    TookKeeps(a, b, u, free);
  }

  /** Taking the second element, or the only one, takes just that one. */
  lemma RestIs(free: seq<nat>)
    requires NoDup(free) && free != []
    ensures NoDup(Rest(free)) && |Rest(free)| == |free| - 1
    ensures forall w :: w in Rest(free) <==> w in free && w != Pick(free)
  {
    if |free| > 1 {
      var rest := Rest(free);
      assert forall j :: 1 <= j < |rest| ==> rest[j] == free[j + 1];
      assert forall j :: 2 <= j < |free| ==> free[j] == rest[j - 1];
      forall w
        ensures w in rest <==> w in free && w != free[1]
      {
        if w in free && w != free[1] {
          var j :| 0 <= j < |free| && free[j] == w;
          assert j == 0 || rest[j - 1] == w;
        }
      }
    }
  }

  lemma SecondUnlinked(a: Page, b: Page, f: nat, u: nat, free: seq<nat>, j: nat)
    requires Linked(a, f, u, free) && |free| >= 2 && j < |free| - 1
    requires forall i :: HEADER_WORDS <= i < PAGE_WORDS ==>
               b[i] == if free[1] <= i < free[1] + u then 0 else if i == free[0] then a[free[1]] else a[i]
    ensures IsSlot(u, Rest(free)[j]) && b[Rest(free)[j]] == Link(f, Rest(free), j + 1)
  {
    var k := if j == 0 then 0 else j + 1;
    assert Rest(free)[j] == free[k] && Link(f, Rest(free), j + 1) == Link(f, free, j + 2);
    assert IsSlot(u, free[k]) && IsSlot(u, free[1]) && free[k] != free[1];
    assert a[free[k]] == Link(f, free, k + 1) && a[free[1]] == Link(f, free, 2);
    assert !(free[1] <= free[k] < free[1] + u) by { SlotsDisjoint(u); }
    assert free[k] == free[0] <==> j == 0;
  }

  lemma TookKeeps(a: Page, b: Page, u: nat, free: seq<nat>)
    requires |free| >= 2 && IsSlot(u, free[0]) && IsSlot(u, free[1])
    requires forall i :: HEADER_WORDS <= i < PAGE_WORDS && !(free[1] <= i < free[1] + u) && i != free[0] ==>
               b[i] == a[i]
    ensures KeepsObjects(a, b, u, free)
  {
    SlotsDisjoint(u);
    assert free[0] in free && free[1] in free;
  }

  lemma TookLast(a: Page, b: Page, u: nat, free: seq<nat>)
    requires |free| == 1 && IsSlot(u, free[0])
    requires forall i :: HEADER_WORDS <= i < PAGE_WORDS && !(free[0] <= i < free[0] + u) ==> b[i] == a[i]
    ensures KeepsObjects(a, b, u, free)
  {
    SlotsDisjoint(u);
    assert free[0] in free;
  }

  // ---- giving an object back ----

  /** The part of `slab_dealloc` after the header was found. */
  method GiveObject(pg0: Page, obj: nat, ghost f: nat, ghost u: nat, ghost free: seq<nat>, ghost w: nat)
    returns (pg: Page)
    requires SlabPage(pg0, f, u, free) && obj == Address(f, w) && LiveSlot(u, free, w)
    ensures SlabPage(pg, f, u, [w] + free) && pg[3] == pg0[3]
    ensures KeepsObjects(pg0, pg, u, [w] + free)
  {
    AddressParts(f, w);
    pg := Cleared(pg0, obj % 4096 / 8, pg0[1] / 8);
    var head := pg[2];
    if head != 0 {
      pg := pg[obj % 4096 / 8 := head];
    }
    pg := pg[2 := obj];
    pg := pg[0 := pg[0] + 1];
    GaveObject(pg0, pg, f, u, free, w);
  }

  lemma GaveObject(a: Page, b: Page, f: nat, u: nat, free: seq<nat>, w: nat)
    requires SlabPage(a, f, u, free) && LiveSlot(u, free, w)
    requires b[0] == a[0] + 1 && b[1] == a[1] && b[2] == Address(f, w)
    requires forall i :: HEADER_WORDS <= i < PAGE_WORDS ==>
               b[i] == if i == w then Link(f, free, 0) else if w <= i < w + u then 0 else a[i]
    ensures SlabPage(b, f, u, [w] + free) && KeepsObjects(a, b, u, [w] + free)
  {
    SlotsDisjoint(u);
    Push(a, b, f, u, free, w);
    var more := [w] + free;
    assert w in more;
    forall x: nat | LiveSlot(u, more, x)
      ensures forall i: nat :: x <= i < x + u ==> b[i] == a[i]
    {
      assert IsSlot(u, w) && x != w;
    }
  }

  /** Linking one more object in front. */
  lemma Push(a: Page, b: Page, f: nat, u: nat, free: seq<nat>, w: nat)
    requires Linked(a, f, u, free) && LiveSlot(u, free, w)
    requires b[w] == Link(f, free, 0)
    requires forall i :: HEADER_WORDS <= i < PAGE_WORDS && !(w <= i < w + u) ==> b[i] == a[i]
    ensures Linked(b, f, u, [w] + free)
  {
    SlotsDisjoint(u);
    var more := [w] + free;
    NoDupCons(w, free);
    forall j | 0 <= j < |more|
      ensures IsSlot(u, more[j]) && b[more[j]] == Link(f, more, j + 1)
    {
      if j > 0 {
        assert more[j] == free[j - 1] && free[j - 1] in free;
      }
    }
  }

  // ---- a fresh page ----

  /** The first `k` object places, last first. */
  ghost function Slots(u: nat, k: nat): seq<nat> {
    if k == 0 then [] else [HEADER_WORDS + u * (k - 1)] + Slots(u, k - 1)
  }

  lemma {:induction false} SlotsAre(u: nat, k: nat, w: nat)
    ensures |Slots(u, k)| == k
    ensures w in Slots(u, k) <==> exists i: nat :: i < k && w == HEADER_WORDS + u * i
  {
    if k > 0 {
      SlotsAre(u, k - 1, w);
      assert w in Slots(u, k) <==> w == HEADER_WORDS + u * (k - 1) || w in Slots(u, k - 1);
      if w == HEADER_WORDS + u * (k - 1) {
        assert k - 1 < k;
      }
    }
  }

  lemma NextSlot(u: nat, k: nat)
    requires u > 0 && k < Capacity(8 * u)
    ensures LiveSlot(u, Slots(u, k), HEADER_WORDS + u * k)
  {
    var w := HEADER_WORDS + u * k;
    assert IsSlot(u, w) by { SlotIsSlot(u, k); }
    SlotsAre(u, k, w);
    forall i: nat | i < k
      ensures w != HEADER_WORDS + u * i
    {
      Grows(u, i + 1, k);
    }
  }

  lemma SlotIsSlot(u: nat, i: nat)
    requires u > 0 && i < Capacity(8 * u)
    ensures IsSlot(u, HEADER_WORDS + u * i)
  {
    Grows(8 * u, i + 1, Capacity(8 * u));
    MultipleMod(u, i);
  }

  lemma MultipleMod(u: nat, i: nat)
    requires u > 0
    ensures (u * i) % u == 0
  {
    var q := (u * i) / u;
    Grows(u, i + 1, q);
    Grows(u, q + 1, i);
  }

  /** After initialisation every object place is free. */
  lemma SlotsComplete(u: nat, w: nat)
    requires IsSlot(u, w)
    ensures w in Slots(u, Capacity(8 * u))
  {
    assert Open(0);
    var i := (w - HEADER_WORDS) / u;
    assert w - HEADER_WORDS == u * i;
    if i >= Capacity(8 * u) {
      Grows(8 * u, Capacity(8 * u) + 1, i + 1);
      assert false;
    }
    SlotsAre(u, Capacity(8 * u), w);
  }

  /** `slab_header::init` on the page just allocated: every place is free, the last one first. */
  method InitPage(f: nat, size: nat, ghost u: nat) returns (pg: Page)
    requires f > 0 && u > 0 && size == 8 * u && Capacity(size) > 0
    ensures SlabPage(pg, f, u, Slots(u, Capacity(size))) && pg[3] == 0
  {
    pg := ZeroPage();
    var am := (4096 - 32) / size;
    var obj := 4096 * f + 32;
    var i := 1;
    FirstLinked(pg, f, u);
    while i < am
      invariant 1 <= i <= am && obj == Link(f, Slots(u, i), 0)
      invariant Linked(pg, f, u, Slots(u, i))
    {
      var newObj := 4096 * f + 32 + i * size;
      LinkNext(pg, f, u, size, i, obj);
      pg := pg[newObj % 4096 / 8 := obj];
      obj := newObj;
      i := i + 1;
    }
    SlotsAre(u, am, 0);
    HeaderWrite(pg, f, u, Slots(u, am), obj);
    pg := pg[0 := am][1 := size][2 := obj][3 := 0];
  }

  lemma HeaderWrite(pg: Page, f: nat, u: nat, free: seq<nat>, obj: nat)
    requires Linked(pg, f, u, free) && f > 0 && u > 0 && obj == Link(f, free, 0)
    ensures SlabPage(pg[0 := |free|][1 := 8 * u][2 := obj][3 := 0], f, u, free)
  {
  }

  lemma FirstLinked(pg: Page, f: nat, u: nat)
    requires u > 0 && Capacity(8 * u) > 0 && pg == ZeroPage()
    ensures Linked(pg, f, u, Slots(u, 1)) && Link(f, Slots(u, 1), 0) == 4096 * f + 32
  {
    NextSlot(u, 0);
    assert Slots(u, 1) == [HEADER_WORDS];
  }

  lemma LinkNext(pg: Page, f: nat, u: nat, size: nat, i: nat, obj: nat)
    requires u > 0 && size == 8 * u && i < Capacity(size)
    requires Linked(pg, f, u, Slots(u, i)) && obj == Link(f, Slots(u, i), 0)
    ensures var newObj := 4096 * f + 32 + i * size;
            && newObj == Link(f, Slots(u, i + 1), 0) && newObj % 4096 / 8 < PAGE_WORDS
            && Linked(pg[newObj % 4096 / 8 := obj], f, u, Slots(u, i + 1))
  {
    var w := HEADER_WORDS + u * i;
    NextSlot(u, i);
    ByteOffset(u, i);
    AddressParts(f, w);
    Push(pg, pg[w := obj], f, u, Slots(u, i), w);
  }

  lemma ByteOffset(u: nat, i: nat)
    ensures 32 + i * (8 * u) == 8 * (HEADER_WORDS + u * i)
  {
  }
}
