/** Which pages the regions of the kernel's list stand for. */
module AddressSpace {
  import opened Memory
  import opened TableTree
  import opened X86Paging
  import opened X86Regions
  import opened RegionList
  import opened Ownership

  const WINDOW: nat := 0x1_0000_0000_0000      // what 48-bit addresses can tell apart

  /** The first region starts and the last one begins within one 48-bit window, as in the kernel half. */
  ghost predicate Windowed(rs: seq<Region>, win: nat)
    requires |rs| >= 2
  {
    win * WINDOW <= rs[0].base && rs[|rs| - 1].base < (win + 1) * WINDOW
  }

  function FirstPage(g: Region): nat {
    PageNumber(g.base)
  }

  function EndPage(g: Region): nat {
    PageNumber(g.base) + g.length / 4096
  }

  /** Inside one window, page numbers follow addresses. */
  lemma PageInWindow(a: nat, win: nat)
    requires win * WINDOW <= a < (win + 1) * WINDOW
    ensures PageNumber(a) == (a - win * WINDOW) / 4096
  {
    var t := a - win * WINDOW;
    assert a / 4096 == win * PAGES + t / 4096;
    assert t / 4096 < PAGES;
    DivUnique(a / 4096, PAGES, win, t / 4096);
  }

  lemma RegionPages(g: Region, win: nat)
    requires Whole(g) && win * WINDOW <= g.base && End(g) <= (win + 1) * WINDOW
    ensures FirstPage(g) == (g.base - win * WINDOW) / 4096 && EndPage(g) == (End(g) - win * WINDOW) / 4096
    ensures FirstPage(g) < EndPage(g) <= PAGES
  {
    PageInWindow(g.base, win);
    var b, l := (g.base - win * WINDOW) / 4096, g.length / 4096;
    assert g.base - win * WINDOW == 4096 * b && g.length == 4096 * l;
  }

  /** The region may lie at index `i` of a list in window `win`. */
  lemma InnerPages(rs: seq<Region>, win: nat, i: nat)
    requires Ordered(rs) && Windowed(rs, win) && i < |rs| - 1
    ensures win * WINDOW <= rs[i].base && End(rs[i]) <= (win + 1) * WINDOW && Whole(rs[i])
    ensures FirstPage(rs[i]) == (rs[i].base - win * WINDOW) / 4096
    ensures EndPage(rs[i]) == (End(rs[i]) - win * WINDOW) / 4096 && EndPage(rs[i]) <= PAGES
  {
    assert Whole(rs[i]);
    InOrder(rs, i, |rs| - 1);
    if i > 0 {
      InOrder(rs, 0, i);
    }
    RegionPages(rs[i], win);
  }

  predicate HasPage(g: Region, n: nat) {
    FirstPage(g) <= n < EndPage(g)
  }

  lemma PagesInOrder(rs: seq<Region>, win: nat, i: nat, j: nat)
    requires Ordered(rs) && Windowed(rs, win) && i < j < |rs| - 1
    ensures EndPage(rs[i]) <= FirstPage(rs[j])
  {
    InnerPages(rs, win, i);
    InnerPages(rs, win, j);
    InOrder(rs, i, j);
  }

  /** Page `n` belongs to a region between the direct map and the kernel image. */
  ghost predicate Claimed(rs: seq<Region>, n: nat) {
    exists i :: 0 < i < |rs| - 1 && HasPage(rs[i], n)
  }

  /** Page `n` lies between the direct map and the kernel image. */
  ghost predicate Between(rs: seq<Region>, n: nat)
    requires |rs| >= 2
  {
    EndPage(rs[0]) <= n < FirstPage(rs[|rs| - 1])
  }

  /** The pages of the regions are the backed pages, with the regions' flags; other pages between are not mapped. */
  ghost predicate Backed(w: World, rs: seq<Region>)
    requires |rs| >= 2
  {
    && (forall n: nat :: n in w.pages.frameOf <==> Claimed(rs, n))
    && (forall i, n: nat {:trigger HasPage(rs[i], n)} :: 0 < i < |rs| - 1 && HasPage(rs[i], n) ==>
          n in w.bits && Encodes(w.bits[n], rs[i].flags))
    && (forall n: nat :: Between(rs, n) && n !in w.pages.frameOf ==> LeafWord(X86, w.mem, w.tree, n) == 0)
  }

  // ---- a region is added ----

  /** The gap the new region goes into has no pages of other regions. */
  lemma GapUnclaimed(rs: seq<Region>, win: nat, at: nat, g: Region, n: nat)
    requires Ordered(rs) && Windowed(rs, win) && at + 1 < |rs| && Ordered(Insert(rs, at, g))
    requires HasPage(g, n)
    ensures !Claimed(rs, n) && Between(rs, n)
  {
    var rs' := Insert(rs, at, g);
    assert rs'[at + 1] == g && Windowed(rs', win);
    forall i | 0 < i < |rs| - 1
      ensures !HasPage(rs[i], n)
    {
      if i <= at {
        assert rs'[i] == rs[i];
        PagesInOrder(rs', win, i, at + 1);
      } else {
        assert rs'[i + 1] == rs[i];
        PagesInOrder(rs', win, at + 1, i + 1);
      }
    }
    assert rs'[0] == rs[0];
    PagesInOrder(rs', win, 0, at + 1);
    InnerPages(rs', win, at + 1);
    InOrder(rs', at + 1, |rs'| - 1);
    PageInWindow(rs[|rs| - 1].base, win);
  }

  lemma ClaimedInserted(rs: seq<Region>, at: nat, g: Region, n: nat)
    requires at + 1 < |rs|
    ensures Claimed(Insert(rs, at, g), n) <==> Claimed(rs, n) || HasPage(g, n)
  {
    var rs' := Insert(rs, at, g);
    assert rs'[at + 1] == g;
    assert forall i :: 0 <= i <= at ==> rs'[i] == rs[i];
    assert forall i :: at < i < |rs| ==> rs'[i + 1] == rs[i];
    if Claimed(rs, n) {
      var i :| 0 < i < |rs| - 1 && HasPage(rs[i], n);
      assert HasPage(rs'[if i <= at then i else i + 1], n);
    }
    if HasPage(g, n) {
      assert HasPage(rs'[at + 1], n);
    }
    if Claimed(rs', n) {
      var i :| 0 < i < |rs'| - 1 && HasPage(rs'[i], n);
      assert i != at + 1 ==> HasPage(rs[if i <= at then i else i - 1], n);
    }
  }

  lemma BackedInserted(w: World, rs: seq<Region>, win: nat, at: nat, g: Region, w': World)
    requires Ordered(rs) && Windowed(rs, win) && at + 1 < |rs| && Ordered(Insert(rs, at, g)) && Backed(w, rs)
    requires forall n :: n in w'.pages.frameOf <==> n in w.pages.frameOf || HasPage(g, n)
    requires forall n :: n in w.bits && !HasPage(g, n) ==> n in w'.bits && w'.bits[n] == w.bits[n]
    requires forall n :: HasPage(g, n) ==> n in w'.bits && Encodes(w'.bits[n], g.flags)
    requires forall n :: !HasPage(g, n) ==> LeafWord(X86, w'.mem, w'.tree, n) == LeafWord(X86, w.mem, w.tree, n)
    ensures Backed(w', Insert(rs, at, g))
  {
    var rs' := Insert(rs, at, g);
    forall n: nat
      ensures n in w'.pages.frameOf <==> Claimed(rs', n)
    {
      ClaimedInserted(rs, at, g, n);
    }
    forall n: nat | HasPage(g, n)
      ensures !Claimed(rs, n)
    {
      GapUnclaimed(rs, win, at, g, n);
    }
    forall i, n: nat | 0 < i < |rs'| - 1 && HasPage(rs'[i], n)
      ensures n in w'.bits && Encodes(w'.bits[n], rs'[i].flags)
    {
      FlagsInserted(w, rs, at, g, w', i, n);
    }
    assert rs'[0] == rs[0] && rs'[|rs'| - 1] == rs[|rs| - 1];
  }

  lemma FlagsInserted(w: World, rs: seq<Region>, at: nat, g: Region, w': World, i: nat, n: nat)
    requires at + 1 < |rs| && Backed(w, rs) && 0 < i < |rs| && HasPage(Insert(rs, at, g)[i], n)
    requires HasPage(g, n) ==> !Claimed(rs, n) && n in w'.bits && Encodes(w'.bits[n], g.flags)
    requires n in w.bits && !HasPage(g, n) ==> n in w'.bits && w'.bits[n] == w.bits[n]
    ensures n in w'.bits && Encodes(w'.bits[n], Insert(rs, at, g)[i].flags)
  {
    var rs' := Insert(rs, at, g);
    if i == at + 1 {
      assert rs'[i] == g;
    } else {
      var j := if i <= at then i else i - 1;
      assert rs'[i] == rs[j] && HasPage(rs[j], n) && Claimed(rs, n);
    }
  }

  // ---- a region is removed ----

  lemma ClaimedRemoved(rs: seq<Region>, win: nat, k: nat, n: nat)
    requires Ordered(rs) && Windowed(rs, win) && 0 < k < |rs| - 1
    ensures Claimed(Remove(rs, k), n) <==> Claimed(rs, n) && !HasPage(rs[k], n)
  {
    var rs' := Remove(rs, k);
    assert forall i :: 0 <= i < k ==> rs'[i] == rs[i];
    assert forall i :: k <= i < |rs'| ==> rs'[i] == rs[i + 1];
    if Claimed(rs, n) && !HasPage(rs[k], n) {
      var i :| 0 < i < |rs| - 1 && HasPage(rs[i], n);
      assert HasPage(rs'[if i < k then i else i - 1], n);
    }
    if Claimed(rs', n) {
      var i :| 0 < i < |rs'| - 1 && HasPage(rs'[i], n);
      var j := if i < k then i else i + 1;
      assert HasPage(rs[j], n);
      if j < k {
        PagesInOrder(rs, win, j, k);
      } else {
        PagesInOrder(rs, win, k, j);
      }
    }
  }

  lemma BackedRemoved(w: World, rs: seq<Region>, win: nat, k: nat, w': World)
    requires Ordered(rs) && Windowed(rs, win) && 0 < k < |rs| - 1 && Backed(w, rs)
    requires forall n :: n in w'.pages.frameOf <==> n in w.pages.frameOf && !HasPage(rs[k], n)
    requires w'.bits == w.bits
    requires forall n :: LeafWord(X86, w'.mem, w'.tree, n) ==
                         if HasPage(rs[k], n) then 0 else LeafWord(X86, w.mem, w.tree, n)
    ensures Backed(w', Remove(rs, k))
  {
    var rs' := Remove(rs, k);
    forall n: nat
      ensures n in w'.pages.frameOf <==> Claimed(rs', n)
    {
      ClaimedRemoved(rs, win, k, n);
    }
    forall i, n: nat | 0 < i < |rs'| - 1 && HasPage(rs'[i], n)
      ensures n in w'.bits && Encodes(w'.bits[n], rs'[i].flags)
    {
      var j := if i < k then i else i + 1;
      assert rs'[i] == rs[j] && HasPage(rs[j], n);
    }
    assert rs'[0] == rs[0] && rs'[|rs'| - 1] == rs[|rs| - 1];
  }
}
