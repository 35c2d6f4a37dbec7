/**
 Physical memory as the kernel sees it through the higher-half direct map (HHDM).

 A frame is a physical page number; its contents are 512 words of 8 bytes.  The HHDM adds one
 constant to every physical address, so a kernel pointer into the direct map is represented
 by the physical address it stands for.
 */
module Memory {

  const PAGE_SIZE: nat := 4096
  const PAGE_WORDS: nat := 512

  type bit = b: nat | b <= 1

  datatype Option<+T> = None | Some(value: T)

  type Page = p: seq<nat> | |p| == 512 witness seq(512, i => 0)

  type Mem = map<nat, Page>

  /** What `write_bytes(0, PAGE_SIZE)` leaves behind. */
  function ZeroPage(): (p: Page)
    ensures forall i :: 0 <= i < 512 ==> p[i] == 0
  {
    seq(512, i => 0)
  }

  function SetWord(m: Mem, f: nat, i: nat, w: nat): (m': Mem)
    requires f in m && i < 512
    ensures m'.Keys == m.Keys
    ensures m'[f][i] == w
    ensures forall j :: 0 <= j < 512 && j != i ==> m'[f][j] == m[f][j]
    ensures forall g :: g in m && g != f ==> m'[g] == m[g]
  {
    m[f := m[f][i := w]]
  }

  ghost function Elems<T>(s: seq<T>): set<T> {
    set x | x in s
  }

  ghost predicate NoDup<T>(s: seq<T>) {
    forall i, j :: 0 <= i < j < |s| ==> s[i] != s[j]
  }

  /** The two memories hold the same contents in every frame of `fs`. */
  ghost predicate SameOn(m: Mem, m': Mem, fs: set<nat>) {
    forall f :: f in fs ==> f in m && f in m' && m'[f] == m[f]
  }

  /**
   A predicate of the form `forall k {:trigger Open(k)} :: Open(k) ==> P` means `P`, but the verifier
   unfolds it only in proofs that mention `Open`.
   */
  ghost predicate Open(k: nat) {
    true
  }

  /** A second key of the same kind, for statements about the bits of table entries and about what runs reach. */
  ghost predicate Spell(k: nat) {
    true
  }

  lemma NoDupTail<T>(s: seq<T>)
    requires NoDup(s) && s != []
    ensures NoDup(s[1..]) && s[0] !in s[1..]
    ensures Elems(s) == Elems(s[1..]) + {s[0]}
  {
    assert forall x :: x in s <==> x == s[0] || x in s[1..];
  }

  lemma NoDupCons<T>(x: T, s: seq<T>)
    requires NoDup(s) && x !in s
    ensures NoDup([x] + s)
    ensures Elems([x] + s) == Elems(s) + {x}
  {
    assert forall y :: y in [x] + s <==> y == x || y in s;
  }

  lemma DivUnique(w: nat, u: nat, q: nat, r: nat)
    requires u > 0 && r < u && w == u * q + r
    ensures w / u == q
  {
    var d := w / u - q;
    assert u * (w / u) == u * q + u * d;
    assert 0 - u < u * d < u;
    assert d <= -1 ==> u * d <= 0 - u;
    assert d >= 1 ==> u * d >= u;
  }
}
