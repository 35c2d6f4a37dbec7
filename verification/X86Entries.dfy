/**
 x86-64 page-table entries (4-level paging, Intel SDM volume 3A, section 4.5).

 Masks and shifts by constants are written as division and remainder, and a bitwise or of
 disjoint fields as a sum.  A flag is its binary digit.
 */
module X86Entries {
  import opened Memory
  import opened X86Hardware

  const FRAMES: nat := 0x100_0000_0000          // the address field, bits 12 to 51, holds 2^40 frames
  const NX_BIT: nat := 0x8000_0000_0000_0000
  const WORDS: nat := 0x1_0000_0000_0000_0000

  /** The `PT` flag set. */
  datatype Flags = Flags(present: bit, write: bit, user: bit, nexec: bit, global: bit,
                         gigapage: bit, megapage: bit, pwt: bit, pcd: bit, pat: bit)

  datatype VmmFlags = VmmFlags(write: bit, executable: bit, global: bit, user: bit, nocache: bit)

  /** The digit of weight `unit`, a power of two, in `w`. */
  function Bit(w: nat, unit: nat): bit
    requires unit > 0
  {
    w / unit % 2
  }

  /** `PT::from_vmmflags`: never a large page, and the PAT bit is left alone. */
  function FromVmmFlags(f: VmmFlags): (p: Flags)
    ensures p.gigapage == 0 && p.megapage == 0 && p.pat == 0
  {
    Flags(1, f.write, f.user, 1 - f.executable, f.global, 0, 0, f.nocache, f.nocache, 0)
  }

  /** `PT::new`: the flags an entry carries at a level. */
  function Decode(w: nat, lvl: nat): Flags {
    var base := Flags(Bit(w, 1), Bit(w, 2), Bit(w, 4), Bit(w, NX_BIT), 0, 0, 0, Bit(w, 8), Bit(w, 16), 0);
    if lvl == 3 && Bit(w, 128) == 1 then base.(gigapage := 1, global := Bit(w, 256), pat := Bit(w, 4096))
    else if lvl == 2 && Bit(w, 128) == 1 then base.(megapage := 1, global := Bit(w, 256), pat := Bit(w, 4096))
    else if lvl == 1 then base.(global := Bit(w, 256), pat := Bit(w, 128))
    else base
  }

  /** The digits every level encodes alike, with digits 7 and 8 given. */
  function LowBits(f: Flags, bit7: bit, bit8: bit): nat {
    f.present + 2 * f.write + 4 * f.user + 8 * f.pwt + 16 * f.pcd + 128 * bit7 + 256 * bit8
  }

  /** The flags of `f` that an entry at level `lvl` can carry. */
  function Carried(f: Flags, lvl: nat): Flags {
    if lvl == 3 && f.gigapage == 1 then f.(megapage := 0)
    else if lvl == 2 && f.megapage == 1 then f.(gigapage := 0)
    else if lvl == 1 then f.(gigapage := 0, megapage := 0)
    else f.(gigapage := 0, megapage := 0, global := 0, pat := 0)
  }

  /** The digit of weight `unit` in a word split around it. */
  lemma OneDigit(w: nat, unit: nat, hi: nat, c: bit, lo: nat)
    requires lo < unit
    requires w == unit * (2 * hi + c) + lo
    ensures Bit(w, unit) == c
  {
    DivUnique(w, unit, 2 * hi + c, lo);
  }

  /** The low nine digits of an entry, read back one by one; digits 5 and 6 are clear. */
  lemma LowDigits(w: nat, hi: nat, f: Flags, c7: bit, c8: bit)
    requires w == 512 * hi + LowBits(f, c7, c8)
    ensures Bit(w, 1) == f.present && Bit(w, 2) == f.write && Bit(w, 4) == f.user
    ensures Bit(w, 8) == f.pwt && Bit(w, 16) == f.pcd && Bit(w, 128) == c7 && Bit(w, 256) == c8
    ensures LowBits(f, c7, c8) < 512
  {
    var t2 := 4 * f.user + 2 * f.write + f.present;
    var t4 := 16 * f.pcd + 8 * f.pwt + t2;
    var h4 := 16 * hi + 8 * c8 + 4 * c7;
    var h2 := 4 * h4 + 2 * f.pcd + f.pwt;
    OneDigit(w, 256, hi, c8, 128 * c7 + t4);
    OneDigit(w, 128, 2 * hi + c8, c7, t4);
    OneDigit(w, 16, h4, f.pcd, 8 * f.pwt + t2);
    OneDigit(w, 8, 2 * h4 + f.pcd, f.pwt, t2);
    OneDigit(w, 4, h2, f.user, 2 * f.write + f.present);
    OneDigit(w, 2, 2 * h2 + f.user, f.write, f.present);
    OneDigit(w, 1, 4 * h2 + 2 * f.user + f.write, f.present, 0);
  }

  /** Digits 12 to 63 of an entry with the frame field `mid` and low bits `low`. */
  lemma HighDigits(w: nat, low: nat, mid: nat, c63: bit)
    requires low < 4096 && mid < FRAMES
    requires w == NX_BIT * c63 + 4096 * mid + low
    ensures Bit(w, NX_BIT) == c63 && w / 4096 % FRAMES == mid && Bit(w, 4096) == mid % 2
    ensures w < WORDS
  {
    OneDigit(w, NX_BIT, 0, c63, 4096 * mid + low);
    DivUnique(w, 4096, mid + 0x8_0000_0000_0000 * c63, low);
  }

  /** `PT::new` reads exactly the flags `f` in the word `w`; unfolded in proofs that mention `Spell`. */
  ghost predicate Reads(w: nat, lvl: nat, f: Flags) {
    forall k {:trigger Spell(k)} :: Spell(k) ==> Decode(w, lvl) == f
  }

  /** `PT::build_permissions`: decoding inverts it, up to the flags the level has no bit for. */
  function BuildPermissions(f: Flags, lvl: nat): (w: nat)
    requires 1 <= lvl <= 4
    ensures Reads(w, lvl, Carried(f, lvl))
  {
    var hi := 0x40_0000_0000_0000 * f.nexec;
    if (lvl == 3 && f.gigapage == 1) || (lvl == 2 && f.megapage == 1) then
      var w := NX_BIT * f.nexec + 4096 * f.pat + LowBits(f, 1, f.global);
      LowDigits(w, 8 * f.pat + hi, f, 1, f.global);
      HighDigits(w, LowBits(f, 1, f.global), f.pat, f.nexec);
      w
    else if lvl == 1 then
      var w := NX_BIT * f.nexec + LowBits(f, f.pat, f.global);
      LowDigits(w, hi, f, f.pat, f.global);
      HighDigits(w, LowBits(f, f.pat, f.global), 0, f.nexec);
      w
    else
      var w := NX_BIT * f.nexec + LowBits(f, 0, 0);
      LowDigits(w, hi, f, 0, 0);
      HighDigits(w, LowBits(f, 0, 0), 0, f.nexec);
      w
  }

  /** `PT::new` reads the bits where the processor does: a large page exactly where it sees one. */
  lemma DecodeIsHardware(w: nat, lvl: nat)
    requires 1 <= lvl <= 4
    ensures var f := Decode(w, lvl);
            && (f.present == 1 <==> Present(w)) && f.write == Writable(w) && f.user == UserMode(w)
            && f.nexec == NoExecute(w) && f.pwt == LeafAccess(w).pwt && f.pcd == LeafAccess(w).pcd
            && (f.megapage == 1 <==> lvl == 2 && Large(w)) && (f.gigapage == 1 <==> lvl == 3 && Large(w))
            && (lvl == 1 ==> f.global == LeafAccess(w).global && f.pat == LeafAccess(w).pat)
            && (lvl == 2 || lvl == 3 ==> f.global == if Large(w) then w / 256 % 2 else 0)
            && (lvl == 2 || lvl == 3 ==> f.pat == if Large(w) then w / 4096 % 2 else 0)
            && (lvl == 4 ==> f.global == 0 && f.pat == 0)
  {
  }

  function ExtractPhys(pte: nat): nat {
    pte / 4096 % FRAMES * 4096
  }

  /** The leaf word `w` names `frame`, carries the flags `f` and fits 64 bits; unfolded with `Spell`. */
  ghost predicate Names(w: nat, frame: nat, f: Flags) {
    forall k {:trigger Spell(k)} :: Spell(k) ==> w / 4096 % FRAMES == frame && Decode(w, 1) == f && w < WORDS
  }

  /** To the processor the leaf word `w` is the translation `t`, and it fits 64 bits; unfolded with `Spell`. */
  ghost predicate Means(w: nat, t: Translation) {
    forall k {:trigger Spell(k)} :: Spell(k) ==> LeafMeaning(w) == t && w < WORDS
  }

  /** A page with the flags `f` on the frame of `phys`, as the processor should see it. */
  function Seen(phys: nat, f: Flags): Translation {
    if f.present == 0 then Fault
    else Translated(phys / 4096 % 0x100_0000_0000, Access(f.write, f.user, f.nexec, f.global, f.pwt, f.pcd, f.pat))
  }

  /** The word `map4kib` writes names the frame of `phys` and carries the flags, for the code and for the processor. */
  function LeafEntry(phys: nat, f: Flags): (w: nat)
    ensures Names(w, phys / 4096 % FRAMES, Carried(f, 1)) && Means(w, Seen(phys, f))
  {
    var frame := phys / 4096 % FRAMES;
    var w := ExtractPhys(phys) + BuildPermissions(f, 1);
    LowDigits(w, 8 * frame + 0x40_0000_0000_0000 * f.nexec, f, f.pat, f.global);
    HighDigits(w, LowBits(f, f.pat, f.global), frame, f.nexec);
    w
  }

  /** A table pointer is present, writable, reachable from user mode and never a large page. */
  lemma TablePointer(frame: nat, lvl: nat)
    requires 0 < frame < FRAMES && 2 <= lvl <= 4
    ensures var w := 4096 * frame + 7;
            && w / 4096 % FRAMES == frame
            && w % NX_BIT / 4096 == frame
            && Decode(w, lvl) == Flags(1, 1, 1, 0, 0, 0, 0, 0, 0, 0)
  {
    var w := 4096 * frame + 7;
    assert w < NX_BIT;
  }
}
