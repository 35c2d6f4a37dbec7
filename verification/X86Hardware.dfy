/**
 What an x86-64 processor makes of page tables (4-level paging, Intel SDM volume 3A, section 4.5), read off the
 manual's bit positions and independent of how the kernel builds or reads an entry.
 */
module X86Hardware {
  import opened Memory

  /** What a translation permits, and the three bits that select its memory type. */
  datatype Access = Access(write: bit, user: bit, nexec: bit, global: bit, pwt: bit, pcd: bit, pat: bit)

  datatype Translation = Fault | LargePage | Translated(frame: nat, access: Access)

  /** Bit 0: the entry is in use. */
  predicate Present(w: nat) {
    w % 2 == 1
  }

  /** Bit 1. */
  function Writable(w: nat): bit {
    w / 2 % 2
  }

  /** Bit 2. */
  function UserMode(w: nat): bit {
    w / 4 % 2
  }

  /** Bit 63. */
  function NoExecute(w: nat): bit {
    w / 0x8000_0000_0000_0000 % 2
  }

  /** Bit 7 of an entry above the leaves: it maps a large page. */
  predicate Large(w: nat) {
    w / 128 % 2 == 1
  }

  /** Bits 12 to 51: the frame of the next table, or of the page. */
  function Frame(w: nat): nat {
    w / 0x1000 % 0x100_0000_0000
  }

  /** A 4-KByte leaf: global in bit 8, and the memory type in bits 3 (PWT), 4 (PCD) and 7 (PAT). */
  function LeafAccess(w: nat): Access {
    Access(Writable(w), UserMode(w), NoExecute(w), w / 256 % 2, w / 8 % 2, w / 16 % 2, w / 128 % 2)
  }

  /** Bits 39 to 47, 30 to 38, 21 to 29 and 12 to 20 of the address index the four tables. */
  function Selected(virt: nat, lvl: nat): (i: nat)
    requires 1 <= lvl <= 4
    ensures i < 512
  {
    (if lvl == 4 then virt / 0x80_0000_0000
     else if lvl == 3 then virt / 0x4000_0000
     else if lvl == 2 then virt / 0x20_0000
     else virt / 0x1000) % 512
  }

  /**
   The walk: write and user access need their bit at every level, no-execute takes effect from any level, and bit 7
   is reserved in the root.
   */
  function Walk(mem: Mem, table: nat, virt: nat, lvl: nat, write: bit, user: bit, nexec: bit): Translation
    requires 1 <= lvl <= 4
    decreases lvl
  {
    if table !in mem then Fault
    else
      var e := mem[table][Selected(virt, lvl)];
      var a := LeafAccess(e);
      var write', user' := write * a.write, user * a.user;
      var nexec' := if nexec == 1 then 1 else a.nexec;
      if !Present(e) then Fault
      else if lvl == 1 then Translated(Frame(e), a.(write := write', user := user', nexec := nexec'))
      else if Large(e) then if lvl == 4 then Fault else LargePage
      else Walk(mem, Frame(e), virt, lvl - 1, write', user', nexec')
  }

  function Translate(mem: Mem, root: nat, virt: nat): Translation {
    Walk(mem, root, virt, 4, 1, 1, 0)
  }

  /** What a leaf word says on its own. */
  function LeafMeaning(w: nat): Translation {
    if Present(w) then Translated(Frame(w), LeafAccess(w)) else Fault
  }
}
