/**
 What a RISC-V hart makes of page tables (Privileged Architecture, sections 4.3.1 and 4.3.2, for any number of levels),
 read off the manual's bit positions and independent of how the kernel builds or reads an entry.
 */
module RiscvHardware {
  import opened Memory

  /** What a translation permits. */
  datatype Access = Access(read: bit, write: bit, execute: bit, user: bit, global: bit)

  datatype Translation = Fault | LargePage | Translated(frame: nat, access: Access)

  /** Bit 0. */
  predicate Valid(w: nat) {
    w % 2 == 1
  }

  /** Bits 1 to 5. */
  function Rights(w: nat): Access {
    Access(w / 2 % 2, w / 4 % 2, w / 8 % 2, w / 16 % 2, w / 32 % 2)
  }

  /** Bits 10 to 53: the physical page number. */
  function Frame(w: nat): nat {
    w / 0x400 % 0x1000_0000_0000
  }

  /** Nine bits of the virtual page number for each level. */
  function Vpn(page: nat, level: nat): (i: nat)
    ensures i < 512
  {
    if level == 0 then page % 512 else Vpn(page / 512, level - 1)
  }

  /** Write without read is reserved. */
  predicate Usable(w: nat) {
    Valid(w) && !(Rights(w).read == 0 && Rights(w).write == 1)
  }

  /** Read or execute makes an entry a leaf. */
  predicate Leaf(w: nat) {
    Rights(w).read == 1 || Rights(w).execute == 1
  }

  function Walk(mem: Mem, table: nat, virt: nat, level: nat): Translation
    decreases level
  {
    if table !in mem then Fault
    else
      var e := mem[table][Vpn(virt / 4096, level)];
      if !Usable(e) then Fault
      else if Leaf(e) then if level == 0 then Translated(Frame(e), Rights(e)) else LargePage
      else if level == 0 then Fault
      else Walk(mem, Frame(e), virt, level - 1)
  }

  /** What a leaf word says on its own. */
  function LeafMeaning(w: nat): Translation {
    if Usable(w) && Leaf(w) then Translated(Frame(w), Rights(w)) else Fault
  }
}
