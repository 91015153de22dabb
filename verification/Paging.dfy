/**
 The hardware side: four-level address translation over a byte-addressed physical memory
 (Intel SDM Vol. 3A, sections 4.5 and 4.6), and what one ring-3 store does through it.
 */
module Paging {
  import opened Bytes

  const GIB4: nat := 0x1_0000_0000
  const TABLE: nat := 0x1000
  const BIG_PAGE: nat := 0x20_0000

  /** Where a virtual address lands, and whether ring 3 may read or write there. */
  datatype Access = Access(pa: nat, user: bool, writable: bool)

  // ---- Table entries --------------------------------------------------------

  predicate Present(e: nat) { e % 2 == 1 }

  predicate Writable(e: nat) { e / 2 % 2 == 1 }

  predicate User(e: nat) { e / 4 % 2 == 1 }

  predicate Huge(e: nat) { e / 0x80 % 2 == 1 }

  /** Bits 51..12: the address of the next table, or of a 4 KiB page. */
  function Frame(e: nat): nat { e / 0x1000 * 0x1000 % 0x10_0000_0000_0000 }

  /** Entry i of the 512-entry table at physical address t. */
  function Slot(m: seq<byte>, t: nat, i: nat): nat
    requires i < 512 && t + TABLE <= |m|
  {
    Get64(m, t + 8 * i)
  }

  /** A present entry of a table that lies in memory. */
  function Entry(m: seq<byte>, t: nat, i: nat): Option<nat>
    requires i < 512
  {
    if t + TABLE <= |m| && Present(Slot(m, t, i)) then Some(Slot(m, t, i)) else None
  }

  /** A virtual address whose bits 63..47 are all equal. */
  predicate Canonical(va: u64) { va / 0x8000_0000_0000 == 0 || va / 0x8000_0000_0000 == 0x1_FFFF }

  /** The final step for a large page of the given size: reserved address bits must be clear. */
  function Large(e: nat, va: u64, size: nat, user: bool, writable: bool): Option<Access>
    requires size > 0x2000
  {
    if e % size / 0x2000 != 0 then None
    else Some(Access(e / size * size % 0x10_0000_0000_0000 + va % size, user && User(e), writable && Writable(e)))
  }

  /** The page walk from the top-level table at cr3; None is a page fault for ring 0 too. */
  function Walk(m: seq<byte>, cr3: nat, va: u64): Option<Access>
  {
    if !Canonical(va) then None else
    match Entry(m, Frame(cr3), va / 0x80_0000_0000 % 512)
    case None => None
    case Some(e4) =>
      match Entry(m, Frame(e4), va / 0x4000_0000 % 512)
      case None => None
      case Some(e3) =>
        var u3 := User(e4) && User(e3);
        var w3 := Writable(e4) && Writable(e3);
        if Huge(e3) then Large(e3, va, 0x4000_0000, u3, w3) else
        match Entry(m, Frame(e3), va / BIG_PAGE % 512)
        case None => None
        case Some(e2) =>
          if Huge(e2) then Large(e2, va, BIG_PAGE, u3, w3) else
          match Entry(m, Frame(e2), va / TABLE % 512)
          case None => None
          case Some(e1) => Some(Access(Frame(e1) + va % TABLE, u3 && User(e2) && User(e1), w3 && Writable(e2) && Writable(e1)))
  }

  // ---- Ring-3 accesses ------------------------------------------------------

  predicate UserWritable(m: seq<byte>, cr3: nat, va: u64)
  {
    var w := Walk(m, cr3, va);
    w.Some? && w.value.user && w.value.writable && w.value.pa < |m|
  }

  /** A ring-3 byte store: it changes one byte, or faults and changes nothing. */
  function UserStore(m: seq<byte>, cr3: nat, va: u64, v: byte): seq<byte>
  {
    if UserWritable(m, cr3, va) then m[Walk(m, cr3, va).value.pa := v] else m
  }
}
