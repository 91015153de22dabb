/**
 Per-task address spaces: the boot identity map, the bump allocator for page-table pages, and
 the construction of a user address space from them.
 */
module Vmm {
  import opened Bytes
  import opened Paging

  const POOL_BASE: nat := 0x1840_0000
  const POOL_END: nat := 0x1880_0000

  // ---- What the tables say --------------------------------------------------

  /** Table t holds f(i) in slot i, for every i. */
  ghost predicate Holds(m: seq<byte>, t: nat, f: nat -> nat)
    requires t + TABLE <= |m|
  {
    forall i: nat {:trigger Slot(m, t, i)} | i < 512 :: Slot(m, t, i) == f(i)
  }

  /** Boot layout: PML4, PDPT and four page directories in six consecutive pages. */
  ghost function BootPml4(boot: nat): nat -> nat
  {
    i => if i == 0 then boot + 0x1007 else 0
  }

  ghost function BootPdpt(boot: nat): nat -> nat
  {
    i => if i < 2 then boot + 0x2007 + 0x1000 * i else if i < 4 then boot + 0x2003 + 0x1000 * i else 0
  }

  ghost function BootPd(k: nat): nat -> nat
  {
    i => 0x4000_0000 * k + BIG_PAGE * i + (if k < 2 then 0x87 else 0x83)
  }

  ghost predicate BootTables(m: seq<byte>, boot: nat)
  {
    && boot % TABLE == 0 && boot + 6 * TABLE <= |m| && |m| == GIB4
    && Holds(m, boot, BootPml4(boot))
    && Holds(m, boot + 0x1000, BootPdpt(boot))
    && Holds(m, boot + 0x2000, BootPd(0))
    && Holds(m, boot + 0x3000, BootPd(1))
    && Holds(m, boot + 0x4000, BootPd(2))
    && Holds(m, boot + 0x5000, BootPd(3))
  }

  /** The two 2 MiB pages that a window starting at base opens to ring 3. */
  predicate UserPage(base: u64, i: nat)
  {
    i == base / BIG_PAGE % 512 || i == (base + 0x3F_FFFF) % TWO64 / BIG_PAGE % 512
  }

  ghost function SpacePml4(p: nat): nat -> nat
  {
    i => if i == 0 then p + 0x1007 else 0
  }

  ghost function SpacePdpt(p: nat, boot: nat): nat -> nat
  {
    i => if i == 0 then p + 0x2007 else if i < 4 then boot + 0x2003 + 0x1000 * i else 0
  }

  ghost function SpacePd(base: u64): nat -> nat
  {
    i => BIG_PAGE * i + (if UserPage(base, i) then 0x87 else 0x83)
  }

  /** Three finished tables for a task window at base, the PML4 at p. */
  ghost predicate Built(m: seq<byte>, boot: nat, p: nat, base: u64)
  {
    && p % TABLE == 0 && p + 3 * TABLE <= |m|
    && Holds(m, p, SpacePml4(p))
    && Holds(m, p + 0x1000, SpacePdpt(p, boot))
    && Holds(m, p + 0x2000, SpacePd(base))
  }

  // ---- Framing --------------------------------------------------------------

  lemma HoldsFrame(m: seq<byte>, r: seq<byte>, lo: int, hi: int, t: nat, f: nat -> nat)
    requires SameOutside(m, r, lo, hi) && t + TABLE <= |m| && Holds(m, t, f)
    requires t + TABLE <= lo || hi <= t
    ensures Holds(r, t, f)
  {
    forall i: nat | i < 512 ensures Slot(r, t, i) == f(i) {
      Get64Frame(m, r, lo, hi, t + 8 * i);
      assert Slot(m, t, i) == f(i);
    }
  }

  lemma BootFrame(m: seq<byte>, r: seq<byte>, lo: int, hi: int, boot: nat)
    requires SameOutside(m, r, lo, hi) && BootTables(m, boot)
    requires boot + 6 * TABLE <= lo || hi <= boot
    ensures BootTables(r, boot)
  {
    HoldsFrame(m, r, lo, hi, boot, BootPml4(boot));
    HoldsFrame(m, r, lo, hi, boot + 0x1000, BootPdpt(boot));
    HoldsFrame(m, r, lo, hi, boot + 0x2000, BootPd(0));
    HoldsFrame(m, r, lo, hi, boot + 0x3000, BootPd(1));
    HoldsFrame(m, r, lo, hi, boot + 0x4000, BootPd(2));
    HoldsFrame(m, r, lo, hi, boot + 0x5000, BootPd(3));
  }

  lemma BuiltFrame(m: seq<byte>, r: seq<byte>, lo: int, hi: int, boot: nat, p: nat, base: u64)
    requires SameOutside(m, r, lo, hi) && Built(m, boot, p, base)
    requires p + 3 * TABLE <= lo || hi <= p
    ensures Built(r, boot, p, base)
  {
    HoldsFrame(m, r, lo, hi, p, SpacePml4(p));
    HoldsFrame(m, r, lo, hi, p + 0x1000, SpacePdpt(p, boot));
    HoldsFrame(m, r, lo, hi, p + 0x2000, SpacePd(base));
  }

  // ---- The translation a built space gives ----------------------------------

  lemma EvenShift(k: nat, x: nat)
    ensures (2 * k + x) % 2 == x % 2
  {
  }

  lemma LowBits(q: nat, f: nat)
    requires f < 0x1000
    ensures (0x1000 * q + f) / 0x1000 == q && (0x1000 * q + f) / 2 == 0x800 * q + f / 2
    ensures (0x1000 * q + f) / 4 == 0x400 * q + f / 4
    ensures (0x1000 * q + f) / 0x80 == 0x20 * q + f / 0x80
  {
  }

  lemma EntryFlags(q: nat, f: nat)
    requires f < 0x1000
    ensures Present(0x1000 * q + f) == (f % 2 == 1) && Writable(0x1000 * q + f) == (f / 2 % 2 == 1)
    ensures User(0x1000 * q + f) == (f / 4 % 2 == 1) && Huge(0x1000 * q + f) == (f / 0x80 % 2 == 1)
  {
    LowBits(q, f);
    EvenShift(0x800 * q, f);
    EvenShift(0x400 * q, f / 2);
    EvenShift(0x200 * q, f / 4);
    EvenShift(0x10 * q, f / 0x80);
  }

  lemma EntryFrame(q: nat, f: nat)
    requires q < 0x100_0000_0000 && f < 0x1000
    ensures Frame(0x1000 * q + f) == 0x1000 * q
  {
    LowBits(q, f);
  }

  /** An entry made of a page-aligned address and low flag bits reads back as those two. */
  lemma EntryParts(a: nat, f: nat)
    requires a % 0x1000 == 0 && a < 0x10_0000_0000_0000 && f < 0x1000
    ensures Frame(a + f) == a
    ensures Present(a + f) == (f % 2 == 1) && Writable(a + f) == (f / 2 % 2 == 1)
    ensures User(a + f) == (f / 4 % 2 == 1) && Huge(a + f) == (f / 0x80 % 2 == 1)
  {
    hide Frame, Present, Writable, User, Huge;
    var q := a / 0x1000;
    assert a == 0x1000 * q;
    EntryFlags(q, f);
    EntryFrame(q, f);
  }

  /** The three indices and the offset of an address below 4 GiB. */
  lemma AddressParts(va: u64)
    requires va < GIB4
    ensures Canonical(va) && va / 0x80_0000_0000 % 512 == 0
    ensures va / 0x4000_0000 % 512 == va / 0x4000_0000 < 4
    ensures va == 0x4000_0000 * (va / 0x4000_0000) + BIG_PAGE * (va / BIG_PAGE % 512) + va % BIG_PAGE
    ensures va < 0x4000_0000 ==> va / BIG_PAGE % 512 == va / BIG_PAGE
  {
    var k, j := va / 0x4000_0000, va / BIG_PAGE;
    assert j / 512 == k;
    assert va == BIG_PAGE * j + va % BIG_PAGE;
  }

  lemma HighAddress(va: u64)
    requires va >= GIB4 && Canonical(va)
    ensures va / 0x80_0000_0000 % 512 != 0 || va / 0x4000_0000 % 512 >= 4
  {
    if va / 0x8000_0000_0000 == 0 {
      assert va / 0x80_0000_0000 < 256;
      if va / 0x80_0000_0000 == 0 {
        assert 4 <= va / 0x4000_0000 < 512;
      }
    } else {
      assert va / 0x80_0000_0000 / 256 == 0x1_FFFF;
    }
  }

  lemma LargeIdentity(k: nat, j: nat, f: nat, va: u64, user: bool)
    requires k < 4 && j < 512 && (f == 0x83 || f == 0x87)
    requires va == 0x4000_0000 * k + BIG_PAGE * j + va % BIG_PAGE
    ensures Huge(0x4000_0000 * k + BIG_PAGE * j + f) && Present(0x4000_0000 * k + BIG_PAGE * j + f)
    ensures Large(0x4000_0000 * k + BIG_PAGE * j + f, va, BIG_PAGE, user, true) == Some(Access(va, user && f == 0x87, true))
  {
    var a := 0x4000_0000 * k + BIG_PAGE * j;
    assert a == BIG_PAGE * (512 * k + j);
    assert a % 0x1000 == 0 by { assert a == 0x1000 * (512 * (512 * k + j)); }
    EntryParts(a, f);
    assert (a + f) / BIG_PAGE == 512 * k + j;
    assert (a + f) % BIG_PAGE == f;
  }

  /** A walk that ends in a 2 MiB page, from the three entries it reads. */
  lemma WalkBigPage(m: seq<byte>, cr3: nat, va: u64, e4: nat, e3: nat, e2: nat)
    requires Canonical(va)
    requires Entry(m, Frame(cr3), va / 0x80_0000_0000 % 512) == Some(e4)
    requires Entry(m, Frame(e4), va / 0x4000_0000 % 512) == Some(e3) && !Huge(e3)
    requires Entry(m, Frame(e3), va / BIG_PAGE % 512) == Some(e2) && Huge(e2)
    ensures Walk(m, cr3, va) == Large(e2, va, BIG_PAGE, User(e4) && User(e3), Writable(e4) && Writable(e3))
  {
  }

  lemma WalkAbove(m: seq<byte>, boot: nat, p: nat, base: u64, va: u64)
    requires BootTables(m, boot) && Built(m, boot, p, base) && va >= GIB4
    ensures Walk(m, p, va) == None
  {
    if Canonical(va) {
      EntryParts(p, 0);
      EntryParts(p + 0x1000, 7);
      var i4, i3 := va / 0x80_0000_0000 % 512, va / 0x4000_0000 % 512;
      HighAddress(va);
      assert Slot(m, p, i4) == SpacePml4(p)(i4);
      assert Slot(m, p + 0x1000, i3) == SpacePdpt(p, boot)(i3);
      if i4 != 0 {
        assert Entry(m, Frame(p), i4) == None;
      } else {
        assert Entry(m, Frame(p), i4) == Some(p + 0x1007);
        assert Entry(m, Frame(p + 0x1007), i3) == None;
      }
    }
  }

  /** A table entry pointing at table a: what the walk reads of it. */
  lemma PointerEntry(m: seq<byte>, t: nat, i: nat, a: nat, f: nat)
    requires t + TABLE <= |m| && i < 512 && Slot(m, t, i) == a + f
    requires a % 0x1000 == 0 && a < GIB4 && (f == 3 || f == 7)
    ensures Entry(m, t, i) == Some(a + f) && Frame(a + f) == a
    ensures !Huge(a + f) && Writable(a + f) && User(a + f) == (f == 7)
  {
    EntryParts(a, f);
  }

  /** A walk through the first PML4 entry, GiB entry k and directory entry j. */
  lemma WalkThrough(m: seq<byte>, p: nat, va: u64, k: nat, j: nat, pd: nat, f3: nat, e2: nat)
    requires Canonical(va) && va / 0x80_0000_0000 % 512 == 0 && va / 0x4000_0000 % 512 == k && va / BIG_PAGE % 512 == j
    requires p % 0x1000 == 0 && p + 2 * TABLE <= |m| && pd % 0x1000 == 0 && pd + TABLE <= |m| <= GIB4
    requires f3 == 3 || f3 == 7
    requires Slot(m, p, 0) == p + 0x1007 && Slot(m, p + 0x1000, k) == pd + f3 && Slot(m, pd, j) == e2
    requires Present(e2) && Huge(e2)
    ensures Walk(m, p, va) == Large(e2, va, BIG_PAGE, f3 == 7, true)
  {
    hide Walk, Huge, Large, Slot, Canonical, Present, Frame, User, Writable;
    assert Frame(p) == p by { EntryParts(p, 0); }
    PointerEntry(m, p, 0, p + 0x1000, 7);
    PointerEntry(m, p + 0x1000, k, pd, f3);
    assert Entry(m, pd, j) == Some(e2);
    hide Entry;
    WalkBigPage(m, p, va, p + 0x1007, pd + f3, e2);
  }

  /** A walk below 4 GiB through GiB entry k, a directory at pd and an identity entry of it. */
  lemma WalkIdentity(m: seq<byte>, p: nat, va: u64, pd: nat, f3: nat, f2: nat)
    requires va < GIB4 && p % 0x1000 == 0 && p + 2 * TABLE <= |m| && pd % 0x1000 == 0 && pd + TABLE <= |m| <= GIB4
    requires f3 == 3 || f3 == 7
    requires f2 == 0x83 || f2 == 0x87
    requires Slot(m, p, 0) == p + 0x1007
    requires Slot(m, p + 0x1000, va / 0x4000_0000 % 512) == pd + f3
    requires Slot(m, pd, va / BIG_PAGE % 512) == 0x4000_0000 * (va / 0x4000_0000) + BIG_PAGE * (va / BIG_PAGE % 512) + f2
    ensures Walk(m, p, va) == Some(Access(va, f3 == 7 && f2 == 0x87, true))
  {
    hide Walk, Huge, Large, Slot, Canonical, Present;
    AddressParts(va);
    var k, j := va / 0x4000_0000, va / BIG_PAGE % 512;
    LargeIdentity(k, j, f2, va, f3 == 7);
    WalkThrough(m, p, va, k, j, pd, f3, 0x4000_0000 * k + BIG_PAGE * j + f2);
  }

  lemma WalkGib0(m: seq<byte>, boot: nat, p: nat, base: u64, va: u64)
    requires BootTables(m, boot) && Built(m, boot, p, base) && va < 0x4000_0000
    ensures Walk(m, p, va) == Some(Access(va, UserPage(base, va / BIG_PAGE), true))
  {
    hide Walk, Slot, UserPage, Built, BootTables;
    var j := va / BIG_PAGE;
    AddressParts(va);
    LowGibSlots(m, boot, p, base, j);
    WalkIdentity(m, p, va, p + 0x2000, 7, if UserPage(base, j) then 0x87 else 0x83);
  }

  lemma LowGibSlots(m: seq<byte>, boot: nat, p: nat, base: u64, j: nat)
    requires BootTables(m, boot) && Built(m, boot, p, base) && j < 512
    ensures p % 0x1000 == 0 && p + 3 * TABLE <= |m| == GIB4 && Slot(m, p, 0) == p + 0x1007 && Slot(m, p + 0x1000, 0) == p + 0x2007
    ensures Slot(m, p + 0x2000, j) == BIG_PAGE * j + (if UserPage(base, j) then 0x87 else 0x83)
  {
    hide Slot, UserPage;
    assert Slot(m, p, 0) == SpacePml4(p)(0);
    assert Slot(m, p + 0x1000, 0) == SpacePdpt(p, boot)(0);
    assert Slot(m, p + 0x2000, j) == SpacePd(base)(j);
  }

  /** GiB 1 to 3 go through the supervisor-only PDPT entries to the boot directories. */
  lemma HighGibSlots(m: seq<byte>, boot: nat, p: nat, base: u64, va: u64)
    requires BootTables(m, boot) && Built(m, boot, p, base) && 0x4000_0000 <= va < GIB4
    ensures var k, j := va / 0x4000_0000, va / BIG_PAGE % 512;
            && 1 <= k < 4 && Slot(m, p, 0) == p + 0x1007
            && Slot(m, p + 0x1000, k % 512) == boot + 0x2003 + 0x1000 * k
            && Slot(m, boot + 0x2000 + 0x1000 * k, j) == 0x4000_0000 * k + BIG_PAGE * j + (if k < 2 then 0x87 else 0x83)
  {
    hide Slot, BootTables;
    var k, j := va / 0x4000_0000, va / BIG_PAGE % 512;
    assert 1 <= k < 4 && j < 512;
    assert Slot(m, p, 0) == SpacePml4(p)(0);
    assert Slot(m, p + 0x1000, k) == SpacePdpt(p, boot)(k);
    DirectorySlot(m, boot, k, j);
  }

  /** The entries of the four boot directories. */
  lemma DirectorySlot(m: seq<byte>, boot: nat, k: nat, j: nat)
    requires BootTables(m, boot) && k < 4 && j < 512
    ensures boot + 6 * TABLE <= |m|
    ensures Slot(m, boot + 0x2000 + 0x1000 * k, j) == 0x4000_0000 * k + BIG_PAGE * j + (if k < 2 then 0x87 else 0x83)
  {
    hide Slot;
    if k == 0 {
      assert Slot(m, boot + 0x2000, j) == BootPd(0)(j);
    } else if k == 1 {
      assert Slot(m, boot + 0x3000, j) == BootPd(1)(j);
    } else if k == 2 {
      assert Slot(m, boot + 0x4000, j) == BootPd(2)(j);
    } else {
      assert Slot(m, boot + 0x5000, j) == BootPd(3)(j);
    }
  }

  lemma HighGibPlaces(m: seq<byte>, boot: nat, p: nat, base: u64, k: nat)
    requires BootTables(m, boot) && Built(m, boot, p, base) && k < 4
    ensures p % 0x1000 == 0 && p + 2 * TABLE <= |m| && (boot + 0x2000 + 0x1000 * k) % 0x1000 == 0
    ensures boot + 0x3000 + 0x1000 * k <= |m| == GIB4
  {
    hide Holds;
  }

  lemma WalkGibHigh(m: seq<byte>, boot: nat, p: nat, base: u64, va: u64)
    requires BootTables(m, boot) && Built(m, boot, p, base) && 0x4000_0000 <= va < GIB4
    ensures Walk(m, p, va) == Some(Access(va, false, true))
  {
    hide Walk, BootTables, Built, Slot;
    HighGibSlots(m, boot, p, base, va);
    var k := va / 0x4000_0000;
    HighGibPlaces(m, boot, p, base, k);
    WalkIdentity(m, p, va, boot + 0x2000 + 0x1000 * k, 3, if k < 2 then 0x87 else 0x83);
  }

  /**
   Below 4 GiB every address translates to itself, writable, and ring 3 gets exactly the two
   pages of the window; nothing above is mapped. The tables the walk reads are the three of the
   space and the boot directories of GiB 1 to 3.
   */
  lemma WalkBuilt(m: seq<byte>, boot: nat, p: nat, base: u64, va: u64)
    requires BootTables(m, boot) && Built(m, boot, p, base)
    ensures Walk(m, p, va) ==
            if va < GIB4 then Some(Access(va, va < 0x4000_0000 && UserPage(base, va / BIG_PAGE), true)) else None
  {
    if va >= GIB4 {
      WalkAbove(m, boot, p, base, va);
    } else if va >= 0x4000_0000 {
      WalkGibHigh(m, boot, p, base, va);
    } else {
      WalkGib0(m, boot, p, base, va);
    }
  }

  lemma WindowPages(base: u64, va: u64)
    requires base % BIG_PAGE == 0 && base + 0x40_0000 <= 0x4000_0000
    ensures va < 0x4000_0000 && UserPage(base, va / BIG_PAGE) <==> base <= va < base + 0x40_0000
  {
    var b, j := base / BIG_PAGE, va / BIG_PAGE;
    assert base == BIG_PAGE * b && b < 511;
    assert (base + 0x3F_FFFF) / BIG_PAGE == b + 1;
    assert va == BIG_PAGE * j + va % BIG_PAGE;
    assert UserPage(base, j) <==> j == b || j == b + 1;
  }

  /** The window statement of the source, when its own alignment demand on base is met. */
  lemma AlignedWindow(m: seq<byte>, boot: nat, p: nat, base: u64, va: u64)
    requires BootTables(m, boot) && Built(m, boot, p, base)
    requires base % BIG_PAGE == 0 && base + 0x40_0000 <= 0x4000_0000
    ensures UserWritable(m, p, va) <==> base <= va < base + 0x40_0000
  {
    WalkBuilt(m, boot, p, base, va);
    WindowPages(base, va);
  }

  /**
   The documented window is what ring 3 gets exactly when base is 2 MiB aligned and the window ends
   inside the first GiB: an unaligned base opens the bytes below it in its page.
   */
  lemma WindowIffAligned(m: seq<byte>, boot: nat, p: nat, base: u64)
    requires BootTables(m, boot) && Built(m, boot, p, base)
    ensures (forall va: u64 {:trigger UserWritable(m, p, va)} :: UserWritable(m, p, va) <==> base <= va < base + 0x40_0000)
            <==> base % BIG_PAGE == 0 && base + 0x40_0000 <= 0x4000_0000
  {
    hide Built, BootTables, UserWritable;
    if base % BIG_PAGE == 0 && base + 0x40_0000 <= 0x4000_0000 {
      forall va: u64 ensures UserWritable(m, p, va) <==> base <= va < base + 0x40_0000 {
        AlignedWindow(m, boot, p, base, va);
      }
    } else {
      var va := Misplaced(base);
      UserWritableIs(m, boot, p, base, va);
      assert UserWritable(m, p, va) != (base <= va < base + 0x40_0000);
    }
  }

  lemma BootTops(m: seq<byte>, boot: nat, i: nat)
    requires BootTables(m, boot) && i < 512
    ensures boot % 0x1000 == 0 && boot + 6 * TABLE <= |m| == GIB4
    ensures Slot(m, boot, i) == if i == 0 then boot + 0x1007 else 0
    ensures Slot(m, boot + 0x1000, i) == if i < 2 then boot + 0x2007 + 0x1000 * i else if i < 4 then boot + 0x2003 + 0x1000 * i else 0
  {
    hide Slot;
    assert Slot(m, boot, i) == BootPml4(boot)(i);
    assert Slot(m, boot + 0x1000, i) == BootPdpt(boot)(i);
  }

  lemma WalkBootAbove(m: seq<byte>, boot: nat, va: u64)
    requires BootTables(m, boot) && va >= GIB4
    ensures Walk(m, boot, va) == None
  {
    hide BootTables, Slot, Frame, Present, Huge, User, Writable, Large;
    if Canonical(va) {
      var i4, i3 := va / 0x80_0000_0000 % 512, va / 0x4000_0000 % 512;
      BootTops(m, boot, i4);
      BootTops(m, boot, i3);
      EntryParts(boot, 0);
      HighAddress(va);
      if i4 != 0 {
        ZeroEntry(m, boot, i4);
      } else {
        PointerEntry(m, boot, 0, boot + 0x1000, 7);
        ZeroEntry(m, boot + 0x1000, i3);
      }
    }
  }

  lemma ZeroEntry(m: seq<byte>, t: nat, i: nat)
    requires t + TABLE <= |m| && i < 512 && Slot(m, t, i) == 0
    ensures Entry(m, t, i) == None
  {
  }

  /** What the boot tables translate: the first 4 GiB to themselves, open to ring 3 below 2 GiB, and nothing else. */
  lemma WalkBoot(m: seq<byte>, boot: nat, va: u64)
    requires BootTables(m, boot)
    ensures Walk(m, boot, va) == if va < GIB4 then Some(Access(va, va < 0x8000_0000, true)) else None
  {
    hide Walk, BootTables, Slot;
    if va < GIB4 {
      AddressParts(va);
      var k, j := va / 0x4000_0000, va / BIG_PAGE % 512;
      BootTops(m, boot, 0);
      BootTops(m, boot, k);
      DirectorySlot(m, boot, k, j);
      BootDirectory(boot, k);
      WalkIdentity(m, boot, va, boot + 0x2000 + 0x1000 * k, if k < 2 then 7 else 3, if k < 2 then 0x87 else 0x83);
    } else {
      WalkBootAbove(m, boot, va);
    }
  }

  lemma BootDirectory(boot: nat, k: nat)
    requires boot % 0x1000 == 0
    ensures (boot + 0x2000 + 0x1000 * k) % 0x1000 == 0
  {
    assert boot + 0x2000 + 0x1000 * k == 0x1000 * (boot / 0x1000 + 2 + k);
  }

  lemma UserWritableIs(m: seq<byte>, boot: nat, p: nat, base: u64, va: u64)
    requires BootTables(m, boot) && Built(m, boot, p, base)
    ensures UserWritable(m, p, va) <==> va < 0x4000_0000 && UserPage(base, va / BIG_PAGE)
  {
    WalkBuilt(m, boot, p, base, va);
  }

  /** An address on which window and pages differ: below an unaligned base, or past the first GiB. */
  lemma Misplaced(base: u64) returns (va: u64)
    requires !(base % BIG_PAGE == 0 && base + 0x40_0000 <= 0x4000_0000)
    ensures (va < 0x4000_0000 && UserPage(base, va / BIG_PAGE)) != (base <= va < base + 0x40_0000)
  {
    if base + 0x40_0000 > 0x4000_0000 {
      va := if base + 0x3F_FFFF < TWO64 then base + 0x3F_FFFF else TWO64 - 1;
    } else {
      var b := base / BIG_PAGE;
      assert base == BIG_PAGE * b + base % BIG_PAGE && b < 512;
      va := BIG_PAGE * b;
      assert va / BIG_PAGE == b;
    }
  }

  // ---- Bit operations on entries --------------------------------------------

  function Or1(x: nat): nat { if Present(x) then x else x + 1 }

  function Or2(x: nat): nat { if Writable(x) then x else x + 2 }

  function Or4(x: nat): nat { if User(x) then x else x + 4 }

  function Or80(x: nat): nat { if Huge(x) then x else x + 0x80 }

  function AndNot4(x: nat): nat { if User(x) then x - 4 else x }

  /** Present, writable and user over a table address. */
  method UserEntry(a: u64) returns (e: u64)
    requires a % 0x1000 == 0 && a < GIB4
    ensures e == a + 7
  {
    EntryParts(a, 0); EntryParts(a, 1); EntryParts(a, 3);
    e := Or4(Or2(Or1(a)));
  }

  /** A copied table entry with its user bit stripped, present and writable. */
  method KernelEntry(e: u64, ghost a: nat) returns (k: u64)
    requires a % 0x1000 == 0 && a < GIB4 && (e == a + 3 || e == a + 7)
    ensures k == a + 3
  {
    EntryParts(a, 3); EntryParts(a, 7);
    k := Or2(Or1(AndNot4(e)));
  }

  /** A supervisor-only 2 MiB page at physical address b. */
  method KernelPage(b: nat, ghost i: nat) returns (e: u64)
    requires i < 2048 && b == BIG_PAGE * i
    ensures e == BIG_PAGE * i + 0x83
  {
    assert b == 0x1000 * (512 * i);
    EntryParts(b, 0); EntryParts(b, 1); EntryParts(b, 3);
    e := Or80(Or2(Or1(b)));
  }

  /** A 2 MiB page opened to ring 3, whether or not it was before. */
  method OpenedPage(e: u64, ghost i: nat) returns (u: u64)
    requires i < 2048 && (e == BIG_PAGE * i + 0x83 || e == BIG_PAGE * i + 0x87)
    ensures u == BIG_PAGE * i + 0x87
  {
    assert BIG_PAGE * i == 0x1000 * (512 * i);
    EntryParts(BIG_PAGE * i, 0x83); EntryParts(BIG_PAGE * i, 0x87);
    u := Or4(e);
  }

  // ---- The allocator --------------------------------------------------------

  lemma BootPdptSlot(m: seq<byte>, boot: nat, i: nat)
    requires BootTables(m, boot) && 1 <= i < 4
    ensures Slot(m, boot + 0x1000, i) == boot + 0x2000 + 0x1000 * i + (if i < 2 then 7 else 3)
    ensures boot % TABLE == 0 && boot + 6 * TABLE <= |m| == GIB4
  {
    assert Slot(m, boot + 0x1000, i) == BootPdpt(boot)(i);
  }

  lemma HoldsOneMore(m: seq<byte>, r: seq<byte>, t: nat, i: nat, f: nat -> nat, v: nat)
    requires t + TABLE <= |m| == |r| && i < 512 && Holds(m, t, f) && Slot(r, t, i) == v
    requires forall j: nat {:trigger Slot(r, t, j)} | j < 512 && j != i :: Slot(r, t, j) == Slot(m, t, j)
    ensures Holds(r, t, j => if j == i then v else f(j))
  {
    hide Slot;
  }

  lemma BuiltFrom(m: seq<byte>, boot: nat, p: nat, base: u64)
    requires p % TABLE == 0 && p + 3 * TABLE <= |m|
    requires Holds(m, p, SpacePml4(p)) && Holds(m, p + 0x1000, SpacePdpt(p, boot)) && Holds(m, p + 0x2000, SpacePd(base))
    ensures Built(m, boot, p, base)
  {
  }

  /** The two allocator outcomes as arithmetic on the bump pointer. */
  predicate Fits(bump: nat) { bump + 3 * TABLE <= POOL_END }

  /** Three page allocations are attempted before the result is looked at. */
  function NextBump(bump: nat): nat
    requires POOL_BASE <= bump <= POOL_END && bump % TABLE == 0
  {
    if Fits(bump) then bump + 3 * TABLE else POOL_END
  }

  /** The effect of creating a space: one new built space, or nothing but a full pool. */
  ghost predicate Created(m: seq<byte>, bump: nat, boot: nat, base: u64, r: seq<byte>, bump': nat, p: nat)
  {
    && POOL_BASE <= bump <= POOL_END && bump % TABLE == 0
    && bump' == NextBump(bump)
    && SameOutside(m, r, bump, bump')
    && (if Fits(bump) then p == bump && Built(r, boot, p, base) else p == 0)
  }

  ghost predicate BootPlaced(boot: nat)
  {
    boot % TABLE == 0 && (boot + 6 * TABLE <= POOL_BASE || POOL_END <= boot) && boot + 6 * TABLE <= GIB4
  }

  /** Physical memory and the allocator over it; the kernel reaches memory by its identity map. */
  class Allocator {
    const ram: array<byte>
    const boot: nat
    var bump: nat

    ghost predicate Valid()
      reads this
    {
      ram.Length == GIB4 && BootPlaced(boot) && POOL_BASE <= bump <= POOL_END && bump % TABLE == 0
    }

    constructor (ram: array<byte>, boot: nat)
      requires ram.Length == GIB4 && BootPlaced(boot)
      ensures Valid() && this.ram == ram && this.boot == boot && bump == 0x1840_0000
    {
      this.ram := ram;
      this.boot := boot;
      bump := POOL_BASE;
    }

    /** Back to an empty pool, once at boot. */
    method Init()
      requires Valid()
      modifies this`bump
      ensures Valid() && bump == 0x1840_0000
    {
      bump := POOL_BASE;
    }

    /** Writes one entry; the rest of the table and of memory keep their values. */
    method SetSlot(t: nat, i: nat, v: u64)
      requires t + TABLE <= ram.Length && i < 512
      modifies ram
      ensures SameOutside(old(ram[..]), ram[..], t, t + TABLE)
      ensures Slot(ram[..], t, i) == v
      ensures forall j: nat {:trigger Slot(ram[..], t, j)} | j < 512 && j != i :: Slot(ram[..], t, j) == Slot(old(ram[..]), t, j)
    {
      ghost var m := ram[..];
      Poke(ram, t + 8 * i, ToLE(v, 8));
      Get64Put(m, t + 8 * i, v);
      forall j: nat | j < 512 && j != i ensures Slot(ram[..], t, j) == Slot(m, t, j) {
        Get64Frame(m, ram[..], t + 8 * i, t + 8 * i + 8, t + 8 * j);
      }
    }

    /** One zeroed page, or the null address when the pool is exhausted. */
    method AllocPt() returns (p: nat)
      requires Valid()
      modifies this`bump, ram
      ensures Valid()
      ensures if old(bump) + TABLE > POOL_END
              then p == 0 && bump == old(bump) && ram[..] == old(ram[..])
              else p == old(bump) && bump == p + TABLE && SameOutside(old(ram[..]), ram[..], p, p + TABLE)
                   && Holds(ram[..], p, i => 0)
    {
      if bump + TABLE > POOL_END { return 0; }
      p := bump;
      ghost var m := ram[..];
      for i := 0 to 512
        invariant bump == p && SameOutside(m, ram[..], p, p + TABLE)
        invariant forall j: nat {:trigger Slot(ram[..], p, j)} | j < i :: Slot(ram[..], p, j) == 0
      {
        SetSlot(p, i, 0);
      }
      bump := bump + TABLE;
    }

    /** One entry of the new PDPT: the boot entry with the user bit stripped. */
    method ClonePdptEntry(pdpt: nat, i: nat, ghost f: nat -> nat)
      requires Valid() && BootTables(ram[..], boot) && 1 <= i < 4
      requires POOL_BASE <= pdpt && pdpt + TABLE <= POOL_END && Holds(ram[..], pdpt, f)
      modifies ram
      ensures SameOutside(old(ram[..]), ram[..], pdpt, pdpt + TABLE) && BootTables(ram[..], boot)
      ensures Holds(ram[..], pdpt, j => if j == i then boot + 0x2003 + 0x1000 * i else f(j))
    {
      hide BootTables, Holds, Get64;
      ghost var m := ram[..];
      BootPdptSlot(m, boot, i);
      var e := Get64(ram[..], boot + 0x1000 + 8 * i);
      assert e == Slot(ram[..], boot + 0x1000, i);
      hide Slot;
      var k := KernelEntry(e, boot + 0x2000 + 0x1000 * i);
      SetSlot(pdpt, i, k);
      HoldsOneMore(m, ram[..], pdpt, i, f, k);
      BootFrame(m, ram[..], pdpt, pdpt + TABLE, boot);
    }

    /** The new PDPT: GiB 0 through the fresh directory, GiB 1 to 3 kernel-only. */
    method FillPdpt(pml4: nat)
      requires Valid() && BootTables(ram[..], boot)
      requires POOL_BASE <= pml4 && pml4 + 3 * TABLE <= POOL_END && pml4 % TABLE == 0
      requires Holds(ram[..], pml4 + 0x1000, i => 0)
      modifies ram
      ensures SameOutside(old(ram[..]), ram[..], pml4 + 0x1000, pml4 + 0x2000) && BootTables(ram[..], boot)
      ensures Holds(ram[..], pml4 + 0x1000, SpacePdpt(pml4, boot))
    {
      ghost var m := ram[..];
      var pdpt, pd := pml4 + 0x1000, pml4 + 0x2000;
      var e := UserEntry(pd);
      SetSlot(pdpt, 0, e);
      BootFrame(m, ram[..], pdpt, pdpt + TABLE, boot);
      ghost var full := SpacePdpt(pml4, boot);
      for i := 1 to 4
        invariant SameOutside(m, ram[..], pdpt, pdpt + TABLE) && BootTables(ram[..], boot)
        invariant Holds(ram[..], pdpt, (j: nat) => if j < i then full(j) else 0)
      {
        ClonePdptEntry(pdpt, i, (j: nat) => if j < i then full(j) else 0);
      }
    }

    /** GiB 0 in 2 MiB pages, supervisor-only except the two pages of the window. */
    method FillPd(pd: nat, base: u64)
      requires Valid() && pd + TABLE <= POOL_END
      modifies ram
      ensures SameOutside(old(ram[..]), ram[..], pd, pd + TABLE)
      ensures Holds(ram[..], pd, SpacePd(base))
    {
      ghost var m := ram[..];
      for i := 0 to 512
        invariant SameOutside(m, ram[..], pd, pd + TABLE)
        invariant forall j: nat {:trigger Slot(ram[..], pd, j)} | j < i :: Slot(ram[..], pd, j) == BIG_PAGE * j + 0x83
      {
        var b := BIG_PAGE * i;
        var e := KernelPage(b, i);
        SetSlot(pd, i, e);
      }
      var code, stack := base / BIG_PAGE % 512, (base + 0x3F_FFFF) % TWO64 / BIG_PAGE % 512;
      assert Slot(ram[..], pd, code) == BIG_PAGE * code + 0x83;
      var e := OpenedPage(Get64(ram[..], pd + 8 * code), code);
      SetSlot(pd, code, e);
      assert Slot(ram[..], pd, stack) == BIG_PAGE * stack + (if stack == code then 0x87 else 0x83);
      e := OpenedPage(Get64(ram[..], pd + 8 * stack), stack);
      SetSlot(pd, stack, e);
      forall j: nat | j < 512 ensures Slot(ram[..], pd, j) == SpacePd(base)(j) { }
    }

    /** Writes the three tables of a space into three zeroed pages. */
    method WireTables(pml4: nat, base: u64)
      requires Valid() && BootTables(ram[..], boot)
      requires POOL_BASE <= pml4 && pml4 + 3 * TABLE <= POOL_END && pml4 % TABLE == 0
      requires Holds(ram[..], pml4, i => 0) && Holds(ram[..], pml4 + 0x1000, i => 0)
      modifies ram
      ensures SameOutside(old(ram[..]), ram[..], pml4, pml4 + 3 * TABLE) && BootTables(ram[..], boot)
      ensures Built(ram[..], boot, pml4, base)
    {
      hide BootTables, Built, SpacePdpt, SpacePd;
      ghost var m0 := ram[..];
      var e := UserEntry(pml4 + 0x1000);
      SetSlot(pml4, 0, e);
      ghost var m1 := ram[..];
      assert Holds(m1, pml4, SpacePml4(pml4));
      hide Holds, SpacePml4;
      BootFrame(m0, m1, pml4, pml4 + TABLE, boot);
      HoldsFrame(m0, m1, pml4, pml4 + TABLE, pml4 + 0x1000, i => 0);
      FillPdpt(pml4);
      ghost var m2 := ram[..];
      HoldsFrame(m1, m2, pml4 + 0x1000, pml4 + 0x2000, pml4, SpacePml4(pml4));
      FillPd(pml4 + 0x2000, base);
      ghost var m3 := ram[..];
      BootFrame(m2, m3, pml4 + 0x2000, pml4 + 0x3000, boot);
      HoldsFrame(m2, m3, pml4 + 0x2000, pml4 + 0x3000, pml4, SpacePml4(pml4));
      HoldsFrame(m2, m3, pml4 + 0x2000, pml4 + 0x3000, pml4 + 0x1000, SpacePdpt(pml4, boot));
      BuiltFrom(m3, boot, pml4, base);
    }

    /** A fresh hierarchy for a window at base; 0 when the pool cannot supply three pages. */
    method CreateUserAsAt(base: u64) returns (p: nat)
      requires Valid() && BootTables(ram[..], boot)
      modifies this`bump, ram
      ensures Valid() && BootTables(ram[..], boot)
      ensures Created(old(ram[..]), old(bump), boot, base, ram[..], bump, p)
    {
      ghost var m, b := ram[..], bump;
      var pml4 := AllocPt();
      ghost var m1 := ram[..];
      var pdpt := AllocPt();
      ghost var m2 := ram[..];
      var pd := AllocPt();
      BootFrame(m, ram[..], b, bump, boot);
      if pml4 == 0 || pdpt == 0 || pd == 0 {
        return 0;
      }
      HoldsFrame(m1, ram[..], b + TABLE, bump, pml4, i => 0);
      HoldsFrame(m2, ram[..], b + 2 * TABLE, bump, pdpt, i => 0);
      WireTables(pml4, base);
      return pml4;
    }
  }
}
