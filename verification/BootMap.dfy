/** The identity map of the first 4 GiB that the boot code leaves in six zeroed pages. */
module BootMap {
  import opened Bytes
  import opened Paging
  import opened Vmm

  lemma {:induction false} FromLEAppend(a: seq<byte>, b: seq<byte>)
    ensures FromLE(a + b) == FromLE(a) + Pow256(|a|) * FromLE(b)
  {
    if a == [] {
      assert a + b == b;
    } else {
      FromLEAppend(a[1..], b);
      assert (a + b)[1..] == a[1..] + b;
      Regroup(Pow256(|a| - 1), FromLE(b));
    }
  }

  lemma Regroup(p: nat, x: nat)
    ensures 256 * (p * x) == (256 * p) * x
  {
  }

  /** Storing the low half of a zero entry sets the whole entry. */
  lemma LowHalf(m: seq<byte>, a: nat, v: u32)
    requires a + 8 <= |m| && Get64(m, a) == 0
    ensures Get64(Put(m, a, ToLE(v, 4)), a) == v
  {
    var lo, hi := m[a..a + 4], m[a + 4..a + 8];
    assert m[a..a + 8] == lo + hi;
    FromLEAppend(lo, hi);
    assert FromLE(hi) == 0;
    var r := Put(m, a, ToLE(v, 4));
    assert r[a..a + 8] == ToLE(v, 4) + hi;
    FromLEAppend(ToLE(v, 4), hi);
    PackedField(v);
  }

  /** The code is 32-bit here: it stores the low half of each 8-byte entry. */
  method StoreEntry(ram: array<byte>, t: nat, i: nat, v: u32)
    requires t + TABLE <= ram.Length && i < 512 && Slot(ram[..], t, i) == 0
    modifies ram
    ensures SameOutside(old(ram[..]), ram[..], t, t + TABLE)
    ensures Slot(ram[..], t, i) == v
    ensures forall j: nat {:trigger Slot(ram[..], t, j)} | j < 512 && j != i :: Slot(ram[..], t, j) == Slot(old(ram[..]), t, j)
  {
    ghost var m := ram[..];
    LowHalf(m, t + 8 * i, v);
    Poke(ram, t + 8 * i, ToLE(v, 4));
    forall j: nat | j < 512 && j != i ensures Slot(ram[..], t, j) == Slot(m, t, j) {
      Get64Frame(m, ram[..], t + 8 * i, t + 8 * i + 4, t + 8 * j);
    }
  }

  /** Fills the directory of one GiB, with or without the user bit. */
  method FillDirectory(ram: array<byte>, pd: nat, k: nat)
    requires pd + TABLE <= ram.Length && k < 4 && Holds(ram[..], pd, i => 0)
    modifies ram
    ensures SameOutside(old(ram[..]), ram[..], pd, pd + TABLE)
    ensures Holds(ram[..], pd, BootPd(k))
    ensures forall j: nat {:trigger Slot(ram[..], pd, j)} | j < 512 ::
              Slot(ram[..], pd, j) == 0x4000_0000 * k + 0x20_0000 * j + (if k < 2 then 0x87 else 0x83)
  {
    ghost var m := ram[..];
    var ebx := 0x4000_0000 * k;
    var ecx := 0;
    while ecx != 512
      invariant 0 <= ecx <= 512 && ebx == (0x4000_0000 * k + BIG_PAGE * ecx) % TWO32
      invariant SameOutside(m, ram[..], pd, pd + TABLE)
      invariant forall j: nat {:trigger Slot(ram[..], pd, j)} | j < 512 ::
                  Slot(ram[..], pd, j) == if j < ecx then BootPd(k)(j) else 0
      decreases 512 - ecx
    {
      assert ebx == BIG_PAGE * (512 * k + ecx);
      var e := KernelPage(ebx, 512 * k + ecx);
      if k < 2 {
        e := OpenedPage(e, 512 * k + ecx);
      }
      StoreEntry(ram, pd, ecx, e);
      ebx := (ebx + BIG_PAGE) % TWO32;
      ecx := ecx + 1;
    }
  }

  ghost function Directory(boot: nat, j: nat): nat { boot + 0x2000 + 0x1000 * j }

  /** The top two levels and the first k directories are written, the others still zero. */
  ghost predicate Written(m: seq<byte>, boot: nat, k: nat)
    requires boot + 6 * TABLE <= |m|
  {
    && Holds(m, boot, BootPml4(boot)) && Holds(m, boot + 0x1000, BootPdpt(boot))
    && forall j: nat {:trigger Directory(boot, j)} | j < 4 :: Holds(m, Directory(boot, j), if j < k then BootPd(j) else i => 0)
  }

  lemma DirectoryWritten(m: seq<byte>, r: seq<byte>, boot: nat, k: nat)
    requires boot + 6 * TABLE <= |m| && k < 4 && Written(m, boot, k)
    requires SameOutside(m, r, Directory(boot, k), Directory(boot, k) + TABLE)
    requires Holds(r, Directory(boot, k), BootPd(k))
    ensures Written(r, boot, k + 1)
  {
    var lo := Directory(boot, k);
    HoldsFrame(m, r, lo, lo + TABLE, boot, BootPml4(boot));
    HoldsFrame(m, r, lo, lo + TABLE, boot + 0x1000, BootPdpt(boot));
    forall j: nat | j < 4 && j != k ensures Holds(r, Directory(boot, j), if j < k then BootPd(j) else i => 0) {
      HoldsFrame(m, r, lo, lo + TABLE, Directory(boot, j), if j < k then BootPd(j) else i => 0);
    }
  }

  method WriteDirectory(ram: array<byte>, boot: nat, k: nat)
    requires ram.Length == GIB4 && BootPlaced(boot) && k < 4 && Written(ram[..], boot, k)
    modifies ram
    ensures Written(ram[..], boot, k + 1)
    ensures SameOutside(old(ram[..]), ram[..], boot, boot + 6 * TABLE)
  {
    ghost var m := ram[..];
    var pd := boot + 0x2000 + 0x1000 * k;
    assert pd == Directory(boot, k);
    FillDirectory(ram, pd, k);
    DirectoryWritten(m, ram[..], boot, k);
  }

  /** The top two levels, then the four directories. */
  method BuildIdentityMap(ram: array<byte>, boot: nat)
    requires ram.Length == GIB4 && BootPlaced(boot)
    requires Holds(ram[..], boot, i => 0) && Holds(ram[..], boot + 0x1000, i => 0)
    requires forall j: nat {:trigger Directory(boot, j)} | j < 4 :: Holds(ram[..], Directory(boot, j), i => 0)
    modifies ram
    ensures BootTables(ram[..], boot)
    ensures forall va: u64 :: Walk(ram[..], boot, va) == if va < GIB4 then Some(Access(va, va < 0x8000_0000, true)) else None
    ensures SameOutside(old(ram[..]), ram[..], boot, boot + 6 * TABLE)
  {
    hide Walk;
    ghost var m := ram[..];
    StorePdpt(ram, boot);
    forall j: nat | j < 4 ensures Holds(ram[..], Directory(boot, j), i => 0) {
      HoldsFrame(m, ram[..], boot, boot + 2 * TABLE, Directory(boot, j), i => 0);
    }
    WriteDirectory(ram, boot, 0);
    WriteDirectory(ram, boot, 1);
    WriteDirectory(ram, boot, 2);
    WriteDirectory(ram, boot, 3);
    AllWritten(ram[..], boot);
    forall va: u64 ensures Walk(ram[..], boot, va) == if va < GIB4 then Some(Access(va, va < 0x8000_0000, true)) else None {
      WalkBoot(ram[..], boot, va);
    }
  }

  lemma AllWritten(m: seq<byte>, boot: nat)
    requires BootPlaced(boot) && |m| == GIB4 && Written(m, boot, 4)
    ensures BootTables(m, boot)
  {
    assert Holds(m, Directory(boot, 0), BootPd(0)) && Holds(m, Directory(boot, 1), BootPd(1));
    assert Holds(m, Directory(boot, 2), BootPd(2)) && Holds(m, Directory(boot, 3), BootPd(3));
  }

  method PdptEntry(boot: nat, k: nat) returns (e: u32)
    requires BootPlaced(boot) && k < 4
    ensures e == BootPdpt(boot)(k)
  {
    e := UserEntry(boot + 0x2000 + 0x1000 * k);
    if k >= 2 {
      e := KernelEntry(e, boot + 0x2000 + 0x1000 * k);
    }
  }

  /** PML4[0] and the four PDPT entries; GiB 2 and 3 stay supervisor-only. */
  method StorePdpt(ram: array<byte>, boot: nat)
    requires ram.Length == GIB4 && BootPlaced(boot)
    requires Holds(ram[..], boot, i => 0) && Holds(ram[..], boot + 0x1000, i => 0)
    modifies ram
    ensures SameOutside(old(ram[..]), ram[..], boot, boot + 2 * TABLE)
    ensures Holds(ram[..], boot, BootPml4(boot)) && Holds(ram[..], boot + 0x1000, BootPdpt(boot))
  {
    ghost var m := ram[..];
    var e := UserEntry(boot + 0x1000);
    StoreEntry(ram, boot, 0, e);
    ghost var n := ram[..];
    assert Holds(n, boot, BootPml4(boot));
    HoldsFrame(m, n, boot, boot + TABLE, boot + 0x1000, i => 0);
    FillPdptEntries(ram, boot);
    HoldsFrame(n, ram[..], boot + 0x1000, boot + 0x2000, boot, BootPml4(boot));
  }

  method FillPdptEntries(ram: array<byte>, boot: nat)
    requires ram.Length == GIB4 && BootPlaced(boot) && Holds(ram[..], boot + 0x1000, i => 0)
    modifies ram
    ensures SameOutside(old(ram[..]), ram[..], boot + 0x1000, boot + 0x2000)
    ensures Holds(ram[..], boot + 0x1000, BootPdpt(boot))
  {
    ghost var n := ram[..];
    for k := 0 to 4
      invariant SameOutside(n, ram[..], boot + 0x1000, boot + 0x2000)
      invariant forall j: nat {:trigger Slot(ram[..], boot + 0x1000, j)} | j < 512 ::
                  Slot(ram[..], boot + 0x1000, j) == if j < k then BootPdpt(boot)(j) else 0
    {
      var e := PdptEntry(boot, k);
      StoreEntry(ram, boot + 0x1000, k, e);
    }
  }
}
