/**
 The ELF64 loader. Its run is a function of memory alone: the image lies in the same memory as the
 destination, and every address is a 64-bit sum, so a malformed image may be read outside itself or
 be overwritten while it is loaded. For well-read images the run is a plan of segments laid over
 memory in order.
 */
module Elf {
  import opened Bytes

  const EHDR_SIZE: nat := 64
  const PHDR_SIZE: nat := 56
  const PT_LOAD: nat := 1

  datatype Ehdr = Ehdr(valid: bool, entry: u64, phoff: u64, phentsize: u16, phnum: u16)
  datatype Phdr = Phdr(kind: u32, offset: u64, vaddr: u64, filesz: u64, memsz: u64)

  // ---- Headers --------------------------------------------------------------

  /** The fields of a file header; valid when it names a little-endian ELF64 executable for x86-64. */
  function ReadEhdr(h: seq<byte>): Ehdr
    requires |h| == EHDR_SIZE
  {
    Ehdr(h[0..4] == [0x7F, 0x45, 0x4C, 0x46] && h[4] == 2 && h[5] == 1 && Get16(h, 16) == 2 && Get16(h, 18) == 0x3E,
         Get64(h, 24), Get64(h, 32), Get16(h, 54), Get16(h, 56))
  }

  function ReadPhdr(h: seq<byte>): Phdr
    requires |h| == PHDR_SIZE
  {
    Phdr(Get32(h, 0), Get64(h, 8), Get64(h, 16), Get64(h, 32), Get64(h, 40))
  }

  /** The offset of program header i in the image. */
  function At(e: Ehdr, i: nat): nat { e.phoff + i * (e.phentsize as int) }

  function TableEnd(e: Ehdr): nat { At(e, e.phnum) }

  function CheckEhdr(e: Ehdr, size: nat): int
  {
    if !e.valid then -1
    else if e.phnum == 0 || e.phoff == 0 then -2
    else if TableEnd(e) % TWO64 > size then -4
    else 0
  }

  /** The loader's verdict on a loadable segment, in 64-bit arithmetic; 0 accepts. */
  function CheckPhdr(ph: Phdr, size: nat, lo: nat, hi: nat): int
  {
    if ph.vaddr < lo then -3
    else if (ph.vaddr + ph.memsz) % TWO64 > hi then -3
    else if (ph.offset + ph.filesz) % TWO64 > size then -4
    else 0
  }

  /** A sum of two 64-bit numbers that reads as at most limit once it has been cut to 64 bits. */
  predicate CutAtMost(sum: nat, limit: nat) { sum <= limit || TWO64 <= sum <= TWO64 + limit }

  /** What the checks accept, in unbounded arithmetic: the two sums are cut to 64 bits before they are compared. */
  lemma AcceptedIff(ph: Phdr, size: nat, lo: nat, hi: nat)
    requires size < TWO64 && hi < TWO64
    ensures CheckPhdr(ph, size, lo, hi) == 0 <==>
            lo <= ph.vaddr && CutAtMost(ph.vaddr + ph.memsz, hi) && CutAtMost(ph.offset + ph.filesz, size)
    ensures CheckPhdr(ph, size, lo, hi) == -3 <==> !(lo <= ph.vaddr && CutAtMost(ph.vaddr + ph.memsz, hi))
  {
    CutIs(ph.vaddr + ph.memsz);
    CutIs(ph.offset + ph.filesz);
  }

  /** The loader reads an accepted segment's bytes inside the image exactly when the sum did not wrap. */
  lemma ReadsInsideIff(ph: Phdr, size: nat, lo: nat, hi: nat)
    requires size < TWO64 && CheckPhdr(ph, size, lo, hi) == 0
    ensures ph.offset + ph.filesz <= size <==> ph.offset + ph.filesz < TWO64
  {
    CutIs(ph.offset + ph.filesz);
  }

  /** An accepted segment of two bytes, the first of which would be read just below the image. */
  lemma ReadBelowImage()
    ensures var ph := Phdr(PT_LOAD, TWO64 - 1, 0x1900_0000, 2, 2);
            CheckPhdr(ph, 120, 0x1900_0000, 0x1940_0000) == 0 && ph.offset + ph.filesz > 120
  {
    CutIs(TWO64 + 1);
  }

  /** Likewise the header table lies inside the image exactly when its own sum did not wrap. */
  lemma TableInsideIff(e: Ehdr, size: nat)
    requires size < TWO64 && CheckEhdr(e, size) == 0
    ensures TableEnd(e) <= size <==> TableEnd(e) < TWO64
  {
    TableSum(e);
    CutIs(TableEnd(e));
  }

  lemma TableSum(e: Ehdr)
    ensures TableEnd(e) < 2 * TWO64
  {
    Scale(e.phnum, e.phentsize, 0x1_0000);
  }

  lemma Scale(k: nat, y: int, z: int)
    requires y <= z
    ensures k * y <= k * z
  {
  }

  /** An accepted file header whose one program header would be read just below the image. */
  lemma TableBelowImage(base: nat)
    requires 56 <= base < TWO64
    ensures var e := Ehdr(true, 0, TWO64 - 56, 56, 1);
            CheckEhdr(e, 120) == 0 && PhdrAddress(base, e, 0) == base - 56
  {
    CutIs(TWO64);
    CutIs(base + TWO64 - 56);
  }

  lemma CutIs(sum: nat)
    requires sum < 2 * TWO64
    ensures sum % TWO64 == if sum < TWO64 then sum else sum - TWO64
  {
  }


  /** The identification of a little-endian ELF64 executable for x86-64 at position p, byte by byte. */
  predicate Identified(s: seq<byte>, p: nat)
    requires p + 64 <= |s|
  {
    && s[p..p + 4] == [0x7F, 0x45, 0x4C, 0x46] && s[p + 4] == 2 && s[p + 5] == 1
    && s[p + 16..p + 18] == [2, 0] && s[p + 18..p + 20] == [0x3E, 0]
  }

  lemma ValidIff(h: seq<byte>)
    requires |h| == EHDR_SIZE
    ensures ReadEhdr(h).valid <==> Identified(h, 0)
  {
    FieldBytes(h, 16);
    FieldBytes(h, 18);
    hide Get16;
    assert h[16..18] == [h[16], h[17]] && h[18..20] == [h[18], h[19]];
  }

  lemma IdentifiedSlice(s: seq<byte>, p: nat)
    requires p + 64 <= |s|
    ensures Identified(s[p..p + 64], 0) == Identified(s, p)
  {
    SliceOfSlice(s, p, p + 64, 0, 4);
    SliceOfSlice(s, p, p + 64, 16, 18);
    SliceOfSlice(s, p, p + 64, 18, 20);
  }

  /** The address of a header field and its bytes, least significant first. */
  lemma HeaderFields(s: seq<byte>, p: nat)
    requires p + 64 <= |s|
    ensures var e := ReadEhdr(s[p..p + 64]);
            && e.valid == Identified(s, p) && e.entry == FromLE(s[p + 24..p + 32]) && e.phoff == FromLE(s[p + 32..p + 40])
            && e.phentsize == s[p + 54] as int + 0x100 * s[p + 55] as int && e.phnum == s[p + 56] as int + 0x100 * s[p + 57] as int
  {
    hide FromLE, Identified;
    var h := s[p..p + 64];
    ValidIff(h);
    IdentifiedSlice(s, p);
    SliceOfSlice(s, p, p + 64, 24, 32);
    SliceOfSlice(s, p, p + 64, 32, 40);
    FieldBytes(h, 54);
    FieldBytes(h, 56);
  }

  /** The file header passes: identified, with program headers whose table, its end cut to 64 bits, lies in the image. */
  predicate HeaderOk(s: seq<byte>, p: nat, size: nat)
    requires p + 64 <= |s|
  {
    var phoff, entsize, num := FromLE(s[p + 32..p + 40]), s[p + 54] as int + 0x100 * s[p + 55] as int, s[p + 56] as int + 0x100 * s[p + 57] as int;
    Identified(s, p) && num != 0 && phoff != 0 && (phoff + num * entsize) % TWO64 <= size
  }

  /** The verdict on the file header, on its bytes. */
  lemma HeaderVerdict(s: seq<byte>, p: nat, size: nat)
    requires p + 64 <= |s|
    ensures var r := CheckEhdr(ReadEhdr(s[p..p + 64]), size);
            && (r == 0 <==> HeaderOk(s, p, size)) && r in {0, -1, -2, -4}
            && (r == -1 <==> !Identified(s, p))
            && (r == -2 <==> Identified(s, p) && (s[p + 56..p + 58] == [0, 0] || FromLE(s[p + 32..p + 40]) == 0))
  {
    hide ReadEhdr, Identified, FromLE;
    HeaderFields(s, p);
    assert s[p + 56..p + 58] == [s[p + 56], s[p + 57]];
  }

  // ---- Memory with 64-bit addresses -----------------------------------------

  /** How far address j lies behind address a, going up and around the address space. */
  function Dist(a: u64, j: nat): nat
    requires j < TWO64
  {
    if j >= a then j - a else j + TWO64 - a
  }

  /** The address b bytes behind a, around the address space. */
  function Place(a: u64, b: nat): (p: nat)
    requires b < TWO64
    ensures p < TWO64 && Dist(a, p) == b
  {
    if a + b < TWO64 then a + b else a + b - TWO64
  }

  lemma PlaceDist(a: u64, b: nat, j: nat)
    requires b < TWO64 && j < TWO64
    ensures Place(a, b) == j <==> Dist(a, j) == b
  {
  }

  lemma PlaceBelowTop(a: u64, b: nat)
    requires a + b < TWO64
    ensures Place(a, b) == a + b
  {
  }

  /** Reading beyond the memory gives zero, and storing there has no effect. */
  function Peek(m: seq<byte>, a: nat): byte { if a < |m| then m[a] else 0 }

  function StoreAt(m: seq<byte>, a: nat, v: byte): (r: seq<byte>)
    ensures |r| == |m|
  {
    if a < |m| then m[a := v] else m
  }

  /** The n bytes from address a on. */
  function Fetch(m: seq<byte>, a: u64, n: nat): (s: seq<byte>)
    requires n < TWO64
    ensures |s| == n
  {
    seq(n, k requires 0 <= k < n => Peek(m, Place(a, k)))
  }

  /** n bytes copied upwards, one by one. */
  function Copied(m: seq<byte>, dst: u64, src: u64, n: nat): (r: seq<byte>)
    requires n <= TWO64
    ensures |r| == |m|
  {
    if n == 0 then m
    else
      var p := Copied(m, dst, src, n - 1);
      StoreAt(p, Place(dst, n - 1), Peek(p, Place(src, n - 1)))
  }

  /** Bytes b0 to b1 behind dst zeroed. */
  function Zeroed(m: seq<byte>, dst: u64, b0: nat, b1: nat): (r: seq<byte>)
    requires b1 <= TWO64
    ensures |r| == |m|
    decreases b1
  {
    if b1 <= b0 then m else StoreAt(Zeroed(m, dst, b0, b1 - 1), Place(dst, b1 - 1), 0)
  }

  // ---- The run of the loader ------------------------------------------------

  /** Memory after one accepted segment of the image at base. */
  function LaidOver(m: seq<byte>, base: u64, ph: Phdr): (r: seq<byte>)
    ensures |r| == |m|
  {
    Zeroed(Copied(m, ph.vaddr, (base + ph.offset) % TWO64, ph.filesz), ph.vaddr, ph.filesz, ph.memsz)
  }

  /** An image of the given size lies in memory at base. */
  predicate InMemory(m: seq<byte>, base: nat, size: nat) { base + size <= |m| < TWO64 - PHDR_SIZE }

  function HeaderIn(m: seq<byte>, base: nat): Ehdr
    requires InMemory(m, base, EHDR_SIZE)
  {
    ReadEhdr(m[base..base + EHDR_SIZE])
  }

  function PhdrAddress(base: nat, e: Ehdr, i: nat): (a: nat)
    ensures a < TWO64
  {
    (base + At(e, i)) % TWO64
  }

  /** Return code, memory, and the accepted program headers. */
  datatype Loading = Loading(code: int, mem: seq<byte>, taken: seq<Phdr>)

  /** The loop over the program headers from i on; every header field is read from memory when it is needed. */
  function Run(m: seq<byte>, base: nat, size: nat, lo: nat, hi: nat, i: nat): (r: Loading)
    requires EHDR_SIZE <= size && InMemory(m, base, size)
    ensures |r.mem| == |m|
    decreases 0x1_0000 - i
  {
    var e := HeaderIn(m, base);
    if i >= e.phnum then Loading(0, m, [])
    else
      var p := PhdrAddress(base, e, i);
      if (p + PHDR_SIZE) % TWO64 > base + size then Loading(-4, m, [])
      else
        var ph := ReadPhdr(Fetch(m, p, PHDR_SIZE));
        if ph.kind != PT_LOAD then Run(m, base, size, lo, hi, i + 1)
        else if CheckPhdr(ph, size, lo, hi) != 0 then Loading(CheckPhdr(ph, size, lo, hi), m, [])
        else
          var r := Run(LaidOver(m, base, ph), base, size, lo, hi, i + 1);
          Loading(r.code, r.mem, [ph] + r.taken)
  }

  /** The whole loader. */
  function Load(m: seq<byte>, base: nat, size: nat, lo: nat, hi: nat): (r: Loading)
    requires InMemory(m, base, size)
    ensures |r.mem| == |m|
  {
    if size < EHDR_SIZE then Loading(-1, m, [])
    else if CheckEhdr(HeaderIn(m, base), size) != 0 then Loading(CheckEhdr(HeaderIn(m, base), size), m, [])
    else
      var r := Run(m, base, size, lo, hi, 0);
      if r.code == 0 && r.taken == [] then Loading(-2, r.mem, []) else r
  }

  method CopyBytes(ram: array<byte>, dst: u64, src: u64, n: u64)
    modifies ram
    ensures ram[..] == Copied(old(ram[..]), dst, src, n)
  {
    ghost var m := ram[..];
    var b := 0;
    while b < n
      invariant b <= n && ram[..] == Copied(m, dst, src, b)
    {
      var v := if Place(src, b) < ram.Length then ram[Place(src, b)] else 0;
      if Place(dst, b) < ram.Length { ram[Place(dst, b)] := v; }
      b := b + 1;
    }
  }

  method ZeroBytes(ram: array<byte>, dst: u64, b0: u64, b1: u64)
    modifies ram
    ensures ram[..] == Zeroed(old(ram[..]), dst, b0, b1)
  {
    ghost var m := ram[..];
    var b := b0;
    while b < b1
      invariant b0 <= b && (b <= b1 || b == b0) && ram[..] == Zeroed(m, dst, b0, b)
      decreases b1 - b
    {
      if Place(dst, b) < ram.Length { ram[Place(dst, b)] := 0; }
      b := b + 1;
    }
  }

  /** The loop's progress: the accepted headers so far, before those of the rest. */
  function Before(taken: seq<Phdr>, r: Loading): Loading { Loading(r.code, r.mem, taken + r.taken) }

  /** Reads n bytes from memory, around the address space. */
  method FetchBytes(ram: array<byte>, a: u64, n: nat) returns (s: seq<byte>)
    requires n < TWO64
    ensures s == Fetch(ram[..], a, n)
  {
    s := [];
    for k := 0 to n
      invariant |s| == k && forall j | 0 <= j < k :: s[j] == Peek(ram[..], Place(a, j))
    {
      s := s + [if Place(a, k) < ram.Length then ram[Place(a, k)] else 0];
    }
  }

  /** What the loop does at header i, with the headers accepted before. */
  lemma RunStep(m: seq<byte>, base: nat, size: nat, lo: nat, hi: nat, i: nat, taken: seq<Phdr>)
    requires EHDR_SIZE <= size && InMemory(m, base, size) && i < HeaderIn(m, base).phnum
    ensures var p, r := PhdrAddress(base, HeaderIn(m, base), i), Before(taken, Run(m, base, size, lo, hi, i));
            if (p + PHDR_SIZE) % TWO64 > base + size then r == Loading(-4, m, taken)
            else
              var ph := ReadPhdr(Fetch(m, p, PHDR_SIZE));
              if ph.kind != PT_LOAD then r == Before(taken, Run(m, base, size, lo, hi, i + 1))
              else if CheckPhdr(ph, size, lo, hi) != 0 then r == Loading(CheckPhdr(ph, size, lo, hi), m, taken)
              else r == Before(taken + [ph], Run(LaidOver(m, base, ph), base, size, lo, hi, i + 1))
  {
    hide HeaderIn, ReadPhdr, CheckPhdr, LaidOver, Fetch, PhdrAddress;
    assert taken + [] == taken;
    var p := PhdrAddress(base, HeaderIn(m, base), i);
    if (p + PHDR_SIZE) % TWO64 <= base + size {
      var ph := ReadPhdr(Fetch(m, p, PHDR_SIZE));
      var rest := Run(LaidOver(m, base, ph), base, size, lo, hi, i + 1);
      assert taken + ([ph] + rest.taken) == (taken + [ph]) + rest.taken;
    }
  }

  lemma RunEnds(m: seq<byte>, base: nat, size: nat, lo: nat, hi: nat, i: nat, taken: seq<Phdr>)
    requires EHDR_SIZE <= size && InMemory(m, base, size) && i >= HeaderIn(m, base).phnum
    ensures Before(taken, Run(m, base, size, lo, hi, i)) == Loading(0, m, taken)
  {
    hide HeaderIn;
    assert taken + [] == taken;
  }

  /** The loop of the loader. */
  method LoadHeaders(ram: array<byte>, base: nat, size: nat, lo: nat, hi: nat) returns (code: int, loaded: nat)
    requires EHDR_SIZE <= size && InMemory(ram[..], base, size)
    modifies ram
    ensures var r := Run(old(ram[..]), base, size, lo, hi, 0);
            code == r.code && ram[..] == r.mem && (code == 0 ==> loaded == |r.taken|)
  {
    hide HeaderIn, ReadPhdr, CheckPhdr, LaidOver, Run, PhdrAddress, Fetch;
    var e := HeaderIn(ram[..], base);
    ghost var m0, taken: seq<Phdr> := ram[..], [];
    var i := 0;
    loaded := 0;
    RunFromStart(m0, base, size, lo, hi);
    while i < e.phnum
      invariant ram.Length == |m0| && e == HeaderIn(ram[..], base) && i <= 0x1_0000 && loaded == |taken|
      invariant Run(m0, base, size, lo, hi, 0) == Before(taken, Run(ram[..], base, size, lo, hi, i))
      decreases 0x1_0000 - i
    {
      RunStep(ram[..], base, size, lo, hi, i, taken);
      var p := PhdrAddress(base, e, i);
      if (p + PHDR_SIZE) % TWO64 > base + size { return -4, loaded; }
      var h := FetchBytes(ram, p, PHDR_SIZE);
      var ph := ReadPhdr(h);
      if ph.kind == PT_LOAD {
        if CheckPhdr(ph, size, lo, hi) != 0 { return CheckPhdr(ph, size, lo, hi), loaded; }
        LoadSegment(ram, base, ph);
        e := HeaderIn(ram[..], base);
        taken := taken + [ph];
        loaded := loaded + 1;
      }
      i := i + 1;
    }
    RunEnds(ram[..], base, size, lo, hi, i, taken);
    return 0, loaded;
  }

  lemma RunFromStart(m: seq<byte>, base: nat, size: nat, lo: nat, hi: nat)
    requires EHDR_SIZE <= size && InMemory(m, base, size)
    ensures Before([], Run(m, base, size, lo, hi, 0)) == Run(m, base, size, lo, hi, 0)
  {
    hide Run;
    var t := Run(m, base, size, lo, hi, 0).taken;
    assert [] + t == t;
  }

  /** Loads the image of the given size at address base, whatever it holds and whatever it overwrites. */
  method LoadIn(ram: array<byte>, base: nat, size: nat, lo: nat, hi: nat) returns (r: int, entry: Option<nat>)
    requires InMemory(ram[..], base, size)
    modifies ram
    ensures var l := Load(old(ram[..]), base, size, lo, hi);
            && r == l.code && ram[..] == l.mem
            && (l.code == 0 ==> size >= EHDR_SIZE)
            && entry == if l.code == 0 then Some(HeaderIn(l.mem, base).entry) else None
    ensures r == -1 <==> size < 64 || !Identified(old(ram[..]), base)
    ensures r == 0 ==> entry == Some(FromLE(ram[base + 24..base + 32]))
  {
    hide HeaderIn, Run, Identified, CheckEhdr, HeaderOk, FromLE;
    RefusedUnidentified(ram[..], base, size, lo, hi);
    if size < EHDR_SIZE { return -1, None; }
    var e := HeaderIn(ram[..], base);
    if CheckEhdr(e, size) != 0 { return CheckEhdr(e, size), None; }
    var code, loaded := LoadHeaders(ram, base, size, lo, hi);
    if code != 0 { return code, None; }
    if loaded == 0 { return -2, None; }
    EntryBytes(ram[..], base);
    assert ram[..][base + 24..base + 32] == ram[base + 24..base + 32];
    return 0, Some(HeaderIn(ram[..], base).entry);
  }

  method LoadSegment(ram: array<byte>, base: u64, ph: Phdr)
    modifies ram
    ensures ram[..] == LaidOver(old(ram[..]), base, ph)
  {
    CopyBytes(ram, ph.vaddr, (base + ph.offset) % TWO64, ph.filesz);
    ZeroBytes(ram, ph.vaddr, ph.filesz, ph.memsz);
  }

  // ---- What any run keeps ---------------------------------------------------

  function Larger(a: nat, b: nat): nat { if a > b then a else b }

  /** The bytes of memory an accepted header asks for. */
  function Extent(ph: Phdr): nat { Larger(ph.filesz, ph.memsz) }

  predicate Covers(ph: Phdr, a: nat)
    requires a < TWO64
  {
    Dist(ph.vaddr, a) < Extent(ph)
  }

  predicate NoneCovers(phs: seq<Phdr>, a: nat)
    requires a < TWO64
  {
    forall k | 0 <= k < |phs| :: !Covers(phs[k], a)
  }

  lemma {:induction false} CopiedOutside(m: seq<byte>, dst: u64, src: u64, n: nat, a: nat)
    requires n <= TWO64 && a < |m| <= TWO64 && n <= Dist(dst, a)
    ensures Copied(m, dst, src, n)[a] == m[a]
    decreases n
  {
    if n > 0 { CopiedOutside(m, dst, src, n - 1, a); }
  }

  lemma {:induction false} ZeroedOutside(m: seq<byte>, dst: u64, b0: nat, b1: nat, a: nat)
    requires b1 <= TWO64 && a < |m| <= TWO64 && b1 <= Dist(dst, a)
    ensures Zeroed(m, dst, b0, b1)[a] == m[a]
    decreases b1
  {
    if b1 > b0 { ZeroedOutside(m, dst, b0, b1 - 1, a); }
  }

  lemma LaidOutside(m: seq<byte>, base: u64, ph: Phdr, a: nat)
    requires a < |m| <= TWO64 && !Covers(ph, a)
    ensures LaidOver(m, base, ph)[a] == m[a]
  {
    hide Copied, Zeroed, Dist;
    var src := (base + ph.offset) % TWO64;
    CopiedOutside(m, ph.vaddr, src, ph.filesz, a);
    ZeroedOutside(Copied(m, ph.vaddr, src, ph.filesz), ph.vaddr, ph.filesz, ph.memsz, a);
  }

  /** What has been checked of an accepted header; the sum is cut to 64 bits before the comparison. */
  predicate Checked(ph: Phdr, lo: nat, hi: nat) { lo <= ph.vaddr && CutAtMost(ph.vaddr + ph.memsz, hi) }

  predicate AllChecked(phs: seq<Phdr>, lo: nat, hi: nat)
  {
    forall k | 0 <= k < |phs| :: Checked(phs[k], lo, hi)
  }

  lemma {:induction false} RunFacts(m: seq<byte>, base: nat, size: nat, lo: nat, hi: nat, i: nat, a: nat)
    requires EHDR_SIZE <= size && InMemory(m, base, size) && hi < TWO64 && a < |m|
    ensures var r := Run(m, base, size, lo, hi, i);
            AllChecked(r.taken, lo, hi) && (NoneCovers(r.taken, a) ==> r.mem[a] == m[a])
    decreases 0x1_0000 - i
  {
    hide HeaderIn, ReadPhdr, CheckPhdr, LaidOver, Fetch, PhdrAddress, Covers, Checked;
    var e := HeaderIn(m, base);
    if i < e.phnum && (PhdrAddress(base, e, i) + PHDR_SIZE) % TWO64 <= base + size {
      var ph := ReadPhdr(Fetch(m, PhdrAddress(base, e, i), PHDR_SIZE));
      if ph.kind != PT_LOAD {
        RunFacts(m, base, size, lo, hi, i + 1, a);
      } else if CheckPhdr(ph, size, lo, hi) == 0 {
        RunFacts(LaidOver(m, base, ph), base, size, lo, hi, i + 1, a);
        assert Checked(ph, lo, hi) by { AcceptedChecked(ph, size, lo, hi); }
        TakenFirst(ph, Run(LaidOver(m, base, ph), base, size, lo, hi, i + 1).taken, a);
        if !Covers(ph, a) { LaidOutside(m, base, ph, a); }
      }
    }
  }

  lemma LoadChecks(m: seq<byte>, base: nat, size: nat, lo: nat, hi: nat)
    requires InMemory(m, base, size) && hi < |m|
    ensures AllChecked(Load(m, base, size, lo, hi).taken, lo, hi)
  {
    hide Run, HeaderIn, CheckEhdr, Checked;
    if size >= EHDR_SIZE && CheckEhdr(HeaderIn(m, base), size) == 0 { RunFacts(m, base, size, lo, hi, 0, 0); }
  }

  lemma AcceptedChecked(ph: Phdr, size: nat, lo: nat, hi: nat)
    requires size < TWO64 && hi < TWO64 && CheckPhdr(ph, size, lo, hi) == 0
    ensures Checked(ph, lo, hi)
  {
    AcceptedIff(ph, size, lo, hi);
  }

  lemma TakenFirst(ph: Phdr, rest: seq<Phdr>, a: nat)
    requires a < TWO64
    ensures NoneCovers([ph] + rest, a) ==> !Covers(ph, a) && NoneCovers(rest, a)
  {
    hide Covers;
    if NoneCovers([ph] + rest, a) {
      assert ([ph] + rest)[0] == ph;
      forall k | 0 <= k < |rest| ensures !Covers(rest[k], a) {
        assert ([ph] + rest)[k + 1] == rest[k];
      }
    }
  }

  /** The header covers no address of a memory of n bytes outside the window. */
  ghost predicate Harmless(ph: Phdr, lo: nat, hi: nat, n: nat)
    requires n <= TWO64
  {
    forall a: nat | a < n && !(lo <= a < hi) :: !Covers(ph, a)
  }

  /**
   The condition the loader does not test, in unbounded arithmetic: the segment is empty, or its
   larger size ends inside the window, or all of it lies beyond the memory.
   */
  predicate Spares(ph: Phdr, hi: nat, n: nat)
  {
    Extent(ph) == 0 || ph.vaddr + Extent(ph) <= hi || (n <= ph.vaddr && ph.vaddr + Extent(ph) <= TWO64)
  }

  lemma HarmlessIff(ph: Phdr, lo: nat, hi: nat, n: nat)
    requires Checked(ph, lo, hi) && 0 < lo <= hi < n <= TWO64
    ensures Harmless(ph, lo, hi, n) <==> Spares(ph, hi, n)
  {
    hide Extent;
    assert Extent(ph) < TWO64 by { ExtentFits(ph); }
    if !Spares(ph, hi, n) {
      var a := if ph.vaddr + Extent(ph) > TWO64 then 0 else Larger(ph.vaddr, hi);
      assert a < n && !(lo <= a < hi) && Covers(ph, a);
    }
  }

  lemma ExtentFits(ph: Phdr) ensures Extent(ph) < TWO64 { }

  predicate AllSpare(phs: seq<Phdr>, hi: nat, n: nat)
  {
    forall k | 0 <= k < |phs| :: Spares(phs[k], hi, n)
  }

  /**
   For every image whatever, malformed ones and ones that overwrite themselves included, and on every
   return code: memory outside the window survives if every accepted header spares it.
   */
  lemma LoadKeepsOutside(m: seq<byte>, base: nat, size: nat, lo: nat, hi: nat)
    requires InMemory(m, base, size) && 0 < lo <= hi < |m|
    requires AllSpare(Load(m, base, size, lo, hi).taken, hi, |m|)
    ensures SameOutside(m, Load(m, base, size, lo, hi).mem, lo, hi)
  {
    hide Run, Spares, Covers, HeaderIn, CheckEhdr, Checked;
    var l := Load(m, base, size, lo, hi);
    if size >= EHDR_SIZE && CheckEhdr(HeaderIn(m, base), size) == 0 {
      forall a | 0 <= a < |m| && !(lo <= a < hi) ensures l.mem[a] == m[a] {
        RunFacts(m, base, size, lo, hi, 0, a);
        forall k | 0 <= k < |l.taken| ensures !Covers(l.taken[k], a) {
          HarmlessIff(l.taken[k], lo, hi, |m|);
        }
      }
    }
  }

  /**
   For every image: it is refused with -1 exactly when it is too short or not identified, and with -2
   before any program header is read exactly when it names none. Either leaves memory alone.
   */
  lemma RefusedIff(m: seq<byte>, base: nat, size: nat, lo: nat, hi: nat)
    requires InMemory(m, base, size)
    ensures var l := Load(m, base, size, lo, hi);
            && (l.code == -1 <==>
                  || size < 64 || m[base..base + 4] != [0x7F, 0x45, 0x4C, 0x46] || m[base + 4] != 2 || m[base + 5] != 1
                  || m[base + 16..base + 18] != [2, 0] || m[base + 18..base + 20] != [0x3E, 0])
            && (l.code == -1 ==> l.mem == m)
            && (size >= 64 && Identified(m, base) && (m[base + 56..base + 58] == [0, 0] || FromLE(m[base + 32..base + 40]) == 0) ==>
                  l.code == -2 && l.mem == m)
            && (l.code == 0 ==> size >= 64 && HeaderOk(m, base, size))
  {
    hide Run, ReadEhdr, CheckEhdr, HeaderOk, FromLE;
    if size >= 64 {
      HeaderVerdict(m, base, size);
      if CheckEhdr(HeaderIn(m, base), size) == 0 { RunCodes(m, base, size, lo, hi, 0); }
    }
  }

  lemma RefusedUnidentified(m: seq<byte>, base: nat, size: nat, lo: nat, hi: nat)
    requires InMemory(m, base, size)
    ensures Load(m, base, size, lo, hi).code == -1 <==> size < 64 || !Identified(m, base)
  {
    hide Load;
    RefusedIff(m, base, size, lo, hi);
  }

  lemma EntryBytes(m: seq<byte>, base: nat)
    requires InMemory(m, base, EHDR_SIZE)
    ensures HeaderIn(m, base).entry == FromLE(m[base + 24..base + 32])
  {
    hide ReadEhdr, FromLE, Identified;
    HeaderFields(m, base);
  }

  lemma {:induction false} RunCodes(m: seq<byte>, base: nat, size: nat, lo: nat, hi: nat, i: nat)
    requires EHDR_SIZE <= size && InMemory(m, base, size)
    ensures Run(m, base, size, lo, hi, i).code in {0, -3, -4}
    decreases 0x1_0000 - i
  {
    hide HeaderIn, ReadPhdr, CheckPhdr, LaidOver, Fetch, PhdrAddress;
    var e := HeaderIn(m, base);
    if i < e.phnum && (PhdrAddress(base, e, i) + PHDR_SIZE) % TWO64 <= base + size {
      var ph := ReadPhdr(Fetch(m, PhdrAddress(base, e, i), PHDR_SIZE));
      VerdictOf(ph, size, lo, hi);
      if ph.kind != PT_LOAD {
        RunCodes(m, base, size, lo, hi, i + 1);
      } else if CheckPhdr(ph, size, lo, hi) == 0 {
        RunCodes(LaidOver(m, base, ph), base, size, lo, hi, i + 1);
      }
    }
  }

  // ---- What a well-read image asks for --------------------------------------

  function HeaderOf(img: seq<byte>): Ehdr
    requires EHDR_SIZE <= |img|
  {
    ReadEhdr(img[..EHDR_SIZE])
  }

  function PhdrOf(img: seq<byte>, e: Ehdr, i: nat): Phdr
    requires At(e, i) + PHDR_SIZE <= |img|
  {
    ReadPhdr(img[At(e, i)..At(e, i) + PHDR_SIZE])
  }

  /** Return code and accepted headers of an image, from program header i on. */
  function Scan(img: seq<byte>, lo: nat, hi: nat, i: nat): (int, seq<Phdr>)
    requires EHDR_SIZE <= |img|
    decreases HeaderOf(img).phnum - i
  {
    var e := HeaderOf(img);
    if i >= e.phnum then (0, [])
    else if At(e, i) + PHDR_SIZE > |img| then (-4, [])
    else
      var ph := PhdrOf(img, e, i);
      if ph.kind != PT_LOAD then Scan(img, lo, hi, i + 1)
      else if CheckPhdr(ph, |img|, lo, hi) != 0 then (CheckPhdr(ph, |img|, lo, hi), [])
      else
        var (code, rest) := Scan(img, lo, hi, i + 1);
        (code, [ph] + rest)
  }

  function Plan(img: seq<byte>, lo: nat, hi: nat): (int, seq<Phdr>)
  {
    if |img| < EHDR_SIZE then (-1, [])
    else if CheckEhdr(HeaderOf(img), |img|) != 0 then (CheckEhdr(HeaderOf(img), |img|), [])
    else
      var (code, phs) := Scan(img, lo, hi, 0);
      if code == 0 && phs == [] then (-2, []) else (code, phs)
  }

  /** The sum that places the header table does not wrap: the table is read inside the image. */
  predicate TableInside(img: seq<byte>)
  {
    |img| >= EHDR_SIZE && CheckEhdr(HeaderOf(img), |img|) == 0 ==> TableEnd(HeaderOf(img)) < TWO64
  }

  predicate FilesInside(phs: seq<Phdr>, size: nat)
  {
    forall k | 0 <= k < |phs| :: phs[k].offset + phs[k].filesz <= size
  }

  /** The header covers none of the addresses [a, b). */
  predicate Misses(ph: Phdr, a: nat, b: nat)
  {
    Extent(ph) == 0 || ph.vaddr + Extent(ph) <= a || (b <= ph.vaddr && ph.vaddr + Extent(ph) <= TWO64 + a)
  }

  predicate Apart(phs: seq<Phdr>, base: nat, size: nat)
  {
    forall k | 0 <= k < |phs| :: Misses(phs[k], base, base + size)
  }

  lemma MissesCovers(ph: Phdr, a: nat, b: nat, x: nat)
    requires Misses(ph, a, b) && a <= x < b <= TWO64
    ensures !Covers(ph, x)
  {
  }

  /** Bytes that every accepted header misses are kept, whatever the image. */
  lemma ApartKeeps(m: seq<byte>, base: nat, size: nat, lo: nat, hi: nat, a: nat, n: nat)
    requires InMemory(m, base, size) && hi < TWO64 && a + n <= |m|
    requires Apart(Load(m, base, size, lo, hi).taken, a, n)
    ensures forall x | a <= x < a + n :: Load(m, base, size, lo, hi).mem[x] == m[x]
  {
    hide Run, Covers, Misses, HeaderIn, CheckEhdr;
    var l := Load(m, base, size, lo, hi);
    forall x | a <= x < a + n ensures l.mem[x] == m[x] {
      if size >= EHDR_SIZE && CheckEhdr(HeaderIn(m, base), size) == 0 {
        RunFacts(m, base, size, lo, hi, 0, x);
        forall k | 0 <= k < |l.taken| ensures !Covers(l.taken[k], x) {
          MissesCovers(l.taken[k], a, a + n, x);
        }
      }
    }
  }

  // ---- Segments laid over memory --------------------------------------------

  /** An accepted segment: its file bytes, and its size in memory. */
  datatype Segment = Segment(vaddr: u64, file: seq<byte>, memsz: u64)

  function SegmentOf(img: seq<byte>, ph: Phdr): Segment
    requires ph.offset + ph.filesz <= |img|
  {
    Segment(ph.vaddr, img[ph.offset..ph.offset + ph.filesz], ph.memsz)
  }

  function Segments(img: seq<byte>, phs: seq<Phdr>): (segs: seq<Segment>)
    requires FilesInside(phs, |img|)
    ensures |segs| == |phs| && forall k | 0 <= k < |phs| :: segs[k] == SegmentOf(img, phs[k])
  {
    if phs == [] then []
    else
      assert FilesInside(phs[1..], |img|) by {
        forall k | 0 <= k < |phs| - 1 ensures phs[1..][k].offset + phs[1..][k].filesz <= |img| { assert phs[1..][k] == phs[k + 1]; }
      }
      [SegmentOf(img, phs[0])] + Segments(img, phs[1..])
  }

  /** File bytes, then zeros up to the size in memory. */
  function Content(s: Segment): (r: seq<byte>)
    ensures |r| == Larger(|s.file|, s.memsz)
  {
    s.file + Zeros(if |s.file| > s.memsz then 0 else s.memsz - |s.file|)
  }

  /** Memory with s stored from address a on, around the address space. */
  function Overlay(m: seq<byte>, a: u64, s: seq<byte>): (r: seq<byte>)
    requires |m| <= TWO64
    ensures |r| == |m|
    ensures forall j {:trigger r[j]} | 0 <= j < |m| :: r[j] == if Dist(a, j) < |s| then s[Dist(a, j)] else m[j]
  {
    seq(|m|, j requires 0 <= j < |m| => if Dist(a, j) < |s| then s[Dist(a, j)] else m[j])
  }

  function Apply(m: seq<byte>, segs: seq<Segment>): (r: seq<byte>)
    requires |m| <= TWO64
    ensures |r| == |m|
    decreases segs
  {
    if segs == [] then m else Apply(Overlay(m, segs[0].vaddr, Content(segs[0])), segs[1..])
  }

  predicate Holds(s: Segment, a: nat)
    requires a < TWO64
  {
    Dist(s.vaddr, a) < |Content(s)|
  }

  /** An address no segment holds keeps its byte. */
  lemma {:induction false} UncoveredKeeps(m: seq<byte>, segs: seq<Segment>, a: nat)
    requires a < |m| <= TWO64 && forall k | 0 <= k < |segs| :: !Holds(segs[k], a)
    ensures Apply(m, segs)[a] == m[a]
    decreases segs
  {
    if segs != [] {
      hide Content;
      UncoveredKeeps(Overlay(m, segs[0].vaddr, Content(segs[0])), segs[1..], a);
    }
  }

  /** The last segment holding an address decides its byte. */
  lemma {:induction false} LastSegmentWins(m: seq<byte>, segs: seq<Segment>, k: nat, a: nat)
    requires a < |m| <= TWO64 && k < |segs| && Holds(segs[k], a) && forall j | k < j < |segs| :: !Holds(segs[j], a)
    ensures Apply(m, segs)[a] == Content(segs[k])[Dist(segs[k].vaddr, a)]
    decreases segs
  {
    hide Content, Dist;
    var m' := Overlay(m, segs[0].vaddr, Content(segs[0]));
    if k > 0 {
      LastSegmentWins(m', segs[1..], k - 1, a);
    } else {
      UncoveredKeeps(m', segs[1..], a);
    }
  }

  // ---- The run on a well-read image -----------------------------------------

  lemma {:induction false} CopiedIs(m: seq<byte>, dst: u64, src: u64, n: nat, a: nat)
    requires src + n <= |m| <= TWO64 && n < TWO64 && a < |m|
    requires forall x | src <= x < src + n :: n <= Dist(dst, x)
    ensures Copied(m, dst, src, n)[a] == if Dist(dst, a) < n then m[src + Dist(dst, a)] else m[a]
    decreases n
  {
    hide Dist, Place;
    if n > 0 {
      CopiedIs(m, dst, src, n - 1, a);
      PlaceDist(dst, n - 1, a);
      assert Place(src, n - 1) == src + n - 1 by { PlaceBelowTop(src, n - 1); }
      CopiedOutside(m, dst, src, n - 1, src + n - 1);
    }
  }

  lemma {:induction false} ZeroedIs(m: seq<byte>, dst: u64, b0: nat, b1: nat, a: nat)
    requires b1 <= TWO64 && a < |m| <= TWO64
    ensures Zeroed(m, dst, b0, b1)[a] == if b0 <= Dist(dst, a) < b1 then 0 else m[a]
    decreases b1
  {
    if b1 > b0 { ZeroedIs(m, dst, b0, b1 - 1, a); }
  }

  lemma ContentBytes(s: Segment)
    ensures |Content(s)| == Larger(|s.file|, s.memsz)
    ensures forall b | 0 <= b < |Content(s)| :: Content(s)[b] == if b < |s.file| then s.file[b] else 0
  {
  }

  lemma MissesDist(ph: Phdr, a: nat, b: nat, x: nat)
    requires Misses(ph, a, b) && a <= x < b <= TWO64
    ensures Dist(ph.vaddr, x) >= Extent(ph)
  {
  }

  /** A header whose segment misses the image lays exactly its segment over memory. */
  lemma LaidIsOverlay(m: seq<byte>, base: nat, img: seq<byte>, ph: Phdr)
    requires InMemory(m, base, |img|) && m[base..base + |img|] == img
    requires ph.offset + ph.filesz <= |img| && Misses(ph, base, base + |img|)
    ensures LaidOver(m, base, ph) == Overlay(m, ph.vaddr, Content(SegmentOf(img, ph)))
  {
    hide Copied, Zeroed, Dist, Content, Misses;
    var src, s := base + ph.offset, SegmentOf(img, ph);
    assert (base + ph.offset) % TWO64 == src by { CutIs(src); }
    SliceOfSlice(m, base, base + |img|, ph.offset, ph.offset + ph.filesz);
    assert s.file == m[src..src + ph.filesz];
    forall a | src <= a < src + ph.filesz ensures ph.filesz <= Dist(ph.vaddr, a) {
      MissesDist(ph, base, base + |img|, a);
    }
    var p := Copied(m, ph.vaddr, src, ph.filesz);
    ContentBytes(s);
    forall a | 0 <= a < |m| ensures LaidOver(m, base, ph)[a] == Overlay(m, ph.vaddr, Content(s))[a] {
      CopiedIs(m, ph.vaddr, src, ph.filesz, a);
      ZeroedIs(p, ph.vaddr, ph.filesz, ph.memsz, a);
    }
  }

  lemma OverlaySpares(m: seq<byte>, base: nat, img: seq<byte>, ph: Phdr)
    requires InMemory(m, base, |img|) && m[base..base + |img|] == img && Misses(ph, base, base + |img|)
    ensures var r := LaidOver(m, base, ph); r[base..base + |img|] == img
  {
    hide LaidOver, Misses, Covers;
    var r := LaidOver(m, base, ph);
    forall a | base <= a < base + |img| ensures r[a] == m[a] {
      MissesCovers(ph, base, base + |img|, a);
      LaidOutside(m, base, ph, a);
    }
    assert r[base..base + |img|] == m[base..base + |img|];
  }

  /** The program header the loop reads from memory is the image's. */
  lemma HeaderRead(m: seq<byte>, base: nat, img: seq<byte>, i: nat)
    requires EHDR_SIZE <= |img| && InMemory(m, base, |img|) && m[base..base + |img|] == img
    requires i < HeaderOf(img).phnum && TableEnd(HeaderOf(img)) <= |img|
    ensures HeaderIn(m, base) == HeaderOf(img)
    ensures var e, p := HeaderOf(img), PhdrAddress(base, HeaderOf(img), i);
            && ((p + PHDR_SIZE) % TWO64 > base + |img| <==> At(e, i) + PHDR_SIZE > |img|)
            && (At(e, i) + PHDR_SIZE <= |img| ==> ReadPhdr(Fetch(m, p, PHDR_SIZE)) == PhdrOf(img, e, i))
  {
    hide ReadEhdr, ReadPhdr, HeaderIn, HeaderOf, At, Place;
    SameHeader(m, base, img);
    var e := HeaderOf(img);
    var off := At(e, i);
    HeaderBelowEnd(e, i);
    InsideSum(base, off, |m|);
    if off + PHDR_SIZE <= |img| {
      SliceOfSlice(m, base, base + |img|, off, off + PHDR_SIZE);
      FetchIs(m, base + off, PHDR_SIZE);
    }
  }

  lemma InsideSum(base: nat, off: nat, n: nat)
    requires base + off <= n < TWO64 - PHDR_SIZE
    ensures (base + off) % TWO64 == base + off && (base + off + PHDR_SIZE) % TWO64 == base + off + PHDR_SIZE
  {
  }

  lemma FetchIs(m: seq<byte>, p: nat, n: nat)
    requires p + n <= |m| < TWO64
    ensures Fetch(m, p, n) == m[p..p + n]
  {
    hide Place;
    forall k | 0 <= k < n ensures Fetch(m, p, n)[k] == m[p..p + n][k] { PlaceBelowTop(p, k); }
  }

  lemma SameHeader(m: seq<byte>, base: nat, img: seq<byte>)
    requires EHDR_SIZE <= |img| && InMemory(m, base, |img|) && m[base..base + |img|] == img
    ensures HeaderIn(m, base) == HeaderOf(img)
  {
    hide ReadEhdr;
    SliceOfSlice(m, base, base + |img|, 0, EHDR_SIZE);
    assert img[0..EHDR_SIZE] == img[..EHDR_SIZE];
  }

  lemma HeaderBelowEnd(e: Ehdr, i: nat)
    requires i < e.phnum
    ensures At(e, i) <= TableEnd(e)
  {
    Scale(e.phentsize, i, e.phnum);
  }

  lemma {:induction false} RunIsScan(m: seq<byte>, base: nat, img: seq<byte>, lo: nat, hi: nat, i: nat)
    requires EHDR_SIZE <= |img| && InMemory(m, base, |img|) && m[base..base + |img|] == img
    requires TableEnd(HeaderOf(img)) <= |img|
    requires FilesInside(Scan(img, lo, hi, i).1, |img|) && Apart(Scan(img, lo, hi, i).1, base, |img|)
    ensures var (code, phs) := Scan(img, lo, hi, i);
            Run(m, base, |img|, lo, hi, i) == Loading(code, Apply(m, Segments(img, phs)), phs)
    decreases 0x1_0000 - i
  {
    hide HeaderOf, HeaderIn, ReadPhdr, CheckPhdr, PhdrOf, LaidOver, Overlay, Content, Misses, Fetch, PhdrAddress, SegmentOf;
    SameHeader(m, base, img);
    var e := HeaderOf(img);
    if i < e.phnum {
      HeaderRead(m, base, img, i);
      if At(e, i) + PHDR_SIZE <= |img| {
        var ph := PhdrOf(img, e, i);
        if ph.kind != PT_LOAD {
          RunIsScan(m, base, img, lo, hi, i + 1);
        } else if CheckPhdr(ph, |img|, lo, hi) == 0 {
          var rest := Scan(img, lo, hi, i + 1).1;
          assert Scan(img, lo, hi, i).1 == [ph] + rest;
          FirstAndRest(ph, rest, base, |img|);
          LaidIsOverlay(m, base, img, ph);
          OverlaySpares(m, base, img, ph);
          RunIsScan(LaidOver(m, base, ph), base, img, lo, hi, i + 1);
          ApplyFirst(m, img, ph, rest);
        }
      }
    }
  }

  lemma FirstAndRest(ph: Phdr, rest: seq<Phdr>, base: nat, size: nat)
    requires FilesInside([ph] + rest, size) && Apart([ph] + rest, base, size)
    ensures ph.offset + ph.filesz <= size && Misses(ph, base, base + size)
    ensures FilesInside(rest, size) && Apart(rest, base, size)
  {
    hide Misses;
    assert ([ph] + rest)[0] == ph;
    forall k | 0 <= k < |rest| ensures rest[k].offset + rest[k].filesz <= size && Misses(rest[k], base, base + size) {
      assert ([ph] + rest)[k + 1] == rest[k];
    }
  }

  lemma ApplyFirst(m: seq<byte>, img: seq<byte>, ph: Phdr, rest: seq<Phdr>)
    requires |m| <= TWO64 && FilesInside([ph] + rest, |img|) && FilesInside(rest, |img|) && ph.offset + ph.filesz <= |img|
    ensures Apply(m, Segments(img, [ph] + rest)) == Apply(Overlay(m, ph.vaddr, Content(SegmentOf(img, ph))), Segments(img, rest))
  {
    hide Overlay, Content;
    assert ([ph] + rest)[1..] == rest;
    var segs := Segments(img, [ph] + rest);
    assert segs[1..] == Segments(img, rest);
  }

  /**
   The run on a well-read image (header table and accepted file bytes inside it, and no accepted
   segment over it): the planned code, and the segments laid over memory in order.
   */
  lemma LoadIsPlan(m: seq<byte>, base: nat, img: seq<byte>, lo: nat, hi: nat)
    requires InMemory(m, base, |img|) && m[base..base + |img|] == img && TableInside(img)
    requires FilesInside(Plan(img, lo, hi).1, |img|) && Apart(Plan(img, lo, hi).1, base, |img|)
    ensures var (code, phs) := Plan(img, lo, hi);
            Load(m, base, |img|, lo, hi) == Loading(code, Apply(m, Segments(img, phs)), phs)
  {
    hide HeaderOf, HeaderIn, Run, Scan, CheckEhdr, Misses;
    if |img| >= EHDR_SIZE {
      SameHeader(m, base, img);
      if CheckEhdr(HeaderOf(img), |img|) == 0 {
        TableInsideIff(HeaderOf(img), |img|);
        NothingApart(base, |img|);
        RunIsScan(m, base, img, lo, hi, 0);
      }
    }
  }

  lemma NothingApart(base: nat, size: nat)
    ensures FilesInside([], size) && Apart([], base, size)
  {
  }

  // ---- Exactly which well-read images stay in their window ------------------

  lemma {:induction false} SameByte(m: seq<byte>, m': seq<byte>, segs: seq<Segment>, a: nat)
    requires |m| == |m'| <= TWO64 && a < |m| && m[a] == m'[a]
    ensures Apply(m, segs)[a] == Apply(m', segs)[a]
    decreases segs
  {
    if segs != [] {
      hide Content;
      SameByte(Overlay(m, segs[0].vaddr, Content(segs[0])), Overlay(m', segs[0].vaddr, Content(segs[0])), segs[1..], a);
    }
  }

  /** A byte some segment holds does not depend on the memory before. */
  lemma {:induction false} CoveredByte(m: seq<byte>, m': seq<byte>, segs: seq<Segment>, k: nat, a: nat)
    requires |m| == |m'| <= TWO64 && k < |segs| && a < |m| && Holds(segs[k], a)
    ensures Apply(m, segs)[a] == Apply(m', segs)[a]
    decreases segs
  {
    hide Content;
    var r, r' := Overlay(m, segs[0].vaddr, Content(segs[0])), Overlay(m', segs[0].vaddr, Content(segs[0]));
    if k > 0 { CoveredByte(r, r', segs[1..], k - 1, a); } else { SameByte(r, r', segs[1..], a); }
  }

  /** Loading this image at base keeps every byte outside the window, whatever the memory of n bytes holds. */
  ghost predicate KeepsOutside(img: seq<byte>, base: nat, lo: nat, hi: nat, n: nat)
    requires base + |img| <= n < TWO64 - PHDR_SIZE
  {
    forall m: seq<byte> | |m| == n && m[base..base + |img|] == img :: SameOutside(m, Load(m, base, |img|, lo, hi).mem, lo, hi)
  }

  /** The image is read inside itself and not overwritten while it loads at base. */
  ghost predicate WellRead(img: seq<byte>, base: nat, lo: nat, hi: nat)
  {
    var phs := Plan(img, lo, hi).1;
    TableInside(img) && FilesInside(phs, |img|) && Apart(phs, base, |img|)
  }

  /**
   On every return code, memory outside the window survives exactly when every accepted header
   spares it; the checks guarantee neither that p_filesz stays within the window nor that
   p_vaddr + p_memsz does not wrap.
   */
  lemma KeepsOutsideIff(img: seq<byte>, base: nat, lo: nat, hi: nat, n: nat)
    requires base + |img| <= n < TWO64 - PHDR_SIZE && 0 < lo <= hi < n && WellRead(img, base, lo, hi)
    ensures KeepsOutside(img, base, lo, hi, n) <==> AllSpare(Plan(img, lo, hi).1, hi, n)
  {
    hide Load, Plan, Spares, TableInside, FilesInside, Apart;
    var phs := Plan(img, lo, hi).1;
    if AllSpare(phs, hi, n) {
      forall m: seq<byte> | |m| == n && m[base..base + |img|] == img
        ensures SameOutside(m, Load(m, base, |img|, lo, hi).mem, lo, hi) {
        LoadIsPlan(m, base, img, lo, hi);
        LoadKeepsOutside(m, base, |img|, lo, hi);
      }
    } else {
      var k :| 0 <= k < |phs| && !Spares(phs[k], hi, n);
      PlanChecked(img, base, lo, hi, n);
      HarmlessIff(phs[k], lo, hi, n);
      var a: nat :| a < n && !(lo <= a < hi) && Covers(phs[k], a);
      SpoiledByte(img, base, lo, hi, n, k, a);
    }
  }

  lemma PlanChecked(img: seq<byte>, base: nat, lo: nat, hi: nat, n: nat)
    requires base + |img| <= n < TWO64 - PHDR_SIZE && hi < n && WellRead(img, base, lo, hi)
    ensures AllChecked(Plan(img, lo, hi).1, lo, hi)
  {
    hide Plan, Load, TableInside, FilesInside, Apart, Checked;
    var m := Put(Zeros(n), base, img);
    LoadIsPlan(m, base, img, lo, hi);
    LoadChecks(m, base, |img|, lo, hi);
  }

  lemma SpoiledByte(img: seq<byte>, base: nat, lo: nat, hi: nat, n: nat, k: nat, a: nat)
    requires base + |img| <= n < TWO64 - PHDR_SIZE && WellRead(img, base, lo, hi)
    requires var phs := Plan(img, lo, hi).1; k < |phs| && a < n && !(lo <= a < hi) && Covers(phs[k], a)
    ensures !KeepsOutside(img, base, lo, hi, n)
  {
    hide Load, KeepsOutside, Plan, TableInside, Misses, Content, Covers, Apply;
    var phs := Plan(img, lo, hi).1;
    var segs := Segments(img, phs);
    var m := Put(Zeros(n), base, img);
    var v := Apply(m, segs)[a];
    var m' := m[a := if v == 0 then 1 else 0];
    assert m'[base..base + |img|] == img by {
      if base <= a < base + |img| { MissesCovers(phs[k], base, base + |img|, a); }
      assert m'[base..base + |img|] == m[base..base + |img|];
    }
    SegmentHolds(img, phs[k], a);
    CoveredByte(m, m', segs, k, a);
    LoadIsPlan(m', base, img, lo, hi);
    NotKept(m', base, img, lo, hi, a);
  }

  lemma NotKept(m: seq<byte>, base: nat, img: seq<byte>, lo: nat, hi: nat, a: nat)
    requires InMemory(m, base, |img|) && m[base..base + |img|] == img
    requires a < |m| && !(lo <= a < hi) && Load(m, base, |img|, lo, hi).mem[a] != m[a]
    ensures !KeepsOutside(img, base, lo, hi, |m|)
  {
    hide Load;
    assert !SameOutside(m, Load(m, base, |img|, lo, hi).mem, lo, hi);
  }

  lemma SegmentHolds(img: seq<byte>, ph: Phdr, a: nat)
    requires ph.offset + ph.filesz <= |img| && a < TWO64
    ensures Holds(SegmentOf(img, ph), a) <==> Covers(ph, a)
  {
  }

  // ---- Which images load ----------------------------------------------------

  /** Program header i is in the image, and passes the checks if it is loadable. */
  predicate Acceptable(img: seq<byte>, lo: nat, hi: nat, i: nat)
    requires EHDR_SIZE <= |img|
  {
    var e := HeaderOf(img);
    && At(e, i) + PHDR_SIZE <= |img|
    && (PhdrOf(img, e, i).kind == PT_LOAD ==> CheckPhdr(PhdrOf(img, e, i), |img|, lo, hi) == 0)
  }

  ghost predicate AllAcceptable(img: seq<byte>, lo: nat, hi: nat, i: nat)
    requires EHDR_SIZE <= |img|
  {
    forall j | i <= j < HeaderOf(img).phnum :: Acceptable(img, lo, hi, j)
  }

  /** The loadable headers from i on, in order. */
  function Loadables(img: seq<byte>, i: nat): seq<Phdr>
    requires EHDR_SIZE <= |img|
    decreases HeaderOf(img).phnum - i
  {
    var e := HeaderOf(img);
    if i >= e.phnum || At(e, i) + PHDR_SIZE > |img| then []
    else
      (if PhdrOf(img, e, i).kind == PT_LOAD then [PhdrOf(img, e, i)] else []) + Loadables(img, i + 1)
  }

  /** The scan ends with 0 exactly when every header is acceptable, and then has accepted all loadable ones. */
  lemma {:induction false} ScanVerdict(img: seq<byte>, lo: nat, hi: nat, i: nat)
    requires EHDR_SIZE <= |img|
    ensures AllAcceptable(img, lo, hi, i) ==> Scan(img, lo, hi, i) == (0, Loadables(img, i))
    ensures !AllAcceptable(img, lo, hi, i) ==> Scan(img, lo, hi, i).0 in {-3, -4}
    decreases HeaderOf(img).phnum - i
  {
    hide HeaderOf, PhdrOf, CheckPhdr, AllAcceptable;
    AcceptableStep(img, lo, hi, i);
    if i < HeaderOf(img).phnum && At(HeaderOf(img), i) + PHDR_SIZE <= |img| {
      VerdictOf(PhdrOf(img, HeaderOf(img), i), |img|, lo, hi);
      ScanVerdict(img, lo, hi, i + 1);
      assert [] + Loadables(img, i + 1) == Loadables(img, i + 1);
    }
  }

  lemma AcceptableStep(img: seq<byte>, lo: nat, hi: nat, i: nat)
    requires EHDR_SIZE <= |img|
    ensures AllAcceptable(img, lo, hi, i) <==>
            i >= HeaderOf(img).phnum || (Acceptable(img, lo, hi, i) && AllAcceptable(img, lo, hi, i + 1))
  {
    hide Acceptable, HeaderOf;
  }

  lemma VerdictOf(ph: Phdr, size: nat, lo: nat, hi: nat)
    ensures CheckPhdr(ph, size, lo, hi) in {0, -3, -4}
  {
  }

  /** The first header that is not acceptable decides the code: -4 outside the image, else -3 for its addresses or -4 for its file bytes. */
  lemma {:induction false} ScanCode(img: seq<byte>, lo: nat, hi: nat, i: nat, j: nat)
    requires EHDR_SIZE <= |img| < TWO64 && hi < TWO64 && i <= j < HeaderOf(img).phnum
    requires (forall k | i <= k < j :: Acceptable(img, lo, hi, k)) && !Acceptable(img, lo, hi, j)
    ensures Scan(img, lo, hi, i).0 ==
              var e := HeaderOf(img);
              if At(e, j) + 56 > |img| then -4
              else
                var ph := PhdrOf(img, e, j);
                if lo <= ph.vaddr && CutAtMost(ph.vaddr + ph.memsz, hi) then -4 else -3
    decreases j - i
  {
    hide HeaderOf, PhdrOf, CheckPhdr, CutAtMost;
    assert i < j ==> Acceptable(img, lo, hi, i);
    if At(HeaderOf(img), i) + PHDR_SIZE <= |img| {
      var ph := PhdrOf(img, HeaderOf(img), i);
      VerdictOf(ph, |img|, lo, hi);
      AcceptedIff(ph, |img|, lo, hi);
    }
    if i < j { ScanCode(img, lo, hi, i + 1, j); }
  }

  /** The plan's code is 0 exactly when the headers are in order and some are loadable; then all of these are accepted. */
  lemma LoadsIff(img: seq<byte>, lo: nat, hi: nat)
    ensures Plan(img, lo, hi).0 == 0 <==>
            && |img| >= 64 && HeaderOk(img, 0, |img|)
            && AllAcceptable(img, lo, hi, 0) && Loadables(img, 0) != []
    ensures Plan(img, lo, hi).0 == 0 ==> Plan(img, lo, hi).1 == Loadables(img, 0)
    ensures |img| >= 64 && HeaderOk(img, 0, |img|) && AllAcceptable(img, lo, hi, 0) && Loadables(img, 0) == [] ==> Plan(img, lo, hi).0 == -2
  {
    hide Scan, AllAcceptable, Loadables, CheckEhdr, ReadEhdr, HeaderOk;
    if |img| >= EHDR_SIZE {
      ScanVerdict(img, lo, hi, 0);
      HeaderVerdict(img, 0, |img|);
      assert img[0..64] == img[..64];
    }
  }

  // ---- An image with one segment --------------------------------------------

  function PackEhdr(entry: u64): (h: seq<byte>)
    ensures |h| == EHDR_SIZE
  {
    [0x7F, 0x45, 0x4C, 0x46, 2, 1] + ToLE(0, 10) + ToLE(2, 2) + ToLE(0x3E, 2) + ToLE(1, 4) + ToLE(entry, 8) + ToLE(EHDR_SIZE, 8)
    + ToLE(0, 8) + ToLE(0, 4) + ToLE(EHDR_SIZE, 2) + ToLE(PHDR_SIZE, 2) + ToLE(1, 2) + ToLE(0, 6)
  }

  function PackPhdr(ph: Phdr): (h: seq<byte>)
    ensures |h| == PHDR_SIZE
  {
    ToLE(ph.kind, 4) + ToLE(5, 4) + ToLE(ph.offset, 8) + ToLE(ph.vaddr, 8) + ToLE(ph.vaddr, 8) + ToLE(ph.filesz, 8)
    + ToLE(ph.memsz, 8) + ToLE(1, 8)
  }

  /** An executable of one segment: headers, then the segment's file bytes. */
  function OneSegment(entry: u64, s: Segment): seq<byte>
    requires |s.file| < TWO64
  {
    PackEhdr(entry) + PackPhdr(Phdr(1, 120, s.vaddr, |s.file|, s.memsz)) + s.file
  }

  lemma EhdrBack(entry: u64)
    ensures ReadEhdr(PackEhdr(entry)) == Ehdr(true, entry, EHDR_SIZE, PHDR_SIZE, 1)
  {
    hide ToLE, FromLE;
    var h := PackEhdr(entry);
    assert h[16..18] == ToLE(2, 2);
    assert h[18..20] == ToLE(0x3E, 2);
    assert h[24..32] == ToLE(entry, 8);
    assert h[32..40] == ToLE(EHDR_SIZE, 8);
    assert h[54..56] == ToLE(PHDR_SIZE, 2);
    assert h[56..58] == ToLE(1, 2);
    PackedField(2);
    PackedField(0x3E);
    PackedField(entry);
    PackedField(EHDR_SIZE);
    PackedField(PHDR_SIZE);
    PackedField(1);
  }

  lemma PhdrBack(ph: Phdr)
    ensures ReadPhdr(PackPhdr(ph)) == ph
    ensures var h := PackPhdr(ph);
            && h[0..4] == ToLE(ph.kind, 4) && h[8..16] == ToLE(ph.offset, 8) && h[16..24] == ToLE(ph.vaddr, 8)
            && h[32..40] == ToLE(ph.filesz, 8) && h[40..48] == ToLE(ph.memsz, 8)
  {
    hide ToLE, FromLE;
    var h := PackPhdr(ph);
    assert h[0..4] == ToLE(ph.kind, 4);
    assert h[8..16] == ToLE(ph.offset, 8);
    assert h[16..24] == ToLE(ph.vaddr, 8);
    assert h[32..40] == ToLE(ph.filesz, 8);
    assert h[40..48] == ToLE(ph.memsz, 8);
    PackedField(ph.kind);
    PackedField(ph.offset);
    PackedField(ph.vaddr);
    PackedField(ph.filesz);
    PackedField(ph.memsz);
  }

  lemma OneSegmentHeaders(entry: u64, s: Segment)
    requires s.vaddr < TWO64 && |s.file| < TWO64 && s.memsz < TWO64
    ensures var img := OneSegment(entry, s);
            && HeaderOf(img) == Ehdr(true, entry, EHDR_SIZE, PHDR_SIZE, 1)
            && PhdrOf(img, HeaderOf(img), 0) == Phdr(1, 120, s.vaddr, |s.file|, s.memsz)
            && img[120..] == s.file
  {
    hide ReadEhdr, ReadPhdr, PackEhdr, PackPhdr;
    var img, ph := OneSegment(entry, s), Phdr(1, 120, s.vaddr, |s.file|, s.memsz);
    assert img[..EHDR_SIZE] == PackEhdr(entry);
    assert img[EHDR_SIZE..EHDR_SIZE + PHDR_SIZE] == PackPhdr(ph);
    EhdrBack(entry);
    PhdrBack(ph);
  }

  /** The header of that segment. */
  function OneHeader(s: Segment): Phdr
    requires |s.file| < TWO64
  {
    Phdr(1, 120, s.vaddr, |s.file|, s.memsz)
  }

  /** The loader accepts such an image with its one header whenever its own checks pass, and reads it inside itself. */
  lemma OneSegmentLoads(entry: u64, s: Segment, lo: nat, hi: nat)
    requires |s.file| + 120 < TWO32 && lo <= s.vaddr && (s.vaddr + s.memsz) % TWO64 <= hi
    ensures var img := OneSegment(entry, s);
            && Plan(img, lo, hi) == (0, [OneHeader(s)]) && HeaderOf(img).entry == entry && |img| == 120 + |s.file|
            && TableInside(img) && FilesInside([OneHeader(s)], |img|) && Segments(img, [OneHeader(s)]) == [s]
  {
    hide ReadEhdr, ReadPhdr, PackEhdr, PackPhdr;
    var img := OneSegment(entry, s);
    OneSegmentHeaders(entry, s);
    var ph := OneHeader(s);
    assert img[120..120 + |s.file|] == img[120..];
    CutIs(ph.offset + ph.filesz);
    assert Scan(img, lo, hi, 1) == (0, []);
    assert Scan(img, lo, hi, 0) == (0, [ph] + []);
    assert [ph] + [] == [ph];
    assert Segments(img, [ph])[0] == SegmentOf(img, ph) == s;
  }

  /**
   The loader does not compare p_filesz with p_memsz: this accepted image, staged at base, has two
   file bytes for one byte of memory at the end of the default window, and the second one lands
   outside.
   */
  lemma FileBytesPastWindow(base: nat)
    requires base + 122 <= 0x1900_0000
    ensures var lo, hi, s := 0x1900_0000, 0x1940_0000, Segment(0x1940_0000 - 1, [1, 2], 1);
            && Plan(OneSegment(0, s), lo, hi) == (0, [OneHeader(s)]) && WellRead(OneSegment(0, s), base, lo, hi)
            && |OneSegment(0, s)| == 122 && !KeepsOutside(OneSegment(0, s), base, lo, hi, TWO32)
  {
    var s := Segment(0x1940_0000 - 1, [1, 2], 1);
    Spills(s, base);
  }

  /**
   Nor does it notice that p_vaddr + p_memsz wraps: this accepted image has no file bytes at all, and
   the zeros for its memory size run from the start of the window up to the top of the address space.
   */
  lemma ZerosPastWindow(base: nat)
    requires base + 122 <= 0x1900_0000
    ensures var lo, hi, s := 0x1900_0000, 0x1940_0000, Segment(0x1900_0000, [], TWO64 - 0x1900_0000);
            && Plan(OneSegment(0, s), lo, hi) == (0, [OneHeader(s)]) && WellRead(OneSegment(0, s), base, lo, hi)
            && |OneSegment(0, s)| == 120 && !KeepsOutside(OneSegment(0, s), base, lo, hi, TWO32)
  {
    var s := Segment(0x1900_0000, [], TWO64 - 0x1900_0000);
    Spills(s, base);
  }

  lemma Spills(s: Segment, base: nat)
    requires |s.file| <= 2 && base + 122 <= 0x1900_0000 <= s.vaddr && (s.vaddr + s.memsz) % TWO64 <= 0x1940_0000
    requires s.vaddr + Larger(|s.file|, s.memsz) <= TWO64 && !Spares(OneHeader(s), 0x1940_0000, TWO32)
    ensures var lo, hi, img := 0x1900_0000, 0x1940_0000, OneSegment(0, s);
            && Plan(img, lo, hi) == (0, [OneHeader(s)]) && WellRead(img, base, lo, hi)
            && |img| == 120 + |s.file| && !KeepsOutside(img, base, lo, hi, TWO32)
  {
    hide OneSegment, Plan, KeepsOutside, TableInside, Segments;
    var lo, hi, img := 0x1900_0000, 0x1940_0000, OneSegment(0, s);
    OneSegmentLoads(0, s, lo, hi);
    assert Misses(OneHeader(s), base, base + |img|);
    assert Plan(img, lo, hi).1[0] == OneHeader(s) && !AllSpare(Plan(img, lo, hi).1, hi, TWO32);
    KeepsOutsideIff(img, base, lo, hi, TWO32);
  }
}
