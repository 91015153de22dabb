/**
 The read-only file system over a USTAR archive: parsing arbitrary archive bytes into a file
 table, looking names up, and reading through handles.
 */
module Vfs {
  import opened Bytes

  const MAX_FILES: nat := 16
  const NAME_MAX: nat := 100
  const BLOCK: nat := 512
  const SLASH: byte := 0x2F
  const USTAR: seq<byte> := [0x75, 0x73, 0x74, 0x61, 0x72]

  // ---- Octal numbers --------------------------------------------------------

  predicate IsOctal(c: byte) { 0x30 <= c <= 0x37 }

  /** The number of leading octal digits. */
  function Digits(s: seq<byte>): (n: nat)
    ensures n <= |s|
  {
    if s == [] || !IsOctal(s[0]) then 0 else 1 + Digits(s[1..])
  }

  lemma {:induction false} DigitsAre(s: seq<byte>, n: nat)
    requires n <= |s| && (forall i | 0 <= i < n :: IsOctal(s[i])) && (n == |s| || !IsOctal(s[n]))
    ensures Digits(s) == n
    decreases n
  {
    if n > 0 { DigitsAre(s[1..], n - 1); }
  }

  function Numeral(ds: seq<byte>): nat
    requires forall i | 0 <= i < |ds| :: IsOctal(ds[i])
  {
    if ds == [] then 0
    else
      assert IsOctal(ds[|ds| - 1]);
      8 * Numeral(ds[..|ds| - 1]) + (ds[|ds| - 1] as int - 0x30)
  }

  lemma {:induction false} DigitsOctal(s: seq<byte>, i: nat)
    requires i < Digits(s)
    ensures IsOctal(s[i])
    decreases i
  {
    if i > 0 { DigitsOctal(s[1..], i - 1); }
  }

  /** The value of the leading octal digits. */
  function Octal(s: seq<byte>): nat
  {
    var ds := s[..Digits(s)];
    assert forall i | 0 <= i < |ds| :: IsOctal(ds[i]) by {
      forall i | 0 <= i < |ds| ensures IsOctal(ds[i]) { DigitsOctal(s, i); }
    }
    Numeral(ds)
  }

  method ParseOctal(s: seq<byte>) returns (v: nat)
    ensures v == Octal(s)
  {
    v := 0;
    var i := 0;
    while i < |s|
      invariant i <= |s| && forall j | 0 <= j < i :: IsOctal(s[j])
      invariant v == Numeral(s[..i])
    {
      var c := s[i];
      if c < 0x30 || c > 0x37 { break; }
      assert s[..i + 1][..i] == s[..i];
      v := 8 * v + (c - 0x30);
      i := i + 1;
    }
    DigitsAre(s, i);
  }

  /** The w-digit octal numeral of n, as archivers write it. */
  function OctalDigits(n: nat, w: nat): (ds: seq<byte>)
    ensures |ds| == w && forall i | 0 <= i < w :: IsOctal(ds[i])
  {
    if w == 0 then [] else OctalDigits(n / 8, w - 1) + [0x30 + n % 8]
  }

  function Pow8(w: nat): (p: nat) ensures p > 0 { if w == 0 then 1 else 8 * Pow8(w - 1) }

  lemma {:induction false} NumeralOfDigits(n: nat, w: nat)
    requires n < Pow8(w)
    ensures Numeral(OctalDigits(n, w)) == n
  {
    if w > 0 {
      NumeralOfDigits(n / 8, w - 1);
      assert OctalDigits(n, w)[..w - 1] == OctalDigits(n / 8, w - 1);
    }
  }

  /** The digit with j digits to its right counts eighths to the power j: the usual numeral, most significant digit first. */
  lemma {:induction false} DigitAt(n: nat, w: nat, j: nat)
    requires j < w
    ensures OctalDigits(n, w)[w - 1 - j] == 0x30 + n / Pow8(j) % 8
  {
    if j > 0 {
      DigitAt(n / 8, w - 1, j - 1);
      DivideTwice(n, Pow8(j - 1));
    }
  }

  lemma DivideTwice(n: nat, p: nat)
    requires p > 0
    ensures n / 8 / p == n / (8 * p)
  {
    var q, r := n / 8 / p, n / 8 % p;
    assert n / 8 == p * q + r;
    var s := 8 * r + n % 8;
    assert n == 8 * (p * q + r) + n % 8;
    Regroup(p, q);
    assert n == q * (8 * p) + s && 0 <= s < 8 * p;
    QuotientIs(n, 8 * p, q, s);
  }

  lemma Regroup(p: nat, q: nat)
    ensures 8 * (p * q) == q * (8 * p)
  {
  }

  lemma QuotientIs(n: nat, d: nat, q: nat, s: nat)
    requires d > 0 && n == q * d + s && s < d
    ensures n / d == q
  {
    var k: int := q as int - (n / d) as int;
    assert n == (n / d) * d + n % d;
    assert k * (d as int) == (n % d) as int - s as int;
    LargeMultiple(k, d);
  }

  lemma LargeMultiple(k: int, d: int)
    requires d > 0
    ensures k >= 1 ==> k * d >= d
    ensures k <= -1 ==> k * d <= -d
  {
    if k >= 1 { assert (k - 1) * d >= 0; }
    if k <= -1 { assert (-k - 1) * d >= 0; }
  }

  /** A field of digits followed by something else reads back as its number. */
  lemma OctalField(n: nat, w: nat, s: seq<byte>)
    requires n < Pow8(w) && w < |s| && s[..w] == OctalDigits(n, w) && !IsOctal(s[w])
    ensures Octal(s) == n
  {
    forall i | 0 <= i < w ensures IsOctal(s[i]) { assert s[i] == s[..w][i]; }
    DigitsAre(s, w);
    NumeralOfDigits(n, w);
  }

  // ---- Parsing --------------------------------------------------------------

  /** A table entry: its name, and where its data lie in the archive. */
  datatype File = File(name: seq<byte>, start: nat, size: nat)

  /** The characters before the first NUL. */
  function CName(field: seq<byte>): (s: seq<byte>)
    ensures NulFree(s) && |s| <= |field|
  {
    if field == [] || field[0] == 0 then [] else [field[0]] + CName(field[1..])
  }

  predicate ZeroBlock(a: seq<byte>, p: nat)
    requires p + BLOCK <= |a|
  {
    forall i | p <= i < p + BLOCK :: a[i] == 0
  }

  predicate HasMagic(a: seq<byte>, p: nat)
    requires p + BLOCK <= |a|
  {
    a[p + 257..p + 262] == USTAR
  }

  predicate IsRegular(a: seq<byte>, p: nat)
    requires p + BLOCK <= |a|
  {
    a[p + 156] == 0x30 || a[p + 156] == 0
  }

  /** The size field, truncated to 32 bits. */
  function SizeField(a: seq<byte>, p: nat): (sz: nat)
    requires p + BLOCK <= |a|
    ensures sz < TWO32
  {
    Octal(a[p + 124..p + 136]) % TWO32
  }

  function EntryAt(a: seq<byte>, p: nat): File
    requires p + BLOCK <= |a|
  {
    var sz := SizeField(a, p);
    File([SLASH] + CName(a[p..p + 99]), p + BLOCK, if p + BLOCK + sz > |a| then |a| - (p + BLOCK) else sz)
  }

  function Round512(n: nat): nat { (n + 511) / 512 * 512 }

  /** Header and padded data, in 32-bit arithmetic. */
  function Advance(sz: nat): nat
  {
    (512 + (sz + 511) % TWO32 / 512 * 512) % TWO32
  }

  /** The advance is the true distance to the next header unless the sum wraps. */
  lemma AdvanceWraps(sz: nat)
    requires sz < TWO32
    ensures Advance(sz) == 512 + Round512(sz) <==> 512 + Round512(sz) < TWO32
    ensures Advance(sz) == 0 <==> TWO32 - 1023 <= sz <= TWO32 - 512
    ensures Advance(sz) == 0 || Advance(sz) >= 512
  {
    assert TWO32 == 512 * 0x80_0000;
    if sz + 511 < TWO32 {
      assert (sz + 511) % TWO32 == sz + 511;
    } else {
      assert (sz + 511) % TWO32 == sz + 511 - TWO32;
    }
  }

  function Remaining(a: seq<byte>, p: nat): nat { if p <= |a| then |a| - p else 0 }

  /** The parse from position p on: the return value, and the table. */
  function Parse(a: seq<byte>, p: nat, files: seq<File>): (int, seq<File>)
    decreases Remaining(a, p)
  {
    if p + BLOCK > |a| || ZeroBlock(a, p) then (|files|, files)
    else if !HasMagic(a, p) then (if |files| == 0 then -2 else |files|, files)
    else if IsRegular(a, p) && |files| >= MAX_FILES then (-3, files)
    else
      var files' := if IsRegular(a, p) then files + [EntryAt(a, p)] else files;
      var adv := Advance(SizeField(a, p));
      if adv == 0 then (|files'|, files') else Parse(a, p + adv, files')
  }

  /**
   What a table entry holds, by the bytes of its header: a slash and up to 99 characters of the name
   field, the data behind the header, and the size field cut to 32 bits and to the end of the archive.
   */
  lemma EntryFields(a: seq<byte>, p: nat, k: nat)
    requires p + 512 <= |a| && k <= 99 && (forall i | p <= i < p + k :: a[i] != 0) && (k == 99 || a[p + k] == 0)
    ensures var f, size := EntryAt(a, p), Octal(a[p + 124..p + 136]) % 0x1_0000_0000;
            && f.name == [0x2F] + a[p..p + k] && f.start == p + 512
            && f.size == (if p + 512 + size <= |a| then size else |a| - p - 512)
  {
    CNameIs(a[p..p + 99], k);
    SliceOfSlice(a, p, p + 99, 0, k);
    assert a[p..p + 99][..k] == a[p..p + 99][0..k];
  }

  lemma {:induction false} CNameIs(field: seq<byte>, k: nat)
    requires k <= |field| && (forall i | 0 <= i < k :: field[i] != 0) && (k == |field| || field[k] == 0)
    ensures CName(field) == field[..k]
    decreases k
  {
    if k > 0 {
      CNameIs(field[1..], k - 1);
      assert field[..k] == [field[0]] + field[1..][..k - 1];
    }
  }

  /** Where the parse stops: at the end, at a zero block, and at a block without the letters ustar, -2 if it is the first. */
  lemma ParseStops(a: seq<byte>, p: nat, files: seq<File>)
    ensures |a| < p + 512 || (forall i | p <= i < p + 512 :: a[i] == 0) ==> Parse(a, p, files) == (|files|, files)
    ensures p + 512 <= |a| && (exists i :: p <= i < p + 512 && a[i] != 0)
            && a[p + 257..p + 262] != ['u' as int, 's' as int, 't' as int, 'a' as int, 'r' as int] ==>
              Parse(a, p, files) == (if files == [] then -2 else |files|, files)
  {
    hide EntryAt, SizeField, Advance;
  }

  /** The entry's name fits its field with a terminator, and its data lie in the archive. */
  predicate SafeFile(a: seq<byte>, f: File)
  {
    1 <= |f.name| <= NAME_MAX && f.name[0] == SLASH && NulFree(f.name) && f.start + f.size <= |a|
  }

  predicate SafeTable(a: seq<byte>, files: seq<File>)
  {
    |files| <= MAX_FILES && forall i | 0 <= i < |files| :: SafeFile(a, files[i])
  }

  /** Whatever the bytes, the table stays within bounds and points into the archive. */
  lemma {:induction false} ParseSafe(a: seq<byte>, p: nat, files: seq<File>)
    requires SafeTable(a, files)
    ensures var (r, files') := Parse(a, p, files);
            SafeTable(a, files') && files <= files' && (r == |files'| || (r == -2 && files' == []) || (r == -3 && |files'| == MAX_FILES))
    decreases Remaining(a, p)
  {
    hide SizeField, Advance, CName, SafeFile, HasMagic, ZeroBlock, EntryAt;
    if p + BLOCK <= |a| && !ZeroBlock(a, p) && HasMagic(a, p) && !(IsRegular(a, p) && |files| >= MAX_FILES) {
      var files' := if IsRegular(a, p) then files + [EntryAt(a, p)] else files;
      EntrySafe(a, p);
      if Advance(SizeField(a, p)) != 0 { ParseSafe(a, p + Advance(SizeField(a, p)), files'); }
    }
  }

  lemma EntrySafe(a: seq<byte>, p: nat)
    requires p + BLOCK <= |a|
    ensures SafeFile(a, EntryAt(a, p))
  {
  }

  // ---- The file system ------------------------------------------------------

  /** An open file: descriptor (negative when closed) and position. */
  class Handle {
    var fd: int
    var pos: nat

    constructor ()
      ensures fd == -1 && pos == 0
    {
      fd := -1;
      pos := 0;
    }
  }

  /** Character k of a NUL-terminated string. */
  function CharAt(s: seq<byte>, k: nat): byte { if k < |s| then s[k] else 0 }

  method SameText(a: seq<byte>, b: seq<byte>) returns (match': bool)
    requires NulFree(a) && NulFree(b)
    ensures match' <==> a == b
  {
    var k := 0;
    while CharAt(a, k) != 0 || CharAt(b, k) != 0
      invariant k <= |a| && k <= |b| && a[..k] == b[..k]
      decreases |a| - k
    {
      if CharAt(a, k) != CharAt(b, k) { return false; }
      k := k + 1;
    }
    return true;
  }

  /** The index of the first file of that name, or -1. */
  function IndexOf(files: seq<File>, name: seq<byte>): (idx: int)
    ensures -1 <= idx < |files|
    ensures idx >= 0 ==> files[idx].name == name
    ensures forall j | 0 <= j < (if idx < 0 then |files| else idx) :: files[j].name != name
  {
    if files == [] then -1
    else
      var pre := files[..|files| - 1];
      var idx := IndexOf(pre, name);
      assert forall j | 0 <= j < |pre| :: files[j] == pre[j];
      if idx >= 0 then idx else if files[|files| - 1].name == name then |files| - 1 else -1
  }

  /** What one read call delivers, and the position after it. */
  function ReadOnce(data: seq<byte>, pos: nat, len: nat): (r: (seq<byte>, nat))
  {
    if pos >= |data| then ([], pos)
    else
      var n := if len > |data| - pos then |data| - pos else len;
      (data[pos..pos + n], pos + n)
  }

  /** A byte count as the 32-bit signed return value. */
  function ToInt32(n: nat): int
    requires n < TWO32
  {
    if n < 0x8000_0000 then n else n - TWO32
  }

  class FileSystem {
    var archive: seq<byte>
    var files: seq<File>

    ghost predicate Valid()
      reads this
    {
      |archive| < TWO32 && SafeTable(archive, files)
    }

    constructor ()
      ensures Valid() && files == []
    {
      archive := [];
      files := [];
    }

    function Data(i: nat): seq<byte>
      requires Valid() && i < |files|
      reads this
    {
      archive[files[i].start..files[i].start + files[i].size]
    }

    method FillEntry(a: seq<byte>, p: nat) returns (f: File)
      requires p + BLOCK <= |a|
      ensures f == EntryAt(a, p)
    {
      var name: seq<byte> := [SLASH];
      var ni := 1;
      ghost var field := a[p..p + 99];
      while ni < NAME_MAX && a[p + ni - 1] != 0
        invariant 1 <= ni <= NAME_MAX && |name| == ni
        invariant [SLASH] + CName(field) == name + CName(field[ni - 1..])
      {
        assert field[ni - 1..][1..] == field[ni..];
        name := name + [a[p + ni - 1]];
        ni := ni + 1;
      }
      assert CName(field[ni - 1..]) == [];
      assert name + [] == name;
      var v := ParseOctal(a[p + 124..p + 136]);
      var size := v % TWO32;
      if p + BLOCK + size > |a| { size := |a| - (p + BLOCK); }
      f := File(name, p + BLOCK, size);
    }

    method IsZero(a: seq<byte>, p: nat) returns (zero: bool)
      requires p + BLOCK <= |a|
      ensures zero == ZeroBlock(a, p)
    {
      for i := 0 to BLOCK
        invariant forall j | p <= j < p + i :: a[j] == 0
      {
        if a[p + i] != 0 { return false; }
      }
      return true;
    }

    /** Parses an archive into the table; None stands for the null pointer. */
    method Init(a: Option<seq<byte>>) returns (r: int)
      requires Valid() && (a.Some? ==> |a.value| < TWO32)
      modifies this
      ensures Valid()
      ensures a == None || |a.value| < BLOCK ==> r == -1 && files == old(files) && archive == old(archive)
      ensures a.Some? && |a.value| >= BLOCK ==> archive == a.value && (r, files) == Parse(a.value, 0, [])
    {
      hide ZeroBlock, HasMagic, IsRegular, EntryAt, SizeField, Advance, SafeTable;
      if a == None || |a.value| < BLOCK { return -1; }
      archive := a.value;
      files := [];
      var p: nat := 0;
      EmptySafe(archive);
      ParseSafe(archive, 0, []);
      while p + BLOCK <= |archive|
        invariant archive == a.value && Parse(archive, 0, []) == Parse(archive, p, files)
        decreases Remaining(archive, p)
      {
        var zero := IsZero(archive, p);
        if zero { break; }
        if archive[p + 257..p + 262] != USTAR {
          assert !HasMagic(archive, p) by { MagicIs(archive, p); }
          return if |files| == 0 then -2 else |files|;
        }
        assert HasMagic(archive, p) by { MagicIs(archive, p); }
        RegularIs(archive, p);
        if archive[p + 156] == 0x30 || archive[p + 156] == 0 {
          if |files| >= MAX_FILES { return -3; }
          var f := FillEntry(archive, p);
          files := files + [f];
        }
        var v := ParseOctal(archive[p + 124..p + 136]);
        var sz := v % TWO32;
        SizeIs(archive, p);
        var adv := Advance(sz);
        AdvanceWraps(sz);
        if adv == 0 { break; }
        p := p + adv;
      }
      r := |files|;
    }

    method Lookup(name: seq<byte>) returns (idx: int)
      requires Valid() && NulFree(name)
      ensures idx == IndexOf(files, name)
    {
      for i := 0 to |files|
        invariant IndexOf(files[..i], name) == -1
      {
        var match' := SameText(files[i].name, name);
        assert files[..i + 1][..i] == files[..i];
        if match' {
          FirstIndex(files, name, i);
          return i;
        }
      }
      assert files[..|files|] == files;
      return -1;
    }

    /** Opens a file of the table, or leaves the handle alone. */
    method Open(name: seq<byte>, h: Handle) returns (r: int)
      requires Valid() && NulFree(name)
      modifies h
      ensures var idx := IndexOf(files, name);
              if idx < 0 then r == -1 && h.fd == old(h.fd) && h.pos == old(h.pos)
              else r == 0 && h.fd == idx && h.pos == 0
    {
      var idx := Lookup(name);
      if idx < 0 { return -1; }
      h.fd := idx;
      h.pos := 0;
      return 0;
    }

    static method CopyOut(src: seq<byte>, dst: array<byte>, at: nat, n: nat)
      requires n <= |src| && at + n <= dst.Length
      modifies dst
      ensures dst[..] == Put(old(dst[..]), at, src[..n])
    {
      ghost var before := dst[..];
      for i := 0 to n
        invariant forall j {:trigger src[j]} | 0 <= j < i :: dst[at + j] == src[j]
        invariant forall j | 0 <= j < dst.Length && !(at <= j < at + i) :: dst[j] == before[j]
      {
        dst[at + i] := src[i];
      }
      forall j | at <= j < at + n ensures dst[j] == src[j - at] {
        assert dst[at + (j - at)] == src[j - at];
      }
      assert dst[..] == Put(before, at, src[..n]);
    }

    /** Reads at most len bytes into memory at address at. */
    method Read(h: Handle, buf: array<byte>, at: nat, len: nat) returns (r: int)
      requires Valid() && len < TWO32 && at + len <= buf.Length
      modifies h`pos, buf
      ensures !(0 <= h.fd < |files|) ==> r == -1 && h.pos == old(h.pos) && buf[..] == old(buf[..])
      ensures 0 <= h.fd < |files| ==>
                var (bytes, pos) := ReadOnce(Data(h.fd), old(h.pos), len);
                && h.pos == pos && |bytes| <= len && r == ToInt32(|bytes|)
                && r == (if |bytes| < 0x8000_0000 then |bytes| else |bytes| - 0x1_0000_0000)
                && buf[..] == Put(old(buf[..]), at, bytes)
    {
      hide SafeFile, Put;
      if h.fd < 0 || h.fd >= |files| { return -1; }
      DataInside(archive, files, h.fd);
      ghost var before := buf[..];
      var f := files[h.fd];
      if h.pos >= f.size {
        PutNothing(before, at);
        return 0;
      }
      var avail := f.size - h.pos;
      var n := if len > avail then avail else len;
      CopyOut(archive[f.start + h.pos..], buf, at, n);
      WithinFile(archive, f.start, f.size, h.pos, n);
      h.pos := h.pos + n;
      return ToInt32(n);
    }

    method Close(h: Handle) returns (r: int)
      modifies h
      ensures r == 0 && h.fd == -1 && h.pos == 0
    {
      h.fd := -1;
      h.pos := 0;
      return 0;
    }
  }

  lemma WithinFile(a: seq<byte>, start: nat, size: nat, pos: nat, n: nat)
    requires start + size <= |a| && pos + n <= size
    ensures a[start + pos..][..n] == a[start..start + size][pos..pos + n]
  {
    var s, t := a[start + pos..][..n], a[start..start + size][pos..pos + n];
    forall i | 0 <= i < n ensures s[i] == t[i] {
      assert a[start..start + size][pos + i] == a[start + pos + i];
    }
  }

  lemma DataInside(a: seq<byte>, files: seq<File>, i: nat)
    requires SafeTable(a, files) && i < |files|
    ensures files[i].start + files[i].size <= |a|
  {
  }

  lemma PutNothing(m: seq<byte>, at: nat)
    requires at <= |m|
    ensures Put(m, at, []) == m
  {
  }

  lemma EmptySafe(a: seq<byte>) ensures SafeTable(a, []) { }

  lemma MagicIs(a: seq<byte>, p: nat)
    requires p + BLOCK <= |a|
    ensures HasMagic(a, p) == (a[p + 257..p + 262] == USTAR)
  {
  }

  lemma RegularIs(a: seq<byte>, p: nat)
    requires p + BLOCK <= |a|
    ensures IsRegular(a, p) == (a[p + 156] == 0x30 || a[p + 156] == 0)
  {
  }

  lemma SizeIs(a: seq<byte>, p: nat)
    requires p + BLOCK <= |a|
    ensures SizeField(a, p) == Octal(a[p + 124..p + 136]) % TWO32
  {
  }

  lemma {:induction false} FirstIndex(files: seq<File>, name: seq<byte>, i: nat)
    requires i < |files| && IndexOf(files[..i], name) == -1 && files[i].name == name
    ensures IndexOf(files, name) == i
  {
    assert forall j | 0 <= j < i :: files[j] == files[..i][j];
  }

  /** Calls of read with the given lengths, one after the other: all they deliver, and the final position. */
  function ReadAll(data: seq<byte>, pos: nat, lens: seq<nat>): (seq<byte>, nat)
  {
    if lens == [] then ([], pos)
    else
      var pre := ReadAll(data, pos, lens[..|lens| - 1]);
      var last := ReadOnce(data, pre.1, lens[|lens| - 1]);
      (pre.0 + last.0, last.1)
  }

  function Sum(lens: seq<nat>): nat { if lens == [] then 0 else Sum(lens[..|lens| - 1]) + lens[|lens| - 1] }

  /** Successive reads deliver the file's bytes in order: exactly the asked-for total, cut at the end. */
  lemma {:induction false} ReadsConcatenate(data: seq<byte>, lens: seq<nat>)
    ensures var total := if Sum(lens) > |data| then |data| else Sum(lens);
            ReadAll(data, 0, lens) == (data[..total], total)
  {
    if lens != [] {
      ReadsConcatenate(data, lens[..|lens| - 1]);
      var pre, n := ReadAll(data, 0, lens[..|lens| - 1]).1, lens[|lens| - 1];
      var end := if n > |data| - pre then |data| else pre + n;
      assert data[..pre] + data[pre..end] == data[..end];
      assert data[..|data|] + [] == data[..|data|];
    }
  }
}
