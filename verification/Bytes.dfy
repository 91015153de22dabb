/** Machine integers, little-endian encodings and byte-addressed memory images. */
module Bytes {

  type byte = x: int | 0 <= x < 0x100
  type u16 = x: int | 0 <= x < 0x1_0000
  type u32 = x: int | 0 <= x < 0x1_0000_0000
  type u64 = x: int | 0 <= x < 0x1_0000_0000_0000_0000

  const TWO32: nat := 0x1_0000_0000
  const TWO64: nat := 0x1_0000_0000_0000_0000

  datatype Option<+T> = None | Some(value: T)

  // ---- Little-endian numbers ------------------------------------------------

  function Pow256(n: nat): (p: nat)
    ensures p > 0
  {
    if n == 0 then 1 else 256 * Pow256(n - 1)
  }

  function ToLE(v: nat, n: nat): (s: seq<byte>)
    ensures |s| == n
  {
    if n == 0 then [] else [v % 256] + ToLE(v / 256, n - 1)
  }

  function FromLE(s: seq<byte>): (v: nat)
  {
    if s == [] then 0 else s[0] + 256 * FromLE(s[1..])
  }

  lemma {:induction false} FromToLE(v: nat, n: nat)
    requires v < Pow256(n)
    ensures FromLE(ToLE(v, n)) == v
  {
    if n > 0 {
      FromToLE(v / 256, n - 1);
      assert ToLE(v, n)[1..] == ToLE(v / 256, n - 1);
    }
  }

  lemma {:induction false} FromLEBound(s: seq<byte>)
    ensures FromLE(s) < Pow256(|s|)
  {
    if s != [] {
      FromLEBound(s[1..]);
    }
  }

  lemma Pow256Values()
    ensures Pow256(2) == 0x1_0000
    ensures Pow256(4) == TWO32
    ensures Pow256(8) == TWO64
  {
    assert Pow256(2) == 256 * 256;
    assert Pow256(3) == 256 * Pow256(2);
    assert Pow256(4) == 256 * Pow256(3);
    assert Pow256(5) == 256 * Pow256(4);
    assert Pow256(6) == 256 * Pow256(5);
    assert Pow256(7) == 256 * Pow256(6);
    assert Pow256(8) == 256 * Pow256(7);
  }

  /** A field of 2, 4 or 8 bytes holds what was packed into it. */
  lemma PackedField(v: nat)
    ensures v < 0x1_0000 ==> FromLE(ToLE(v, 2)) == v
    ensures v < TWO32 ==> FromLE(ToLE(v, 4)) == v
    ensures v < TWO64 ==> FromLE(ToLE(v, 8)) == v
  {
    Pow256Values();
    if v < 0x1_0000 { FromToLE(v, 2); }
    if v < TWO32 { FromToLE(v, 4); }
    if v < TWO64 { FromToLE(v, 8); }
  }

  function Get16(m: seq<byte>, a: nat): (v: nat)
    requires a + 2 <= |m|
    ensures v < 0x1_0000
  {
    Pow256Values(); FromLEBound(m[a..a + 2]);
    FromLE(m[a..a + 2])
  }

  function Get32(m: seq<byte>, a: nat): (v: nat)
    requires a + 4 <= |m|
    ensures v < TWO32
  {
    Pow256Values(); FromLEBound(m[a..a + 4]);
    FromLE(m[a..a + 4])
  }

  function Get64(m: seq<byte>, a: nat): (v: nat)
    requires a + 8 <= |m|
    ensures v < TWO64
  {
    Pow256Values(); FromLEBound(m[a..a + 8]);
    FromLE(m[a..a + 8])
  }

  /** The bytes of a number, lowest first. */
  lemma FieldBytes(m: seq<byte>, a: nat)
    ensures a + 2 <= |m| ==> Get16(m, a) == m[a] as int + 0x100 * m[a + 1] as int
    ensures a + 4 <= |m| ==> Get32(m, a) == m[a] as int + 0x100 * m[a + 1] as int + 0x1_0000 * m[a + 2] as int + 0x100_0000 * m[a + 3] as int
  {
    if a + 2 <= |m| { TwoBytes(m[a..a + 2]); }
    if a + 4 <= |m| {
      var s := m[a..a + 4];
      TwoBytes(s[2..]);
      assert s[1..][1..] == s[2..];
      assert FromLE(s[1..]) == s[1] + 256 * FromLE(s[2..]);
    }
  }

  lemma TwoBytes(s: seq<byte>)
    requires |s| == 2
    ensures FromLE(s) == s[0] as int + 0x100 * s[1] as int
  {
    assert s[1..][1..] == [];
    assert FromLE(s[1..]) == s[1];
  }

  // ---- Slices of concatenations ---------------------------------------------

  lemma SliceOfFirst(a: seq<byte>, b: seq<byte>, lo: nat, hi: nat)
    requires lo <= hi <= |a|
    ensures (a + b)[lo..hi] == a[lo..hi]
  {
  }

  lemma SliceOfSecond(a: seq<byte>, b: seq<byte>, lo: nat, hi: nat)
    requires lo <= hi <= |b|
    ensures (a + b)[|a| + lo..|a| + hi] == b[lo..hi]
  {
  }

  lemma SliceOfSlice(s: seq<byte>, p: nat, q: nat, lo: nat, hi: nat)
    requires p <= q <= |s| && lo <= hi <= q - p
    ensures s[p..q][lo..hi] == s[p + lo..p + hi]
  {
    var a, b := s[p..q][lo..hi], s[p + lo..p + hi];
    forall k | 0 <= k < hi - lo ensures a[k] == b[k] {
      assert a[k] == s[p..q][lo + k];
    }
  }

  function Zeros(n: nat): (s: seq<byte>)
    ensures |s| == n
  {
    seq(n, _ => 0 as byte)
  }

  // ---- Memory images --------------------------------------------------------

  /** Memory m with the bytes s stored from address a on. */
  function Put(m: seq<byte>, a: nat, s: seq<byte>): (r: seq<byte>)
    requires a + |s| <= |m|
    ensures |r| == |m|
    ensures r[a..a + |s|] == s
    ensures SameOutside(m, r, a, a + |s|)
  {
    m[..a] + s + m[a + |s|..]
  }

  ghost predicate SameOutside(m: seq<byte>, r: seq<byte>, lo: int, hi: int)
  {
    |r| == |m| && forall a {:trigger r[a]} {:trigger m[a]} :: 0 <= a < |m| && !(lo <= a < hi) ==> r[a] == m[a]
  }

  lemma Get64Frame(m: seq<byte>, r: seq<byte>, lo: int, hi: int, a: nat)
    requires SameOutside(m, r, lo, hi)
    requires a + 8 <= |m| && (a + 8 <= lo || hi <= a)
    ensures Get64(r, a) == Get64(m, a)
  {
    assert r[a..a + 8] == m[a..a + 8];
  }

  lemma Get64Put(m: seq<byte>, a: nat, v: u64)
    requires a + 8 <= |m|
    ensures Get64(Put(m, a, ToLE(v, 8)), a) == v
  {
    PackedField(v);
  }

  // ---- C strings ------------------------------------------------------------

  predicate NulFree(s: seq<byte>) { forall i | 0 <= i < |s| :: s[i] != 0 }

  /** The C string at position p of the buffer. */
  predicate IsCString(buf: seq<byte>, p: nat, s: seq<byte>)
  {
    p + |s| < |buf| && buf[p + |s|] == 0 && forall i | 0 <= i < |s| :: s[i] != 0 && buf[p + i] == s[i]
  }

  ghost predicate IsNul(buf: seq<byte>, i: nat) { i < |buf| && buf[i] == 0 }

  /** Some NUL follows position p inside the buffer. */
  ghost predicate Terminated(buf: seq<byte>, p: nat)
  {
    exists z: nat :: p <= z && IsNul(buf, z)
  }

  lemma CStringStops(buf: seq<byte>, p: nat, s: seq<byte>, z: nat)
    requires IsCString(buf, p, s) && p <= z && IsNul(buf, z)
    ensures |s| <= z - p
  {
    var i := 0;
    while i < |s|
      invariant i <= |s| && p + i <= z
    {
      assert buf[p + i] == s[i];
      i := i + 1;
    }
  }

  lemma CStringUnique(buf: seq<byte>, p: nat, s: seq<byte>, t: seq<byte>)
    requires IsCString(buf, p, s) && IsCString(buf, p, t)
    ensures s == t
  {
    CStringStops(buf, p, s, p + |t|);
    CStringStops(buf, p, t, p + |s|);
    forall i | 0 <= i < |s| ensures s[i] == t[i] { }
  }

  lemma CStringFrame(m: seq<byte>, r: seq<byte>, lo: int, hi: int, p: nat, s: seq<byte>)
    requires SameOutside(m, r, lo, hi) && IsCString(m, p, s) && (p + |s| < lo || hi <= p)
    ensures IsCString(r, p, s)
  {
    forall i | 0 <= i < |s| ensures r[p + i] == s[i] {
      assert m[p + i] == s[i];
    }
  }

  /** Writes the bytes s into memory from address a on. */
  method Poke(ram: array<byte>, a: nat, s: seq<byte>)
    requires a + |s| <= ram.Length
    modifies ram
    ensures ram[..] == Put(old(ram[..]), a, s)
  {
    ghost var m := ram[..];
    for k := 0 to |s|
      invariant forall j :: 0 <= j < k ==> ram[a + j] == s[j]
      invariant forall j :: 0 <= j < ram.Length && !(a <= j < a + k) ==> ram[j] == m[j]
    {
      ram[a + k] := s[k];
    }
    assert forall j :: a <= j < a + |s| ==> ram[j] == s[j - a] by {
      forall j | a <= j < a + |s| ensures ram[j] == s[j - a] {
        assert ram[a + (j - a)] == s[j - a];
      }
    }
    assert ram[..] == Put(m, a, s);
  }
}
