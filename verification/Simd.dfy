/**
 INT8 dot products and matrix multiplication: the scalar loop, the biased SSE4.2 and AVX2 loops
 lane by lane with their 16-bit saturation and 32-bit wrap-around, and when they agree.
 */
module Simd {

  type int8 = x: int | -128 <= x < 128
  type int32 = x: int | -0x8000_0000 <= x < 0x8000_0000

  // ---- Machine arithmetic ---------------------------------------------------

  /** Wrap-around to 32 bits. */
  function W32(x: int): (r: int32)
    ensures (r - x) % 0x1_0000_0000 == 0
  {
    (x + 0x8000_0000) % 0x1_0000_0000 - 0x8000_0000
  }

  /** Saturation to 16 bits. */
  function Sat16(x: int): int
  {
    if x > 32767 then 32767 else if x < -32768 then -32768 else x
  }

  /** The unsigned byte that a biased signed byte becomes in the vector register. */
  function Biased(x: int8): int
  {
    (x % 256 + 128) % 256
  }

  lemma BiasIsShift(x: int8)
    ensures Biased(x) == x + 128
  {
  }

  lemma WrapEqual(x: int, y: int)
    requires (x - y) % 0x1_0000_0000 == 0
    ensures W32(x) == W32(y)
  {
  }

  lemma WrapAdd(x: int, y: int)
    ensures W32(W32(x) + y) == W32(x + y)
  {
    var k := (W32(x) - x) / 0x1_0000_0000;
    assert W32(x) == x + 0x1_0000_0000 * k;
    WrapEqual(W32(x) + y, x + y);
  }

  lemma WrapSmall(x: int)
    requires -0x8000_0000 <= x < 0x8000_0000
    ensures W32(x) == x
  {
  }

  // ---- The mathematical dot product -----------------------------------------

  function Times(x: int, y: int): int { x * y }

  function Dot(a: seq<int8>, b: seq<int8>): int
    requires |a| == |b|
  {
    if a == [] then 0 else Dot(a[..|a| - 1], b[..|b| - 1]) + Times(a[|a| - 1], b[|b| - 1])
  }

  function Sum(b: seq<int8>): int
  {
    if b == [] then 0 else Sum(b[..|b| - 1]) + b[|b| - 1]
  }

  lemma {:induction false} DotConcat(a: seq<int8>, b: seq<int8>, c: seq<int8>, d: seq<int8>)
    requires |a| == |b| && |c| == |d|
    ensures Dot(a + c, b + d) == Dot(a, b) + Dot(c, d)
  {
    if c == [] {
      assert a + c == a && b + d == b;
    } else {
      assert (a + c)[..|a + c| - 1] == a + c[..|c| - 1];
      assert (b + d)[..|b + d| - 1] == b + d[..|d| - 1];
      DotConcat(a, b, c[..|c| - 1], d[..|d| - 1]);
    }
  }

  predicate Within(b: seq<int8>, bound: int)
  {
    forall i | 0 <= i < |b| :: -bound <= b[i] <= bound
  }

  lemma {:induction false} DotBound(a: seq<int8>, b: seq<int8>, bound: int)
    requires |a| == |b| && Within(b, bound) && bound >= 0
    ensures -Times(128 * bound, |a|) <= Dot(a, b) <= Times(128 * bound, |a|)
  {
    hide Times;
    OneMore(128 * bound, |a|);
    if a != [] {
      var n := |a| - 1;
      DotBound(a[..n], b[..n], bound);
      ProductBound(a[n], b[n], bound);
    }
  }

  lemma OneMore(x: int, n: nat)
    ensures Times(x, n) == if n == 0 then 0 else Times(x, n - 1) + x
  {
  }

  lemma ProductBound(x: int, y: int, bound: int)
    requires -128 <= x <= 128 && -bound <= y <= bound
    ensures -128 * bound <= Times(x, y) <= 128 * bound
  {
    if x >= 0 {
      Scale(x, y, bound);
      Scale(x, -bound, y);
      Scale(bound, x, 128);
    } else {
      Scale(-x, y, bound);
      Scale(-x, -bound, y);
      Scale(bound, -x, 128);
    }
  }

  lemma Scale(k: int, y: int, z: int)
    requires k >= 0 && y <= z
    ensures k * y <= k * z
  {
  }

  // ---- Scalar path ----------------------------------------------------------

  method DotScalar(a: seq<int8>, b: seq<int8>, n: nat) returns (acc: int32)
    requires |a| >= n && |b| >= n
    ensures acc == W32(Dot(a[..n], b[..n]))
  {
    acc := 0;
    var i := 0;
    while i < n
      invariant 0 <= i <= n && acc == W32(Dot(a[..i], b[..i]))
    {
      WrapAdd(Dot(a[..i], b[..i]), Times(a[i], b[i]));
      assert a[..i + 1][..i] == a[..i] && b[..i + 1][..i] == b[..i];
      acc := W32(acc + Times(a[i], b[i]));
      i := i + 1;
    }
  }

  // ---- Vector instructions --------------------------------------------------

  type Lanes = seq<int>

  /** PMADDUBSW: unsigned times signed bytes, adjacent pairs added with saturation. */
  function Maddubs(u: seq<int>, b: seq<int8>): (r: Lanes)
    requires |u| == |b| && |u| % 2 == 0
    ensures |r| == |u| / 2
  {
    seq(|u| / 2, k requires 0 <= k < |u| / 2 => Sat16(Times(u[2 * k], b[2 * k]) + Times(u[2 * k + 1], b[2 * k + 1])))
  }

  /** PMADDWD against a vector of ones: adjacent 16-bit lanes added. */
  function MaddOnes(p: Lanes): (r: Lanes)
    requires |p| % 2 == 0
    ensures |r| == |p| / 2
  {
    seq(|p| / 2, k requires 0 <= k < |p| / 2 => p[2 * k] * 1 + p[2 * k + 1] * 1)
  }

  /** PADDD: 32-bit lanes with wrap-around. */
  function AddLanes(x: Lanes, y: Lanes): (r: Lanes)
    requires |x| == |y|
    ensures |r| == |x|
  {
    seq(|x|, k requires 0 <= k < |x| => W32(x[k] + y[k]))
  }

  function Bias(a: seq<int8>): (u: seq<int>)
    ensures |u| == |a|
  {
    seq(|a|, k requires 0 <= k < |a| => Biased(a[k]))
  }

  /** What one block of 4 * lanes elements adds to the accumulator. */
  function Block(a: seq<int8>, b: seq<int8>): (r: Lanes)
    requires |a| == |b| && |a| % 4 == 0
    ensures |r| == |a| / 4
  {
    MaddOnes(Maddubs(Bias(a), b))
  }

  function LaneSum(x: Lanes): int
  {
    if x == [] then 0 else LaneSum(x[..|x| - 1]) + x[|x| - 1]
  }

  /** One horizontal reduction of four lanes by two shuffles. */
  method Reduce4(acc: Lanes) returns (r: int32)
    requires |acc| == 4
    ensures r == W32(LaneSum(acc))
  {
    var shuf := [acc[2], acc[3], acc[0], acc[1]];
    var sum2 := AddLanes(acc, shuf);
    var shuf2 := [sum2[1], sum2[0], sum2[3], sum2[2]];
    var sum1 := AddLanes(sum2, shuf2);
    r := sum1[0];
    LaneSum4(acc);
    WrapAdd(acc[0] + acc[2], W32(acc[1] + acc[3]));
    WrapAdd(acc[1] + acc[3], acc[0] + acc[2]);
  }

  lemma LaneSum4(x: Lanes)
    requires |x| == 4
    ensures LaneSum(x) == x[0] + x[1] + x[2] + x[3]
  {
    assert x[..3][..2] == x[..2] && x[..2][..1] == x[..1] && x[..1][..0] == [];
    assert LaneSum(x[..1]) == x[0];
    assert LaneSum(x[..2]) == LaneSum(x[..1]) + x[1];
    assert LaneSum(x[..3]) == LaneSum(x[..2]) + x[2];
  }

  // ---- Clamping error -------------------------------------------------------

  /** The pair sum before saturation, and what saturation does to it. */
  function PairSum(a0: int, a1: int, b0: int, b1: int): int { Times(a0 + 128, b0) + Times(a1 + 128, b1) }

  function PairError(a0: int, a1: int, b0: int, b1: int): int
  {
    Sat16(PairSum(a0, a1, b0, b1)) - PairSum(a0, a1, b0, b1)
  }

  /** The clamping errors of all adjacent pairs, added up. */
  function ErrorSum(a: seq<int8>, b: seq<int8>): int
    requires |a| == |b| && |a| % 2 == 0
  {
    if a == [] then 0
    else
      var n := |a| - 2;
      ErrorSum(a[..n], b[..n]) + PairError(a[n], a[n + 1], b[n], b[n + 1])
  }

  lemma {:induction false} ErrorConcat(a: seq<int8>, b: seq<int8>, c: seq<int8>, d: seq<int8>)
    requires |a| == |b| && |c| == |d| && |a| % 2 == 0 && |c| % 2 == 0
    ensures ErrorSum(a + c, b + d) == ErrorSum(a, b) + ErrorSum(c, d)
  {
    if c == [] {
      assert a + c == a && b + d == b;
    } else {
      var n := |c| - 2;
      assert (a + c)[..|a + c| - 2] == a + c[..n];
      assert (b + d)[..|b + d| - 2] == b + d[..n];
      ErrorConcat(a, b, c[..n], d[..n]);
    }
  }

  lemma TimesShift(x: int, y: int)
    ensures Times(x + 128, y) == Times(x, y) + 128 * y
  {
  }

  /** The 16-bit products of a block add up to the biased dot product plus the errors. */
  lemma {:induction false} MaddubsSum(a: seq<int8>, b: seq<int8>)
    requires |a| == |b| && |a| % 2 == 0
    ensures LaneSum(Maddubs(Bias(a), b)) == Dot(a, b) + 128 * Sum(b) + ErrorSum(a, b)
  {
    if a != [] {
      var n := |a| - 2;
      hide Sat16, Times, Biased, PairError, Maddubs, Bias, Dot, Sum, ErrorSum, LaneSum;
      MaddubsSum(a[..n], b[..n]);
      MaddubsPrefix(a, b);
      LastPair(a, b);
      LastTwo(a, b);
      LastError(a, b);
      LastLane(Maddubs(Bias(a), b));
    }
  }

  lemma MaddubsPrefix(a: seq<int8>, b: seq<int8>)
    requires |a| == |b| && |a| % 2 == 0 && |a| > 0
    ensures var n := |a| - 2;
            |Maddubs(Bias(a), b)| == n / 2 + 1 && Maddubs(Bias(a), b)[..n / 2] == Maddubs(Bias(a[..n]), b[..n])
  {
    hide Sat16, Times, Biased;
  }

  lemma LastLane(p: Lanes)
    requires p != []
    ensures LaneSum(p) == LaneSum(p[..|p| - 1]) + p[|p| - 1]
  {
  }

  lemma LastError(a: seq<int8>, b: seq<int8>)
    requires |a| == |b| && |a| % 2 == 0 && |a| > 0
    ensures var n := |a| - 2;
            ErrorSum(a, b) == ErrorSum(a[..n], b[..n]) + PairError(a[n], a[n + 1], b[n], b[n + 1])
  {
    hide PairError;
  }

  /** The last lane is the last pair, saturated. */
  lemma LastPair(a: seq<int8>, b: seq<int8>)
    requires |a| == |b| && |a| % 2 == 0 && |a| > 0
    ensures var n := |a| - 2;
            Maddubs(Bias(a), b)[n / 2] == Times(a[n], b[n]) + Times(a[n + 1], b[n + 1]) + 128 * (b[n] as int) + 128 * (b[n + 1] as int)
                                          + PairError(a[n], a[n + 1], b[n], b[n + 1])
  {
    var n := |a| - 2;
    BiasIsShift(a[n]);
    BiasIsShift(a[n + 1]);
    TimesShift(a[n], b[n]);
    TimesShift(a[n + 1], b[n + 1]);
    hide Sat16, Times, Biased;
  }

  lemma LastTwo(a: seq<int8>, b: seq<int8>)
    requires |a| == |b| && |a| >= 2
    ensures var n := |a| - 2;
            && Dot(a, b) == Dot(a[..n], b[..n]) + Times(a[n], b[n]) + Times(a[n + 1], b[n + 1])
            && Sum(b) == Sum(b[..n]) + b[n] + b[n + 1]
  {
    hide Times, Dot, Sum;
    var n := |a| - 2;
    DotLast(a, b);
    DotLast(a[..n + 1], b[..n + 1]);
    assert a[..n + 1][..n] == a[..n] && b[..n + 1][..n] == b[..n];
  }

  lemma DotLast(a: seq<int8>, b: seq<int8>)
    requires |a| == |b| > 0
    ensures Dot(a, b) == Dot(a[..|a| - 1], b[..|a| - 1]) + Times(a[|a| - 1], b[|a| - 1])
    ensures Sum(b) == Sum(b[..|a| - 1]) + b[|a| - 1]
  {
  }

  lemma {:induction false} MaddOnesSum(p: Lanes)
    requires |p| % 2 == 0
    ensures LaneSum(MaddOnes(p)) == LaneSum(p)
  {
    if p != [] {
      var n := |p| - 2;
      MaddOnesSum(p[..n]);
      assert MaddOnes(p)[..n / 2] == MaddOnes(p[..n]);
      assert p[..n + 1][..n] == p[..n];
    }
  }

  lemma {:induction false} AddLanesSum(x: Lanes, y: Lanes)
    requires |x| == |y|
    ensures W32(LaneSum(AddLanes(x, y))) == W32(LaneSum(x) + LaneSum(y))
  {
    hide W32;
    if x != [] {
      var n := |x| - 1;
      AddLanesSum(x[..n], y[..n]);
      var s, s' := LaneSum(AddLanes(x[..n], y[..n])), LaneSum(x[..n]) + LaneSum(y[..n]);
      assert AddLanes(x, y)[..n] == AddLanes(x[..n], y[..n]);
      WrapAdd(x[n] + y[n], s);
      WrapAdd(s, x[n] + y[n]);
      WrapAdd(s', x[n] + y[n]);
    }
  }

  /** What the accumulator stands for after the first i elements. */
  ghost predicate Accumulated(acc: Lanes, a: seq<int8>, b: seq<int8>)
    requires |a| == |b| && |a| % 2 == 0
  {
    W32(LaneSum(acc)) == W32(Dot(a, b) + 128 * Sum(b) + ErrorSum(a, b))
  }

  lemma {:induction false} SumConcat(b: seq<int8>, d: seq<int8>)
    ensures Sum(b + d) == Sum(b) + Sum(d)
  {
    if d == [] {
      assert b + d == b;
    } else {
      assert (b + d)[..|b + d| - 1] == b + d[..|d| - 1];
      SumConcat(b, d[..|d| - 1]);
    }
  }

  lemma BlockStep(acc: Lanes, a: seq<int8>, b: seq<int8>, c: seq<int8>, d: seq<int8>)
    requires |a| == |b| && |c| == |d| == 4 * |acc| && |a| % 2 == 0
    requires Accumulated(acc, a, b)
    ensures |a + c| % 2 == 0 && Accumulated(AddLanes(acc, Block(c, d)), a + c, b + d)
  {
    hide W32, Block, AddLanes, Dot, Sum, ErrorSum, LaneSum;
    AddLanesSum(acc, Block(c, d));
    BlockSum(c, d);
    DotConcat(a, b, c, d);
    SumConcat(b, d);
    ErrorConcat(a, b, c, d);
    var x := Dot(a, b) + 128 * Sum(b) + ErrorSum(a, b);
    WrapBoth(LaneSum(acc), x, LaneSum(Block(c, d)));
  }

  lemma WrapBoth(s: int, x: int, y: int)
    requires W32(s) == W32(x)
    ensures W32(s + y) == W32(x + y)
  {
    hide W32;
    WrapAdd(s, y);
    WrapAdd(x, y);
  }

  lemma Halves(n: nat)
    requires n % 4 == 0
    ensures n % 2 == 0 && n / 2 % 2 == 0
  {
    var q := n / 4;
    assert n == 2 * (2 * q) && n / 2 == 2 * q;
    Even(2 * q);
    Even(q);
  }

  lemma Even(q: nat)
    ensures 2 * q % 2 == 0
  {
  }

  lemma BlockSum(c: seq<int8>, d: seq<int8>)
    requires |c| == |d| && |c| % 4 == 0
    ensures LaneSum(Block(c, d)) == Dot(c, d) + 128 * Sum(d) + ErrorSum(c, d)
  {
    hide Maddubs, Bias, MaddOnes, Dot, Sum, ErrorSum, LaneSum;
    Halves(|c|);
    MaddOnesSum(Maddubs(Bias(c), d));
    MaddubsSum(c, d);
  }

  // ---- Vector paths ---------------------------------------------------------

  /** The bias compensation: the sum of the first i elements of b, with wrap-around. */
  method SumFirst(b: seq<int8>, i: nat) returns (sumB: int32)
    requires i <= |b|
    ensures sumB == W32(Sum(b[..i]))
  {
    sumB := 0;
    var j := 0;
    while j < i
      invariant 0 <= j <= i && sumB == W32(Sum(b[..j]))
    {
      WrapAdd(Sum(b[..j]), b[j]);
      assert b[..j + 1][..j] == b[..j];
      sumB := W32(sumB + b[j]);
      j := j + 1;
    }
  }

  /** Removes the bias and adds the tail. */
  method Finish(result: int32, a: seq<int8>, b: seq<int8>, i: nat) returns (r: int32)
    requires |a| == |b| && i <= |a| && i % 2 == 0
    requires result == W32(Dot(a[..i], b[..i]) + 128 * Sum(b[..i]) + ErrorSum(a[..i], b[..i]))
    ensures r == W32(Dot(a, b) + ErrorSum(a[..i], b[..i]))
  {
    hide Dot, Sum, ErrorSum, W32;
    var sumB := SumFirst(b, i);
    r := W32(result as int - 128 * (sumB as int));
    var tail := DotScalar(a[i..], b[i..], |a| - i);
    r := W32(r as int + tail as int);
    assert a == a[..i] + a[i..] && b == b[..i] + b[i..];
    assert a[i..][..|a| - i] == a[i..] && b[i..][..|a| - i] == b[i..];
    DotConcat(a[..i], b[..i], a[i..], b[i..]);
    Unbias(Dot(a[..i], b[..i]) + ErrorSum(a[..i], b[..i]), Sum(b[..i]), Dot(a[i..], b[i..]));
  }

  lemma Unbias(x: int, s: int, t: int)
    ensures W32(W32(W32(x + 128 * s) - 128 * W32(s)) + W32(t)) == W32(x + t)
  {
    var k := (W32(s) - s) / 0x1_0000_0000;
    assert W32(s) == s + 0x1_0000_0000 * k;
    var y := W32(x + 128 * s) - 128 * W32(s);
    var j := (W32(x + 128 * s) - (x + 128 * s)) / 0x1_0000_0000;
    assert W32(x + 128 * s) == x + 128 * s + 0x1_0000_0000 * j;
    assert y - x == 0x1_0000_0000 * (j - 128 * k);
    WrapEqual(y, x);
    WrapAdd(x, W32(t));
    WrapAdd(t, x);
  }

  /** The elements the vector loop has consumed: whole blocks of the given width. */
  function Whole(n: nat, width: nat): (m: nat)
    requires width == 16 || width == 32
    ensures m <= n < m + width && m % 2 == 0
  {
    Even(n / 16 * 8);
    Even(n / 32 * 16);
    if width == 16 then n / 16 * 16 else n / 32 * 32
  }

  /** i is the end of k whole blocks. */
  ghost predicate BlockEnd(i: nat, width: nat, k: nat) { (width == 16 && i == 16 * k) || (width == 32 && i == 32 * k) }

  lemma WholeIs(n: nat, width: nat, i: nat, k: nat)
    requires BlockEnd(i, width, k) && i <= n < i + width
    ensures i == Whole(n, width)
  {
    if width == 16 { assert n / 16 == k; } else { assert n / 32 == k; }
  }

  lemma FirstEnd(width: nat)
    requires width == 16 || width == 32
    ensures BlockEnd(0, width, 0)
  {
  }

  lemma NextEnd(i: nat, width: nat, k: nat)
    requires BlockEnd(i, width, k)
    ensures BlockEnd(i + width, width, k + 1) && i % 2 == 0 && (i + width) % 2 == 0
  {
    var q := if width == 16 then 8 * k else 16 * k;
    assert i == 2 * q && i + width == 2 * (q + width / 2);
    Even(q);
    Even(q + width / 2);
  }

  /** One turn of the vector loop: one block of each operand into the accumulator. */
  method NextBlock(acc: Lanes, a: seq<int8>, b: seq<int8>, i: nat, width: nat) returns (r: Lanes)
    requires |a| == |b| && i + width <= |a| && i % 2 == 0 && (i + width) % 2 == 0 && width == 4 * |acc|
    requires Accumulated(acc, a[..i], b[..i])
    ensures |r| == |acc| && Accumulated(r, a[..i + width], b[..i + width])
  {
    hide Accumulated;
    var va, vb := a[i..i + width], b[i..i + width];
    BlockStep(acc, a[..i], b[..i], va, vb);
    assert a[..i + width] == a[..i] + va && b[..i + width] == b[..i] + vb;
    r := AddLanes(acc, Block(va, vb));
  }

  /** The vector loop: width is 16 for SSE4.2 and 32 for AVX2, four elements to a 32-bit lane. */
  method Accumulate(a: seq<int8>, b: seq<int8>, n: nat, width: nat) returns (acc: Lanes, i: nat)
    requires |a| == |b| == n && (width == 16 || width == 32)
    ensures 4 * |acc| == width && i == Whole(n, width)
    ensures Accumulated(acc, a[..i], b[..i])
  {
    hide Accumulated, Whole, BlockEnd;
    acc := seq(width / 4, _ => 0);
    StartAccumulated(a, b, width / 4);
    i := 0;
    ghost var k := 0;
    FirstEnd(width);
    while i + width <= n
      invariant i <= n && BlockEnd(i, width, k) && 4 * |acc| == width && i % 2 == 0
      invariant Accumulated(acc, a[..i], b[..i])
    {
      NextEnd(i, width, k);
      acc := NextBlock(acc, a, b, i, width);
      i := i + width;
      k := k + 1;
    }
    WholeIs(n, width, i, k);
  }

  lemma StartAccumulated(a: seq<int8>, b: seq<int8>, lanes: nat)
    requires |a| == |b|
    ensures Accumulated(seq(lanes, _ => 0), a[..0], b[..0])
  {
    ZeroLanes(lanes);
  }

  lemma {:induction false} ZeroLanes(n: nat)
    ensures LaneSum(seq(n, _ => 0)) == 0
  {
    if n > 0 {
      ZeroLanes(n - 1);
      assert seq(n, _ => 0)[..n - 1] == seq(n - 1, _ => 0);
    }
  }

  method DotSse42(a: seq<int8>, b: seq<int8>, n: nat) returns (r: int32)
    requires |a| == |b| == n
    ensures var m := Whole(n, 16); r == W32(Dot(a, b) + ErrorSum(a[..m], b[..m]))
  {
    var acc, i := Accumulate(a, b, n, 16);
    var result := Reduce4(acc);
    r := Finish(result, a, b, i);
  }

  method DotAvx2(a: seq<int8>, b: seq<int8>, n: nat) returns (r: int32)
    requires |a| == |b| == n
    ensures var m := Whole(n, 32); r == W32(Dot(a, b) + ErrorSum(a[..m], b[..m]))
  {
    var acc, i := Accumulate(a, b, n, 32);
    var lo, hi := acc[..4], acc[4..];
    var sum4 := AddLanes(lo, hi);
    var result := Reduce4(sum4);
    AddLanesSum(lo, hi);
    LaneSumSplit(lo, hi);
    assert lo + hi == acc;
    r := Finish(result, a, b, i);
  }

  lemma {:induction false} LaneSumSplit(x: Lanes, y: Lanes)
    ensures LaneSum(x + y) == LaneSum(x) + LaneSum(y)
  {
    if y == [] {
      assert x + y == x;
    } else {
      assert (x + y)[..|x + y| - 1] == x + y[..|y| - 1];
      LaneSumSplit(x, y[..|y| - 1]);
    }
  }

  // ---- Dispatch -------------------------------------------------------------

  datatype Level = Scalar | Sse42 | Avx2

  /** Which vector paths the kernel was compiled with. */
  datatype Build = Build(sse42: bool, avx2: bool)

  /** Elements that go through saturating instructions. */
  function Vectorised(n: nat, level: Level, build: Build): (m: nat)
    ensures m <= n && m % 2 == 0
  {
    if level.Avx2? && build.avx2 then Whole(n, 32)
    else if level.Sse42? && build.sse42 then Whole(n, 16)
    else 0
  }

  /**
   What each level takes: whole blocks of 32 with AVX2, of 16 with SSE4.2, when the kernel was built
   with them; otherwise none, and the result is the scalar one.
   */
  lemma LevelResults(a: seq<int8>, b: seq<int8>, build: Build)
    requires |a| == |b|
    ensures Whole(|a|, 32) == |a| / 32 * 32 && Whole(|a|, 16) == |a| / 16 * 16
    ensures build.avx2 ==> DotValue(a, b, Avx2, build) == W32(Dot(a, b) + ErrorSum(a[..Whole(|a|, 32)], b[..Whole(|a|, 32)]))
    ensures build.sse42 ==> DotValue(a, b, Sse42, build) == W32(Dot(a, b) + ErrorSum(a[..Whole(|a|, 16)], b[..Whole(|a|, 16)]))
    ensures !build.avx2 ==> DotValue(a, b, Avx2, build) == W32(Dot(a, b))
    ensures !build.sse42 ==> DotValue(a, b, Sse42, build) == W32(Dot(a, b))
    ensures DotValue(a, b, Scalar, build) == W32(Dot(a, b))
  {
    hide W32, Dot, ErrorSum;
    EmptyErrors(a, b);
  }

  /** On 16 elements SSE4.2 has one block and AVX2 none; on 32 both take everything. */
  lemma OneBlock(a: seq<int8>, b: seq<int8>)
    requires |a| == |b|
    ensures |a| == 16 ==> DotValue(a, b, Sse42, Build(true, true)) == W32(Dot(a, b) + ErrorSum(a, b))
                          && DotValue(a, b, Avx2, Build(true, true)) == W32(Dot(a, b))
    ensures |a| == 32 ==> DotValue(a, b, Sse42, Build(true, true)) == W32(Dot(a, b) + ErrorSum(a, b))
                          && DotValue(a, b, Avx2, Build(true, true)) == W32(Dot(a, b) + ErrorSum(a, b))
  {
    hide W32, Dot, ErrorSum;
    EmptyErrors(a, b);
    assert a[..|a|] == a && b[..|b|] == b;
  }

  lemma EmptyErrors(a: seq<int8>, b: seq<int8>)
    requires |a| == |b|
    ensures ErrorSum(a[..0], b[..0]) == 0
  {
  }

  /** The dispatch every caller goes through. */
  method Int8Dot(a: seq<int8>, b: seq<int8>, n: nat, level: Level, build: Build) returns (r: int32)
    requires |a| == |b| == n
    ensures var m := Vectorised(n, level, build);
            r == W32(Dot(a, b) + ErrorSum(a[..m], b[..m]))
    ensures r == DotValue(a, b, level, build)
  {
    hide Whole, Dot, ErrorSum, W32;
    if level.Avx2? && build.avx2 {
      r := DotAvx2(a, b, n);
    } else if level.Sse42? && build.sse42 {
      r := DotSse42(a, b, n);
    } else {
      assert a[..n] == a && b[..n] == b;
      EmptyErrors(a, b);
      r := DotScalar(a, b, n);
    }
  }

  lemma BiasedProduct(u: int, b: int)
    requires 0 <= u <= 255 && -64 <= b <= 64
    ensures -16320 <= Times(u, b) <= 16320
  {
    Scale(u, b, 64);
    Scale(u, -64, b);
  }

  // ---- Exactly when the paths agree -----------------------------------------

  function Pos(x: int): nat { if x > 0 then x else 0 }

  function Neg(x: int): nat { if x < 0 then -x else 0 }

  /** Two adjacent weights whose products can never saturate. */
  predicate PairFits(b0: int, b1: int) { Pos(b0) + Pos(b1) <= 128 && Neg(b0) + Neg(b1) <= 128 }

  predicate WeightsFit(b: seq<int8>)
    requires |b| % 2 == 0
  {
    b == [] || (WeightsFit(b[..|b| - 2]) && PairFits(b[|b| - 2], b[|b| - 1]))
  }

  lemma UnsignedProduct(u: int, b: int)
    requires 0 <= u <= 255
    ensures -255 * Neg(b) <= Times(u, b) <= 255 * Pos(b)
  {
    if b >= 0 { Scale(b, u, 255); Scale(b, 0, u); } else { Scale(-b, u, 255); Scale(-b, 0, u); }
  }

  lemma FittingPair(a0: int8, a1: int8, b0: int8, b1: int8)
    requires PairFits(b0, b1)
    ensures PairError(a0, a1, b0, b1) == 0
  {
    UnsignedProduct(a0 as int + 128, b0);
    UnsignedProduct(a1 as int + 128, b1);
    hide Times;
  }

  lemma {:induction false} FittingWeights(a: seq<int8>, b: seq<int8>)
    requires |a| == |b| && |a| % 2 == 0 && WeightsFit(b)
    ensures ErrorSum(a, b) == 0
  {
    if a != [] {
      var n := |a| - 2;
      FittingWeights(a[..n], b[..n]);
      FittingPair(a[n], a[n + 1], b[n], b[n + 1]);
    }
  }

  /** Activations that give zero products: the bias makes them 0. */
  function Silent(n: nat): (a: seq<int8>)
    ensures |a| == n
  {
    seq(n, _ => -128 as int8)
  }

  /** The activation that drives a weight's product to the given side, or silences it. */
  function Loud(b: int8, up: bool): int8 { if (up && b > 0) || (!up && b < 0) then 127 else -128 }

  /** Activations under which exactly one pair saturates, if some pair can. */
  function Spoiler(b: seq<int8>): (a: seq<int8>)
    requires |b| % 2 == 0
    ensures |a| == |b|
  {
    if b == [] then []
    else
      var n := |b| - 2;
      var up := Pos(b[n]) + Pos(b[n + 1]) > 128;
      if PairFits(b[n], b[n + 1]) then Spoiler(b[..n]) + Silent(2) else Silent(n) + [Loud(b[n], up), Loud(b[n + 1], up)]
  }

  lemma {:induction false} SilentErrors(b: seq<int8>)
    requires |b| % 2 == 0
    ensures ErrorSum(Silent(|b|), b) == 0
  {
    if b != [] {
      var n := |b| - 2;
      SilentErrors(b[..n]);
      assert Silent(|b|)[..n] == Silent(n);
      SilentPair(b[n], b[n + 1]);
    }
  }

  lemma SilentPair(b0: int8, b1: int8)
    ensures PairError(-128, -128, b0, b1) == 0
  {
  }

  lemma LoudError(b0: int8, b1: int8)
    requires !PairFits(b0, b1)
    ensures var up := Pos(b0) + Pos(b1) > 128;
            var e := PairError(Loud(b0, up), Loud(b1, up), b0, b1);
            e != 0 && -0x1_0000 < e < 0x1_0000
  {
    var up := Pos(b0) + Pos(b1) > 128;
    assert PairSum(Loud(b0, up), Loud(b1, up), b0, b1) == if up then 255 * (Pos(b0) + Pos(b1)) else -255 * (Neg(b0) + Neg(b1));
  }

  lemma {:induction false} SpoilerError(b: seq<int8>)
    requires |b| % 2 == 0 && !WeightsFit(b)
    ensures var e := ErrorSum(Spoiler(b), b); e != 0 && -0x1_0000 < e < 0x1_0000
  {
    hide PairFits, PairError, Pos, Loud, Spoiler, Silent;
    var n := |b| - 2;
    SpoilerParts(b);
    if PairFits(b[n], b[n + 1]) {
      SpoilerError(b[..n]);
      SilentPair(b[n], b[n + 1]);
    } else {
      SilentErrors(b[..n]);
      LoudError(b[n], b[n + 1]);
    }
  }

  lemma SpoilerParts(b: seq<int8>)
    requires b != [] && |b| % 2 == 0
    ensures var a, n := Spoiler(b), |b| - 2;
            var up := Pos(b[n]) + Pos(b[n + 1]) > 128;
            if PairFits(b[n], b[n + 1]) then a[..n] == Spoiler(b[..n]) && a[n] == a[n + 1] == -128
            else a[..n] == Silent(n) && a[n] == Loud(b[n], up) && a[n + 1] == Loud(b[n + 1], up)
  {
    hide PairFits, Pos, Loud;
  }

  lemma WrapDiffers(x: int, e: int)
    requires e != 0 && -0x1_0000 < e < 0x1_0000
    ensures W32(x + e) != W32(x)
  {
  }

  /** The first m elements may go through the saturating instructions, whatever the activations. */
  ghost predicate Agrees(b: seq<int8>, m: nat)
    requires m <= |b| && m % 2 == 0
  {
    forall a: seq<int8> | |a| == |b| :: W32(Dot(a, b) + ErrorSum(a[..m], b[..m])) == W32(Dot(a, b))
  }

  /**
   The exact condition on the weights: a vector path agrees with the scalar one for every activation
   vector exactly when no adjacent pair in its whole blocks has positive parts, or negative parts,
   adding up to more than 128.
   */
  lemma AgreesIff(b: seq<int8>, level: Level, build: Build)
    ensures var m := Vectorised(|b|, level, build);
            Agrees(b, m) <==> WeightsFit(b[..m])
  {
    hide Dot, ErrorSum, W32, WeightsFit, Spoiler, Vectorised;
    var m := Vectorised(|b|, level, build);
    if WeightsFit(b[..m]) {
      forall a: seq<int8> | |a| == |b| ensures W32(Dot(a, b) + ErrorSum(a[..m], b[..m])) == W32(Dot(a, b)) {
        FittingWeights(a[..m], b[..m]);
      }
    } else {
      SpoilerError(b[..m]);
      var a := Spoiler(b[..m]) + Silent(|b| - m);
      assert a[..m] == Spoiler(b[..m]);
      WrapDiffers(Dot(a, b), ErrorSum(a[..m], b[..m]));
      assert |a| == |b| && W32(Dot(a, b) + ErrorSum(a[..m], b[..m])) != W32(Dot(a, b));
    }
  }

  /** Weights in [-64, 64] meet the condition in every position. */
  lemma {:induction false} WithinFits(b: seq<int8>)
    requires |b| % 2 == 0 && Within(b, 64)
    ensures WeightsFit(b)
  {
    if b != [] { WithinFits(b[..|b| - 2]); }
  }

  lemma NoErrors(a: seq<int8>, b: seq<int8>)
    requires |a| == |b| && |a| % 2 == 0 && Within(b, 64)
    ensures ErrorSum(a, b) == 0
  {
    WithinFits(b);
    FittingWeights(a, b);
  }

  /** With weights in [-64, 64] every path gives the scalar result, on all lengths. */
  lemma PathsAgree(a: seq<int8>, b: seq<int8>, m: nat)
    requires |a| == |b| && Within(b, 64) && m <= |a| && m % 2 == 0
    ensures W32(Dot(a, b) + ErrorSum(a[..m], b[..m])) == W32(Dot(a, b))
  {
    NoErrors(a[..m], b[..m]);
  }

  /** Up to length 131071 the result does not wrap, whatever the operands. */
  lemma ExactDot(a: seq<int8>, b: seq<int8>)
    requires |a| == |b| <= 131071
    ensures W32(Dot(a, b)) == Dot(a, b)
  {
    assert Within(b, 128);
    DotBound(a, b, 128);
    WrapSmall(Dot(a, b));
  }

  /**
   For weights in [-64, 64] and such lengths no intermediate of the vector path leaves the range
   of a C int either: the biased total, the compensation and the result.
   */
  lemma NoSignedOverflow(a: seq<int8>, b: seq<int8>)
    requires |a| == |b| <= 131071 && Within(b, 64)
    ensures -0x8000_0000 <= Dot(a, b) + 128 * Sum(b) < 0x8000_0000
    ensures -0x8000_0000 <= 128 * Sum(b) < 0x8000_0000
  {
    BiasedBound(a, b);
    SumBound(b);
  }

  lemma {:induction false} SumBound(b: seq<int8>)
    requires Within(b, 64)
    ensures -64 * |b| <= Sum(b) <= 64 * |b|
  {
    if b != [] { SumBound(b[..|b| - 1]); }
  }

  lemma {:induction false} BiasedBound(a: seq<int8>, b: seq<int8>)
    requires |a| == |b| && Within(b, 64)
    ensures -16320 * |a| <= Dot(a, b) + 128 * Sum(b) <= 16320 * |a|
  {
    if a != [] {
      var n := |a| - 1;
      BiasedBound(a[..n], b[..n]);
      BiasedProduct(a[n] as int + 128, b[n]);
      TimesShift(a[n], b[n]);
      hide Times;
    }
  }

  /** 64 is the largest such bound: one block with weights 65 already disagrees. */
  lemma BoundIsSharp()
    ensures var a: seq<int8> := seq(16, _ => 127 as int8);
            var b: seq<int8> := seq(16, _ => 65 as int8);
            && Within(b, 65) && ErrorSum(a, b) == -3064
            && W32(Dot(a, b) + ErrorSum(a[..16], b[..16])) != W32(Dot(a, b))
            && DotValue(a, b, Sse42, Build(true, true)) == 129016 && DotValue(a, b, Scalar, Build(true, true)) == 132080
  {
    var a: seq<int8> := seq(16, _ => 127 as int8);
    var b: seq<int8> := seq(16, _ => 65 as int8);
    ConstantErrors(8);
    ConstantDot(16);
    assert a[..16] == a && b[..16] == b;
    OneBlock(a, b);
    LevelResults(a, b, Build(true, true));
    WrapSmall(129016);
    WrapSmall(132080);
  }

  /** The lower clamp: a pair of weights -65 under activations 127 comes out 382 too high. */
  lemma LowerClamp()
    ensures PairError(127, 127, 65, 65) == -383 && PairError(127, 127, -65, -65) == 382
    ensures PairError(127, -128, 128, 0) == 0 && PairError(127, -128, 129, 0) == -128 && PairError(127, -128, -129, 0) == 127
  {
    assert PairSum(127, 127, 65, 65) == 33150 && PairSum(127, 127, -65, -65) == -33150;
    assert PairSum(127, -128, 128, 0) == 32640 && PairSum(127, -128, 129, 0) == 32895 && PairSum(127, -128, -129, 0) == -32895;
  }

  lemma {:induction false} ConstantErrors(k: nat)
    ensures ErrorSum(seq(2 * k, _ => 127 as int8), seq(2 * k, _ => 65 as int8)) == -383 * k
  {
    if k > 0 {
      ConstantErrors(k - 1);
      var a, b := seq(2 * k, _ => 127 as int8), seq(2 * k, _ => 65 as int8);
      assert a[..2 * k - 2] == seq(2 * (k - 1), _ => 127 as int8);
      assert b[..2 * k - 2] == seq(2 * (k - 1), _ => 65 as int8);
      assert PairSum(127, 127, 65, 65) == 33150;
    }
  }

  lemma {:induction false} ConstantDot(k: nat)
    ensures Dot(seq(k, _ => 127 as int8), seq(k, _ => 65 as int8)) == 8255 * k
  {
    if k > 0 {
      ConstantDot(k - 1);
      var a, b := seq(k, _ => 127 as int8), seq(k, _ => 65 as int8);
      assert a[..k - 1] == seq(k - 1, _ => 127 as int8);
      assert b[..k - 1] == seq(k - 1, _ => 65 as int8);
    }
  }

  // ---- Matrix multiplication ------------------------------------------------

  /** The sum over the first k positions of the products of two stretches of the matrices. */
  function PartialSum(a: seq<int8>, b: seq<int8>, p: nat, q: nat, k: nat): int
    requires p + k <= |a| && q + k <= |b|
  {
    if k == 0 then 0 else PartialSum(a, b, p, q, k - 1) + Times(a[p + k - 1], b[q + k - 1])
  }

  /** Entry (i, j) of the product of A (rows of length K) with the matrix whose transpose is bT. */
  function ProductEntry(a: seq<int8>, bT: seq<int8>, K: nat, i: nat, j: nat): int
    requires i * K + K <= |a| && j * K + K <= |bT|
  {
    PartialSum(a, bT, i * K, j * K, K)
  }

  lemma {:induction false} StretchDot(a: seq<int8>, b: seq<int8>, p: nat, q: nat, k: nat)
    requires p + k <= |a| && q + k <= |b|
    ensures Dot(a[p..p + k], b[q..q + k]) == PartialSum(a, b, p, q, k)
  {
    hide Times;
    if k > 0 {
      StretchDot(a, b, p, q, k - 1);
      var r, s := a[p..p + k], b[q..q + k];
      assert r[..k - 1] == a[p..p + (k - 1)] && s[..k - 1] == b[q..q + (k - 1)];
    }
  }

  lemma RowFits(i: nat, M: nat, K: nat)
    requires i < M
    ensures 0 <= i * K && i * K + K <= M * K
  {
    assert (i + 1) * K <= M * K by { Scale(K, i + 1, M); }
    assert (i + 1) * K == i * K + K;
  }

  /** The value the matrix loop stores for one entry. */
  function DotValue(a: seq<int8>, b: seq<int8>, level: Level, build: Build): int32
    requires |a| == |b|
  {
    var m := Vectorised(|a|, level, build);
    W32(Dot(a, b) + ErrorSum(a[..m], b[..m]))
  }

  /** Row i of a matrix with rows of length K. */
  function Row(a: seq<int8>, M: nat, K: nat, i: nat): (r: seq<int8>)
    requires i < M && |a| == M * K
    ensures |r| == K
  {
    RowFits(i, M, K);
    a[i * K..i * K + K]
  }

  lemma CellFits(i: nat, j: nat, M: nat, N: nat)
    requires i < M && j < N
    ensures 0 <= i * N + j < M * N
  {
    RowFits(i, M, N);
  }

  /** Different cells have different indices. */
  lemma CellsDiffer(i: nat, j: nat, i': nat, j': nat, N: nat)
    requires j < N && j' < N && (i != i' || j != j')
    ensures i * N + j != i' * N + j'
  {
    if i < i' {
      RowFits(i, i', N);
    } else if i' < i {
      RowFits(i', i, N);
    }
  }

  /** C holds the values of the first rows, and of the first j cells of row i. */
  ghost predicate Filled(c: seq<int32>, a: seq<int8>, bT: seq<int8>, M: nat, K: nat, N: nat, level: Level, build: Build, i: nat, j: nat)
    requires |a| == M * K && |bT| == N * K && |c| >= M * N
  {
    forall x: nat, y: nat {:trigger Cell(c, M, N, x, y)} | x < M && y < N && (x < i || (x == i && y < j)) ::
      Cell(c, M, N, x, y) == DotValue(Row(a, M, K, x), Row(bT, N, K, y), level, build)
  }

  function Cell(c: seq<int32>, M: nat, N: nat, x: nat, y: nat): int32
    requires x < M && y < N && |c| >= M * N
  {
    CellFits(x, y, M, N);
    c[x * N + y]
  }

  /** Writes exactly the M * N cells of C, each the dispatched dot product of two rows. */
  method MatMul(a: seq<int8>, bT: seq<int8>, c: array<int32>, M: nat, K: nat, N: nat, level: Level, build: Build)
    requires |a| == M * K && |bT| == N * K && c.Length >= M * N
    modifies c
    ensures Filled(c[..], a, bT, M, K, N, level, build, M, 0)
    ensures forall p | M * N <= p < c.Length :: c[p] == old(c[p])
  {
    var i := 0;
    while i < M
      invariant 0 <= i <= M && Filled(c[..], a, bT, M, K, N, level, build, i, 0)
      invariant forall p | M * N <= p < c.Length :: c[p] == old(c[p])
    {
      var j := 0;
      while j < N
        invariant 0 <= j <= N && Filled(c[..], a, bT, M, K, N, level, build, i, j)
        invariant forall p | M * N <= p < c.Length :: c[p] == old(c[p])
      {
        StoreCell(a, bT, c, M, K, N, level, build, i, j);
        j := j + 1;
      }
      i := i + 1;
    }
  }

  method StoreCell(a: seq<int8>, bT: seq<int8>, c: array<int32>, M: nat, K: nat, N: nat, level: Level, build: Build, i: nat, j: nat)
    requires |a| == M * K && |bT| == N * K && c.Length >= M * N && i < M && j < N
    requires Filled(c[..], a, bT, M, K, N, level, build, i, j)
    modifies c
    ensures Filled(c[..], a, bT, M, K, N, level, build, i, j + 1)
    ensures forall p | M * N <= p < c.Length :: c[p] == old(c[p])
  {
    ghost var c0 := c[..];
    var r := Int8Dot(Row(a, M, K, i), Row(bT, N, K, j), K, level, build);
    CellFits(i, j, M, N);
    c[i * N + j] := r;
    hide Row, DotValue;
    forall x: nat, y: nat | x < M && y < N && (x < i || (x == i && y < j + 1))
      ensures Cell(c[..], M, N, x, y) == DotValue(Row(a, M, K, x), Row(bT, N, K, y), level, build) {
      CellFits(x, y, M, N);
      if x != i || y != j {
        CellsDiffer(x, y, i, j, N);
        assert Cell(c0, M, N, x, y) == Cell(c[..], M, N, x, y);
      }
    }
  }

  /**
   The matrix product: for weights in [-64, 64] and K up to 131071, every entry is the exact sum
   over k of A[i][k] times B[k][j], where B[k][j] is bT[j][k], at every SIMD level.
   */
  lemma MatMulIsProduct(c: seq<int32>, a: seq<int8>, bT: seq<int8>, M: nat, K: nat, N: nat, level: Level, build: Build, x: nat, y: nat)
    requires |a| == M * K && |bT| == N * K && |c| >= M * N && x < M && y < N
    requires Filled(c, a, bT, M, K, N, level, build, M, 0) && Within(bT, 64) && K <= 131071
    ensures x * K + K <= |a| && y * K + K <= |bT|
    ensures x * N + y < M * N && c[x * N + y] == ProductEntry(a, bT, K, x, y)
  {
    CellFits(x, y, M, N);
    RowFits(x, M, K);
    RowFits(y, N, K);
    var r, s := Row(a, M, K, x), Row(bT, N, K, y);
    assert Within(s, 64);
    PathsAgree(r, s, Vectorised(K, level, build));
    ExactDot(r, s);
    StretchDot(a, bT, x * K, y * K, K);
    hide Row, Dot, ErrorSum, W32;
    assert Cell(c, M, N, x, y) == DotValue(r, s, level, build);
  }
}
