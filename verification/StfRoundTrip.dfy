/** Reading back what the STF writer wrote. */
module StfRoundTrip {
  import opened Bytes
  import opened Stf

  // ---- Header ---------------------------------------------------------------

  lemma HeaderFields(n: u32, off: u64, modelName: seq<byte>)
    ensures var h := PackHeader(n, off, modelName);
            && h[0..4] == MAGIC && Get32(h, 4) == VERSION && Get32(h, 8) == n && Get64(h, 16) == off
            && h[12..16] == Zeros(4) && h[24..56] == PackName(modelName, 32) && h[56..64] == Zeros(8)
  {
    hide PackName, FromLE, ToLE;
    var h := PackHeader(n, off, modelName);
    SevenParts(MAGIC, ToLE(VERSION, 4), ToLE(n, 4), ToLE(0, 4), ToLE(off, 8), PackName(modelName, 32), Zeros(8));
    PackedField(VERSION);
    PackedField(n);
    PackedField(off);
    ZeroField(4);
  }

  lemma SevenParts(a: seq<byte>, b: seq<byte>, c: seq<byte>, d: seq<byte>, e: seq<byte>, f: seq<byte>, g: seq<byte>)
    requires |a| == |b| == |c| == |d| == 4 && |e| == |g| == 8 && |f| == 32
    ensures var h := a + b + c + d + e + f + g;
            h[0..4] == a && h[4..8] == b && h[8..12] == c && h[12..16] == d && h[16..24] == e && h[24..56] == f && h[56..64] == g
  {
  }

  lemma {:induction false} ZeroField(n: nat)
    ensures ToLE(0, n) == Zeros(n)
  {
    if n > 0 { ZeroField(n - 1); }
  }

  /** A name field holds the name, cut to leave room for a NUL, and NULs behind it. */
  lemma NameField(name: seq<byte>, size: nat, i: nat)
    requires i < size
    ensures PackName(name, size)[i] == if i < |name| && i < size - 1 then name[i] else 0
  {
  }

  // ---- Descriptors ----------------------------------------------------------

  lemma DescFields(t: Tensor, off: u64)
    requires Packable(t)
    ensures var d := PackDesc(t, off);
            && d[0..64] == PackName(t.name, 64) && Get32(d, 64) == t.dtype && Get32(d, 68) == |t.shape|
            && d[72..104] == PackShape(t.shape) && Get64(d, 104) == off && Get64(d, 112) == |t.data|
  {
    hide PackName, PackShape, FromLE, ToLE;
    var d := PackDesc(t, off);
    assert d[0..64] == PackName(t.name, 64);
    assert d[64..68] == ToLE(t.dtype, 4);
    assert d[68..72] == ToLE(|t.shape|, 4);
    assert d[72..104] == PackShape(t.shape);
    assert d[104..112] == ToLE(off, 8);
    assert d[112..120] == ToLE(|t.data|, 8);
    PackedField(t.dtype);
    PackedField(|t.shape|);
    PackedField(off);
    PackedField(|t.data|);
  }

  lemma FourParts(a: seq<byte>, b: seq<byte>, c: seq<byte>, d: seq<byte>)
    requires |a| == |b| == |c| == |d| == 8
    ensures var s := a + b + c + d;
            s[0..8] == a && s[8..16] == b && s[16..24] == c && s[24..32] == d
  {
    var s := a + b + c + d;
    assert s[8..16] == b;
    assert s[16..24] == c;
    assert s[24..32] == d;
  }

  lemma ShapeFields(shape: seq<nat>)
    requires |shape| <= 4 && forall i | 0 <= i < |shape| :: shape[i] < TWO64
    ensures var s := PackShape(shape);
            [Get64(s, 0), Get64(s, 8), Get64(s, 16), Get64(s, 24)][..|shape|] == shape
  {
    hide FromLE, ToLE;
    var s := PackShape(shape);
    var padded := shape + seq(4 - |shape|, _ => 0);
    FourParts(ToLE(padded[0], 8), ToLE(padded[1], 8), ToLE(padded[2], 8), ToLE(padded[3], 8));
    PackedField(padded[0]);
    PackedField(padded[1]);
    PackedField(padded[2]);
    PackedField(padded[3]);
    assert [padded[0], padded[1], padded[2], padded[3]][..|shape|] == shape;
  }

  lemma {:induction false} IndexAt(ts: seq<Tensor>, n: nat, i: nat)
    requires i < n <= |ts| && AllPackable(ts)
    ensures Index(ts, n)[128 * i..128 * i + 128] == PackDesc(ts[i], Offset(ts, i))
  {
    hide PackDesc, Offset;
    var pre, d := Index(ts, n - 1), PackDesc(ts[n - 1], Offset(ts, n - 1));
    if i < n - 1 {
      IndexAt(ts, n - 1, i);
      SliceOfFirst(pre, d, 128 * i, 128 * i + 128);
    } else {
      SliceOfSecond(pre, d, 0, 128);
    }
  }

  // ---- Data section ---------------------------------------------------------

  lemma {:induction false} BlobAt(ts: seq<Tensor>, n: nat, i: nat)
    requires i < n <= |ts|
    ensures Offset(ts, i) + |ts[i].data| <= |Blob(ts, n)|
    ensures Blob(ts, n)[Offset(ts, i)..Offset(ts, i) + |ts[i].data|] == ts[i].data
  {
    hide Offset;
    var pre := Blob(ts, n - 1);
    OffsetBeyond(ts, n - 1);
    var a := pre + Zeros(Offset(ts, n - 1) - |pre|);
    assert |a| == Offset(ts, n - 1);
    assert Blob(ts, n) == a + ts[n - 1].data;
    if i < n - 1 {
      BlobAt(ts, n - 1, i);
      SliceOfFirst(a, ts[n - 1].data, Offset(ts, i), Offset(ts, i) + |ts[i].data|);
      SliceOfFirst(pre, Zeros(Offset(ts, n - 1) - |pre|), Offset(ts, i), Offset(ts, i) + |ts[i].data|);
    } else {
      SliceOfSecond(a, ts[n - 1].data, 0, |ts[n - 1].data|);
    }
  }

  lemma OffsetBeyond(ts: seq<Tensor>, n: nat)
    requires n < |ts|
    ensures |Blob(ts, n)| <= Offset(ts, n)
  {
  }

  lemma AlignIsMultiple(n: nat)
    ensures Align64(n) % 64 == 0
  {
  }

  /** Blobs are 64-byte aligned, in order and without overlap. */
  lemma {:induction false} BlobLayout(ts: seq<Tensor>, i: nat, j: nat)
    requires i < j < |ts|
    ensures Offset(ts, i) % 64 == 0 && Offset(ts, j) % 64 == 0
    ensures Offset(ts, i) + |ts[i].data| <= Offset(ts, j)
  {
    OffsetAligned(ts, i);
    OffsetAligned(ts, j);
    if i < j - 1 {
      BlobLayout(ts, i, j - 1);
    }
  }

  lemma OffsetAligned(ts: seq<Tensor>, i: nat)
    requires i < |ts|
    ensures Offset(ts, i) % 64 == 0
  {
    if i > 0 { AlignIsMultiple(Offset(ts, i - 1) + |ts[i - 1].data|); }
  }

  ghost predicate SomeData(ts: seq<Tensor>)
  {
    exists i :: 0 <= i < |ts| && ts[i].data != []
  }

  lemma {:induction false} BlobNonempty(ts: seq<Tensor>, n: nat)
    requires n <= |ts|
    ensures Blob(ts, n) != [] <==> SomeData(ts[..n])
  {
    if n > 0 {
      BlobNonempty(ts, n - 1);
      var pre := Blob(ts, n - 1);
      if SomeData(ts[..n - 1]) {
        var i :| 0 <= i < n - 1 && ts[..n - 1][i].data != [];
        assert ts[..n][i].data != [];
      } else if ts[n - 1].data != [] {
        assert ts[..n][n - 1].data != [];
      } else {
        assert pre == [] && (n > 1 ==> Offset(ts, n - 2) == 0 && |ts[n - 2].data| == 0);
        assert Offset(ts, n - 1) == 0;
        assert forall i | 0 <= i < n :: i < n - 1 ==> ts[..n - 1][i] == ts[..n][i];
      }
    }
  }

  // ---- The file as a whole --------------------------------------------------

  /** What the file is made of, with the sizes of the parts. */
  lemma FileParts(ts: seq<Tensor>, modelName: seq<byte>)
    requires AllPackable(ts)
    ensures var f := FileOf(ts, modelName);
            var h := PackHeader(|ts|, DataOffset(|ts|), modelName);
            var base := DataOffset(|ts|);
            && 64 + 128 * |ts| <= base < TWO64 && |f| == base + |Blob(ts, |ts|)|
            && f[..64] == h && f[64..64 + 128 * |ts|] == Index(ts, |ts|) && f[base..] == Blob(ts, |ts|)
  {
    hide PackHeader, Index, Blob, Offset, Packable;
    var n := |ts|;
    assert DataOffset(n) < TWO64;
    var h, x := PackHeader(n, DataOffset(n), modelName), Index(ts, n);
    var z, b := Zeros(DataOffset(n) - HEADER_SIZE - n * DESC_SIZE), Blob(ts, n);
    assert FileOf(ts, modelName) == h + (x + (z + b));
    SliceOfSecond(h, x + (z + b), 0, |x|);
    assert (x + (z + b))[0..|x|] == x;
  }

  lemma FileHeader(ts: seq<Tensor>, modelName: seq<byte>)
    requires AllPackable(ts)
    ensures var f := FileOf(ts, modelName);
            |f| >= 64 && f[0..4] == MAGIC && Get32(f, 4) == VERSION && Get32(f, 8) == |ts| && Get64(f, 16) == DataOffset(|ts|)
  {
    hide PackHeader, Index, Blob, Offset, Packable, FileOf, DataOffset;
    FileParts(ts, modelName);
    HeaderFields(|ts|, DataOffset(|ts|), modelName);
    var f := FileOf(ts, modelName);
    SliceOfSlice(f, 0, 64, 0, 4);
    SliceOfSlice(f, 0, 64, 4, 8);
    SliceOfSlice(f, 0, 64, 8, 12);
    SliceOfSlice(f, 0, 64, 16, 24);
    assert f[0..64] == f[..64];
  }

  /**
   The reader accepts the written file exactly when there are 1 to 256 tensors and some data; the
   two ways to be refused have their own error numbers.
   */
  lemma LoadWritten(ts: seq<Tensor>, modelName: seq<byte>)
    requires AllPackable(ts)
    ensures var f := FileOf(ts, modelName);
            Load(f) == if |ts| == 0 || |ts| > MAX_TENSORS then (-4, None)
                       else if !SomeData(ts) then (-6, None)
                       else (0, Some(Model(f, DataOffset(|ts|), |ts|)))
  {
    hide PackHeader, Index, Blob, Offset, Packable, FileOf, DataOffset, AllPackable, SomeData;
    FileParts(ts, modelName);
    FileHeader(ts, modelName);
    BlobNonempty(ts, |ts|);
    assert ts[..|ts|] == ts;
  }

  lemma DescInFile(ts: seq<Tensor>, modelName: seq<byte>, i: nat)
    requires AllPackable(ts) && i < |ts|
    ensures var f := FileOf(ts, modelName);
            NameAt(i) + 128 <= |f| && f[NameAt(i)..NameAt(i) + 128] == PackDesc(ts[i], Offset(ts, i))
  {
    hide PackHeader, Index, Blob, Offset, Packable, FileOf, DataOffset, PackDesc;
    FileParts(ts, modelName);
    IndexAt(ts, |ts|, i);
    SliceOfSlice(FileOf(ts, modelName), 64, 64 + 128 * |ts|, 128 * i, 128 * i + 128);
  }

  /** A field of the descriptor, read in the file. */
  lemma FieldInFile(f: seq<byte>, p: nat, d: seq<byte>)
    requires |d| == 128 && p + 128 <= |f| && f[p..p + 128] == d
    ensures Get32(f, p + 64) == Get32(d, 64) && Get32(f, p + 68) == Get32(d, 68)
    ensures f[p + 72..p + 104] == d[72..104] && f[p..p + 64] == d[0..64]
    ensures Get64(f, p + 104) == Get64(d, 104) && Get64(f, p + 112) == Get64(d, 112)
  {
    hide FromLE;
    SliceOfSlice(f, p, p + 128, 64, 68);
    SliceOfSlice(f, p, p + 128, 68, 72);
    SliceOfSlice(f, p, p + 128, 72, 104);
    SliceOfSlice(f, p, p + 128, 0, 64);
    SliceOfSlice(f, p, p + 128, 104, 112);
    SliceOfSlice(f, p, p + 128, 112, 120);
  }

  lemma ShapeInFile(f: seq<byte>, p: nat, s: seq<byte>)
    requires |s| == 32 && p + 32 <= |f| && f[p..p + 32] == s
    ensures Get64(f, p) == Get64(s, 0) && Get64(f, p + 8) == Get64(s, 8)
    ensures Get64(f, p + 16) == Get64(s, 16) && Get64(f, p + 24) == Get64(s, 24)
  {
    hide FromLE;
    SliceOfSlice(f, p, p + 32, 0, 8);
    SliceOfSlice(f, p, p + 32, 8, 16);
    SliceOfSlice(f, p, p + 32, 16, 24);
    SliceOfSlice(f, p, p + 32, 24, 32);
  }

  predicate GoodName(s: seq<byte>) { |s| <= 63 && NulFree(s) }

  /** A name field holds exactly its name as a C string. */
  lemma NameInFile(f: seq<byte>, p: nat, name: seq<byte>)
    requires GoodName(name) && p + 64 <= |f| && f[p..p + 64] == PackName(name, 64)
    ensures IsCString(f, p, name) && Terminated(f, p)
  {
    var s := PackName(name, 64);
    forall i | 0 <= i < 64 ensures f[p + i] == s[i] {
      assert f[p..p + 64][i] == s[i];
    }
    assert forall i | 0 <= i < |name| :: s[i] == name[i];
    assert s[|name|] == 0;
    assert IsNul(f, p + |name|);
  }

  lemma FieldsReadBack(m: Model, i: nat, t: Tensor, off: u64)
    requires Loaded(m) && i < m.n && Packable(t) && GoodName(t.name)
    requires m.buf[NameAt(i)..NameAt(i) + 128] == PackDesc(t, off)
    ensures IsCString(m.buf, NameAt(i), t.name) && Terminated(m.buf, NameAt(i))
    ensures DtypeOf(m, i) == t.dtype && ShapeOf(m, i) == t.shape
  {
    hide PackDesc, PackName, PackShape, IsCString, Terminated, FromLE, ToLE, GoodName;
    FieldInFile(m.buf, NameAt(i), PackDesc(t, off));
    DescFields(t, off);
    NameInFile(m.buf, NameAt(i), t.name);
    ShapeInFile(m.buf, NameAt(i) + 72, PackShape(t.shape));
    ShapeFields(t.shape);
  }

  lemma TensorReadBack(ts: seq<Tensor>, modelName: seq<byte>, i: nat)
    requires AllPackable(ts) && i < |ts| && GoodName(ts[i].name)
    requires Load(FileOf(ts, modelName)).1 == Some(Model(FileOf(ts, modelName), DataOffset(|ts|), |ts|))
    ensures var m := Model(FileOf(ts, modelName), DataOffset(|ts|), |ts|);
            && Loaded(m) && IsCString(m.buf, NameAt(i), ts[i].name) && Terminated(m.buf, NameAt(i))
            && DtypeOf(m, i) == ts[i].dtype && ShapeOf(m, i) == ts[i].shape
  {
    hide PackHeader, Index, Blob, Offset, FileOf, DataOffset, PackDesc, IsCString, Terminated, GoodName, Packable, ShapeOf, DtypeOf;
    var m := Model(FileOf(ts, modelName), DataOffset(|ts|), |ts|);
    assert Loaded(m) by { FileHeader(ts, modelName); }
    hide Load, Validate;
    DescInFile(ts, modelName, i);
    FieldsReadBack(m, i, ts[i], Offset(ts, i));
  }

  lemma DataReadBack(ts: seq<Tensor>, modelName: seq<byte>, i: nat)
    requires AllPackable(ts) && i < |ts|
    requires Loaded(Model(FileOf(ts, modelName), DataOffset(|ts|), |ts|))
    ensures DataOf(Model(FileOf(ts, modelName), DataOffset(|ts|), |ts|), i) == Some(ts[i].data)
  {
    hide PackHeader, Index, Blob, Offset, FileOf, DataOffset, PackDesc, Loaded, Get64, AllPackable;
    var f, t := FileOf(ts, modelName), ts[i];
    var off := Offset(ts, i);
    OnePackable(ts, i);
    hide Packable;
    DescInFile(ts, modelName, i);
    FieldInFile(f, NameAt(i), PackDesc(t, off));
    DescFields(t, off);
    BytesInFile(ts, modelName, i);
  }

  lemma OnePackable(ts: seq<Tensor>, i: nat)
    requires AllPackable(ts) && i < |ts|
    ensures Packable(ts[i]) && Offset(ts, i) < TWO64
  {
  }

  /** The bytes of tensor i stand at its offset in the data section. */
  lemma BytesInFile(ts: seq<Tensor>, modelName: seq<byte>, i: nat)
    requires AllPackable(ts) && i < |ts|
    ensures var f, base, off, n := FileOf(ts, modelName), DataOffset(|ts|), Offset(ts, i), |ts[i].data|;
            base <= |f| && off + n <= |f| - base && f[base + off..base + off + n] == ts[i].data
  {
    hide PackHeader, Index, Blob, Offset, FileOf, DataOffset, Packable;
    var f, base, off, n := FileOf(ts, modelName), DataOffset(|ts|), Offset(ts, i), |ts[i].data|;
    FileParts(ts, modelName);
    BlobAt(ts, |ts|, i);
    SliceOfSlice(f, base, |f|, off, off + n);
    assert f[base..] == f[base..|f|];
  }

  ghost predicate DistinctNames(ts: seq<Tensor>)
  {
    forall i, j | 0 <= i < j < |ts| :: ts[i].name != ts[j].name
  }

  /** Loading a written file and looking a tensor up by name returns exactly that tensor. */
  method FindIn(file: seq<byte>, ts: seq<Tensor>, modelName: seq<byte>, i: nat) returns (found: Option<Tensor>)
    requires AllPackable(ts) && file == FileOf(ts, modelName)
    requires 1 <= |ts| <= MAX_TENSORS && SomeData(ts) && DistinctNames(ts)
    requires (forall j | 0 <= j < |ts| :: GoodName(ts[j].name)) && i < |ts|
    ensures found == Some(ts[i])
  {
    LoadWritten(ts, modelName);
    hide FileOf, DataOffset, Load, Packable, AllPackable, DistinctNames, SomeData, IsCString, Terminated, Comparable;
    var (code, model) := Load(file);
    var m := model.value;
    forall j: nat | j < |ts|
      ensures IsCString(m.buf, NameAt(j), ts[j].name) && Terminated(m.buf, NameAt(j)) && Loaded(m) {
      TensorReadBack(ts, modelName, j);
    }
    assert Loaded(m) && IsCString(m.buf, NameAt(i), ts[i].name);
    forall j: nat | j < m.n ensures Comparable(m.buf, NameAt(j), ts[i].name) {
      NamesComparable(m, ts[i].name, j);
    }
    var r := Find(m, ts[i].name);
    OnlyMatch(ts, m, i, r);
    TensorReadBack(ts, modelName, i);
    DataReadBack(ts, modelName, i);
    var k := r.value;
    found := Some(Tensor(ts[i].name, DtypeOf(m, k), ShapeOf(m, k), DataOf(m, k).value));
  }

  /** The round trip through both implementations of the format. */
  method WriteLoadFind(ts: seq<Tensor>, modelName: seq<byte>, i: nat) returns (found: Option<Tensor>)
    requires AllPackable(ts) && 1 <= |ts| <= MAX_TENSORS && SomeData(ts) && DistinctNames(ts)
    requires (forall j | 0 <= j < |ts| :: GoodName(ts[j].name)) && i < |ts|
    ensures found == Some(ts[i])
  {
    var file := WriteStf(ts, modelName);
    found := FindIn(file.value, ts, modelName, i);
  }

  lemma OnlyMatch(ts: seq<Tensor>, m: Model, i: nat, r: Option<nat>)
    requires m.n == |ts| && i < |ts| && DistinctNames(ts)
    requires forall j: nat | j < |ts| :: IsCString(m.buf, NameAt(j), ts[j].name)
    requires match r
             case Some(k) => k < m.n && IsCString(m.buf, NameAt(k), ts[i].name)
             case None => forall j: nat | j < m.n :: !IsCString(m.buf, NameAt(j), ts[i].name)
    ensures r == Some(i)
  {
    hide IsCString;
    assert r != None by { assert IsCString(m.buf, NameAt(i), ts[i].name); }
    CStringUnique(m.buf, NameAt(r.value), ts[i].name, ts[r.value].name);
  }
}
