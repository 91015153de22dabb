/**
 The SAM Tensor Format: the host-side writer that lays tensors out as bytes, and the kernel's
 reader of such bytes. Names are byte strings (the writer's UTF-8 encoding).
 */
module Stf {
  import opened Bytes

  const HEADER_SIZE: nat := 64
  const DESC_SIZE: nat := 128
  const MAX_TENSORS: nat := 256
  const MAGIC: seq<byte> := [0x53, 0x54, 0x46, 0x31]
  const VERSION: nat := 1

  datatype Tensor = Tensor(name: seq<byte>, dtype: nat, shape: seq<nat>, data: seq<byte>)

  // ---- Writer ---------------------------------------------------------------

  function Align64(n: nat): (r: nat)
    ensures n <= r < n + 64
  {
    (n + 63) / 64 * 64
  }

  /** A name cut to leave room for a NUL, and padded with NULs to the field. */
  function PackName(name: seq<byte>, size: nat): (s: seq<byte>)
    requires size > 0
    ensures |s| == size
  {
    var cut := if |name| > size - 1 then name[..size - 1] else name;
    cut + Zeros(size - |cut|)
  }

  function PackHeader(n: u32, dataOffset: u64, modelName: seq<byte>): (s: seq<byte>)
    ensures |s| == HEADER_SIZE
  {
    MAGIC + ToLE(VERSION, 4) + ToLE(n, 4) + ToLE(0, 4) + ToLE(dataOffset, 8) + PackName(modelName, 32) + Zeros(8)
  }

  /** The four shape fields, unused ones zero. */
  function PackShape(shape: seq<nat>): (s: seq<byte>)
    requires |shape| <= 4
    ensures |s| == 32
  {
    var padded := shape + seq(4 - |shape|, _ => 0);
    ToLE(padded[0], 8) + ToLE(padded[1], 8) + ToLE(padded[2], 8) + ToLE(padded[3], 8)
  }

  /** What struct.pack accepts: at most four dimensions, and every number within its field. */
  predicate Packable(t: Tensor)
  {
    |t.shape| <= 4 && t.dtype < TWO32 && (forall i | 0 <= i < |t.shape| :: t.shape[i] < TWO64) && |t.data| < TWO64
  }

  function PackDesc(t: Tensor, off: u64): (s: seq<byte>)
    requires Packable(t)
    ensures |s| == DESC_SIZE
  {
    PackName(t.name, 64) + ToLE(t.dtype, 4) + ToLE(|t.shape|, 4) + PackShape(t.shape) + ToLE(off, 8) + ToLE(|t.data|, 8) + Zeros(8)
  }

  /** Where the blob of tensor i starts in the data section: 64-byte aligned after the one before. */
  function Offset(ts: seq<Tensor>, i: nat): nat
    requires i < |ts|
  {
    if i == 0 then 0 else Align64(Offset(ts, i - 1) + |ts[i - 1].data|)
  }

  function Offsets(ts: seq<Tensor>, i: nat): (offs: seq<nat>)
    requires i <= |ts|
    ensures |offs| == i
  {
    if i == 0 then [] else Offsets(ts, i - 1) + [Offset(ts, i - 1)]
  }

  lemma {:induction false} OffsetsAt(ts: seq<Tensor>, i: nat, j: nat)
    requires j < i <= |ts|
    ensures Offsets(ts, i)[j] == Offset(ts, j)
  {
    hide Offset;
    if j < i - 1 { OffsetsAt(ts, i - 1, j); }
  }

  function DataOffset(n: nat): nat { Align64(HEADER_SIZE + n * DESC_SIZE) }

  /** The data section up to the end of tensor i - 1. */
  function Blob(ts: seq<Tensor>, i: nat): (s: seq<byte>)
    requires i <= |ts|
    ensures i > 0 ==> |s| == Offset(ts, i - 1) + |ts[i - 1].data|
    ensures i == 0 ==> s == []
  {
    if i == 0 then []
    else
      var pre := Blob(ts, i - 1);
      pre + Zeros(Offset(ts, i - 1) - |pre|) + ts[i - 1].data
  }

  /** The descriptor table of the first i tensors. */
  function Index(ts: seq<Tensor>, i: nat): (s: seq<byte>)
    requires i <= |ts| && AllPackable(ts)
    ensures |s| == i * DESC_SIZE
  {
    if i == 0 then [] else Index(ts, i - 1) + PackDesc(ts[i - 1], Offset(ts, i - 1))
  }

  predicate AllPackable(ts: seq<Tensor>)
  {
    |ts| < TWO32 && forall i | 0 <= i < |ts| :: Packable(ts[i]) && Offset(ts, i) < TWO64
  }

  /** The whole file. */
  function FileOf(ts: seq<Tensor>, modelName: seq<byte>): (s: seq<byte>)
    requires AllPackable(ts)
  {
    PackHeader(|ts|, DataOffset(|ts|), modelName) + Index(ts, |ts|)
    + Zeros(DataOffset(|ts|) - HEADER_SIZE - |ts| * DESC_SIZE) + Blob(ts, |ts|)
  }

  lemma AlignZero()
    ensures Align64(0) == 0
  {
  }

  /** First pass: the aligned offset of every blob. */
  method ComputeOffsets(ts: seq<Tensor>) returns (offs: seq<nat>)
    ensures offs == Offsets(ts, |ts|)
  {
    hide Align64;
    var cur: nat := 0;
    offs := [];
    AlignZero();
    for i := 0 to |ts|
      invariant offs == Offsets(ts, i)
      invariant cur == if i == 0 then 0 else Offset(ts, i - 1) + |ts[i - 1].data|
    {
      var alignedCur := if cur > 0 then Align64(cur) else 0;
      offs := offs + [alignedCur];
      cur := alignedCur + |ts[i].data|;
    }
  }

  /** Second pass: the descriptors, or the error of a number that does not fit its field. */
  method PackDescs(ts: seq<Tensor>, offs: seq<nat>) returns (r: Option<seq<byte>>)
    requires |ts| < TWO32 && offs == Offsets(ts, |ts|)
    ensures r == if AllPackable(ts) then Some(Index(ts, |ts|)) else None
  {
    hide PackDesc, Packable, Offset, Index;
    var descs: seq<byte> := [];
    for i := 0 to |ts|
      invariant forall j | 0 <= j < i :: Packable(ts[j]) && Offset(ts, j) < TWO64
      invariant descs == Descs(ts, i)
    {
      OffsetsAt(ts, |ts|, i);
      if !(Packable(ts[i]) && offs[i] < TWO64) {
        return None;
      }
      descs := descs + PackDesc(ts[i], offs[i]);
    }
    DescsAreIndex(ts, |ts|);
    r := Some(descs);
  }

  /** Third pass: the blobs, padded to their offsets. */
  method WriteBlobs(ts: seq<Tensor>, offs: seq<nat>) returns (blob: seq<byte>)
    requires offs == Offsets(ts, |ts|)
    ensures blob == Blob(ts, |ts|)
  {
    blob := [];
    for i := 0 to |ts|
      invariant blob == Blob(ts, i)
    {
      OffsetsAt(ts, |ts|, i);
      var padNeeded := offs[i] - |blob|;
      if padNeeded > 0 {
        blob := blob + Zeros(padNeeded);
      }
      blob := blob + ts[i].data;
    }
  }

  /** The writer; None is the error that packing an out-of-range field raises. */
  method WriteStf(ts: seq<Tensor>, modelName: seq<byte>) returns (r: Option<seq<byte>>)
    ensures r == if AllPackable(ts) then Some(FileOf(ts, modelName)) else None
  {
    hide PackHeader, Packable, Offset, Offsets, Index, Blob;
    var n := |ts|;
    var dataOffset := Align64(HEADER_SIZE + n * DESC_SIZE);
    var offs := ComputeOffsets(ts);
    if n >= TWO32 {
      return None;
    }
    var hdr := PackHeader(n, dataOffset, modelName);
    var descs := PackDescs(ts, offs);
    if descs == None {
      return None;
    }
    var indexBlob := hdr + descs.value;
    indexBlob := indexBlob + Zeros(dataOffset - |indexBlob|);
    var blob := WriteBlobs(ts, offs);
    r := Some(indexBlob + blob);
  }

  /** The descriptor table of a prefix whose tensors are known to be packable so far. */
  function Descs(ts: seq<Tensor>, i: nat): (s: seq<byte>)
    requires i <= |ts| && forall j | 0 <= j < i :: Packable(ts[j]) && Offset(ts, j) < TWO64
  {
    if i == 0 then [] else Descs(ts, i - 1) + PackDesc(ts[i - 1], Offset(ts, i - 1))
  }

  lemma {:induction false} DescsAreIndex(ts: seq<Tensor>, i: nat)
    requires i <= |ts| && AllPackable(ts)
    ensures Descs(ts, i) == Index(ts, i)
  {
    hide Packable, Offset, PackDesc;
    if i > 0 { DescsAreIndex(ts, i - 1); }
  }

  // ---- Reader ---------------------------------------------------------------

  /** A loaded model: the buffer, and where its data section starts. */
  datatype Model = Model(buf: seq<byte>, dataBase: nat, n: nat)

  function Validate(buf: seq<byte>): int
  {
    if |buf| < HEADER_SIZE then -1
    else if buf[0..4] != MAGIC then -2
    else if Get32(buf, 4) != VERSION then -3
    else if Get32(buf, 8) == 0 || Get32(buf, 8) > MAX_TENSORS then -4
    else if |buf| < 64 + Get32(buf, 8) * 128 then -5
    else 0
  }

  /** The load of a buffer: a model, or the reader's error number. */
  function Load(buf: seq<byte>): (int, Option<Model>)
  {
    var r := Validate(buf);
    if r != 0 then (r, None)
    else
      var off := Get64(buf, 16);
      if off >= |buf| then (-6, None)
      else if 64 + Get32(buf, 8) * 128 > off then (-7, None)
      else (0, Some(Model(buf, off, Get32(buf, 8))))
  }

  /**
   The verdict on every buffer, on its bytes: the letters STF1, version 1, the number of tensors in
   bytes 8 to 11 and the start of the data section in bytes 16 to 23.
   */
  lemma LoadVerdict(buf: seq<byte>)
    ensures var code := Load(buf).0;
            if |buf| < 64 then code == -1
            else if buf[0..4] != ['S' as int, 'T' as int, 'F' as int, '1' as int] then code == -2
            else if buf[4..8] != [1, 0, 0, 0] then code == -3
            else
              var n := buf[8] as int + 0x100 * buf[9] as int + 0x1_0000 * buf[10] as int + 0x100_0000 * buf[11] as int;
              var off := FromLE(buf[16..24]);
              if n == 0 || n > 256 then code == -4
              else if |buf| < 64 + 128 * n then code == -5
              else if off >= |buf| then code == -6
              else if off < 64 + 128 * n then code == -7
              else code == 0 && Load(buf).1 == Some(Model(buf, off, n))
    ensures Load(buf).0 != 0 ==> Load(buf).1 == None
  {
    hide FromLE;
    if |buf| >= 64 {
      FieldBytes(buf, 4);
      FieldBytes(buf, 8);
      assert buf[4..8] == [buf[4], buf[5], buf[6], buf[7]];
    }
  }

  predicate Loaded(m: Model)
  {
    m.dataBase < |m.buf| && 64 + m.n * 128 <= m.dataBase
  }

  ghost predicate Differs(buf: seq<byte>, p: nat, name: seq<byte>, k: nat)
  {
    k < |name| && p + k < |buf| && buf[p + k] != name[k]
  }

  /** Comparing the bytes from position p on with the name stops inside the buffer. */
  ghost predicate Comparable(buf: seq<byte>, p: nat, name: seq<byte>)
  {
    p + |name| < |buf| || exists k: nat :: Differs(buf, p, name, k)
  }

  /** No data pointer is given for a descriptor whose offset (bytes 104 to 111) plus size (112 to 119) leaves the buffer, and only then. */
  lemma DataRefusedIff(m: Model, i: nat)
    requires Loaded(m) && i < m.n
    ensures var off, len := FromLE(m.buf[64 + 128 * i + 104..64 + 128 * i + 112]), FromLE(m.buf[64 + 128 * i + 112..64 + 128 * i + 120]);
            && (DataOf(m, i) == None <==> m.dataBase + off + len > |m.buf|)
            && (DataOf(m, i).Some? ==> DataOf(m, i).value == m.buf[m.dataBase + off..m.dataBase + off + len])
  {
    hide FromLE;
  }

  lemma ComparisonGoesOn(buf: seq<byte>, p: nat, name: seq<byte>, k: nat)
    requires Comparable(buf, p, name) && k < |name| && p + k < |buf| && forall i | 0 <= i <= k :: name[i] == buf[p + i]
    ensures p + k + 1 < |buf|
  {
    if p + |name| >= |buf| {
      var d: nat :| Differs(buf, p, name, d);
      assert k < d;
    }
  }

  /** The byte-by-byte comparison of a name field with a NUL-terminated name. */
  method SameName(buf: seq<byte>, p: nat, name: seq<byte>) returns (match': bool)
    requires Comparable(buf, p, name) && NulFree(name)
    ensures match' == IsCString(buf, p, name)
  {
    var k := 0;
    assert p < |buf|;
    while buf[p + k] != 0 || k < |name|
      invariant k <= |name| && p + k < |buf| && forall i | 0 <= i < k :: name[i] == buf[p + i]
      decreases |name| - k
    {
      if k == |name| || buf[p + k] != name[k] {
        return false;
      }
      ComparisonGoesOn(buf, p, name, k);
      k := k + 1;
    }
    return true;
  }

  /** The first tensor of that name, or none. */
  method Find(m: Model, name: seq<byte>) returns (r: Option<nat>)
    requires Loaded(m) && NulFree(name)
    requires forall i: nat {:trigger NameAt(i)} | i < m.n :: Comparable(m.buf, NameAt(i), name)
    ensures match r
            case Some(i) => i < m.n && IsCString(m.buf, NameAt(i), name) && forall j: nat | j < i :: !IsCString(m.buf, NameAt(j), name)
            case None => forall j: nat | j < m.n :: !IsCString(m.buf, NameAt(j), name)
  {
    var i := 0;
    while i < m.n
      invariant i <= m.n && forall j: nat | j < i :: !IsCString(m.buf, NameAt(j), name)
    {
      var match' := SameName(m.buf, NameAt(i), name);
      if match' { return Some(i); }
      i := i + 1;
    }
    return None;
  }

  function NameAt(i: nat): nat { 64 + 128 * i }

  /** In a loaded file every name of up to 128 bytes can be looked for, whatever the name fields hold. */
  lemma NamesComparable(m: Model, name: seq<byte>, i: nat)
    requires Loaded(m) && i < m.n && |name| <= 128
    ensures Comparable(m.buf, NameAt(i), name)
  {
  }

  function DtypeOf(m: Model, i: nat): nat
    requires Loaded(m) && i < m.n
  {
    Get32(m.buf, NameAt(i) + 64)
  }

  function ShapeOf(m: Model, i: nat): seq<nat>
    requires Loaded(m) && i < m.n
  {
    var p := NameAt(i) + 72;
    var ndim := Get32(m.buf, NameAt(i) + 68);
    var all := [Get64(m.buf, p), Get64(m.buf, p + 8), Get64(m.buf, p + 16), Get64(m.buf, p + 24)];
    if ndim <= 4 then all[..ndim] else all
  }

  /** The tensor's bytes, or none when they would leave the buffer. */
  function DataOf(m: Model, i: nat): Option<seq<byte>>
    requires Loaded(m) && i < m.n
  {
    var off, len := Get64(m.buf, NameAt(i) + 104), Get64(m.buf, NameAt(i) + 112);
    var size := |m.buf| - m.dataBase;
    if off > size then None
    else if len > size - off then None
    else Some(m.buf[m.dataBase + off..m.dataBase + off + len])
  }
}
